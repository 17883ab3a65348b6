# Password, handle and message libraries: model and proofs

The repository carries its own small replacement for the PAM library
(`home/xlzs0/pkgs/pam-stub/libpam`) and a stub of the D-Bus client library
(`home/xlzs0/pkgs/dbus-stub`). This project models the parts of them that keep state or
follow a protocol, and proves what those parts promise.

**Password change on disk.** `ShadowProtocol` is a step system: any number of callers, each
taking the lock, making a temporary file, copying and rewriting rows, flushing, syncing,
closing, renaming and unlocking, one system call at a time. Any call may fail, a process may
die between two steps, and the machine may lose power. `ShadowTheorems` proves that the
table is always the replay of the committed changes in lock order, that a failing caller
contributes nothing, and that calls end and the lock is never stuck. `ShadowUpdate` is the
same code as one process runs it; `ShadowSolo` shows that whatever it does is what the step
system does when one new caller moves alone. `ShadowRows` says what one change does to
lookups.

**Password check through the helper.** `ChkpwdProtocol` interleaves the parent and the
set-user-id helper with a pipe between them; `ChkpwdTheorems` says exactly when the parent's
answer is the answer a direct check would give. `ChkpwdHelper` is the helper's `main` with
its byte-by-byte read loop, and `Transfer` the chunked read and write loops.

**The handle.** `EnvTable`, `ItemTable` and `DataList` are the environment array, the item
slots and the module-data list, changed in place; `EnvSpec`, `ItemSpec` and `DataSpec` are
what they mean as values, and `HandleSpec` what any sequence of calls makes of a whole
handle. `CMemory.CHeap` is an allocator in which every request may fail
and a block can be freed only while it is live, so a double free cannot be written.
`PamHandle.Session` runs any calls from `pam_start` to `pam_end` and accounts for every block.

**Authentication and password change.** `AuthSpec` gives `pam_authenticate` and
`pam_chauthtok` as functions of the handle's user and tokens against arbitrary replies and
allocation failures; `Auth` is the code on an item table, tied to those functions;
`AuthGate` says exactly when each of them succeeds and what every refusal leaves behind, and
`AuthStart` starts from a handle `pam_start` has just made.
`AuthTheorems` is about one or two calls, `AuthRuns` about runs of any length on one handle
and the table, by callers who read the table and by callers who go through the helper.
`AuthPaths` joins authentication to the helper's protocol and to concurrent changes.

**Text.** `KeyFile` is the grammar of `KEY VALUE` lines and `KeyParser` the in-place parser;
`SaltSpec` and `HashSetting` choose and print the setting for a new hash; `MiscConv` is the
terminal conversation.

**Messages.** `DBusSpec` says what a client of the message calls observes, `DBusMessage` is
the counted message with its owned strings, and `DBusRuns` ties whole runs of the second to
the first.

`crypt` is an arbitrary function. Only `AuthTheorems.ChangeThenAuthenticate`,
`AuthRuns.NewPasswordHolds` and `AuthPaths.CommittedChangeAuthenticates` assume anything of
it: that a hash it produced, used as the setting, gives that hash again.
Return codes are numbered in the order of the message table at pam.c:42-73. `_pam_types.h`
is not part of this model: item numbers and message styles are constants of the project, and
the largest response size is a symbolic limit.

## Where the code differs from what one would expect

Each of these follows the code; the lemma named gives the exact condition.

- The helper reads at most the response limit and leaves the terminator unread, so for a
  password of at least that length the parent may fail to deliver the terminator and answer
  "authentication error" even when the helper accepted. The two paths agree in every
  interleaving if and only if the password is shorter than the limit, or both the whole and
  the truncated password are wrong (`ChkpwdTheorems.AgreementIff`, and for
  `pam_authenticate` itself `AuthPaths.PathsAgreeIff`).
- A helper whose read fails tries the empty password instead, unless empty passwords are
  forbidden: success is a possible answer if and only if the helper accepts the truncated
  password, or the empty one where a read may fail (`ChkpwdTheorems.SuccessPossibleIff`).
- An old password stays on the handle once it is there, right or wrong, whatever
  authentications and changes follow (`AuthRuns.OldTokenStaysForever`): it is asked for if and
  only if the handle has none (`AuthTheorems.OldTokenAskedIff`), so after a wrong one every
  change by a caller who is not root is denied without a prompt
  (`AuthTheorems.WrongOldTokenSticks`).
- A new password is asked for if and only if the handle has no current token
  (`AuthTheorems.NewTokenAskedIff`), so an empty one denies every later change
  (`AuthTheorems.EmptyNewTokenSticks`) until a retype answered with something else clears it
  (`AuthTheorems.EmptyTokenClearedIff`), or a failed authentication on the same handle does
  (`AuthTheorems.TokenRetained`).
- After a successful direct `pam_authenticate`, `pam_chauthtok` on the same handle does not
  ask for a new password: it asks for the old one, from a caller who is not root on a handle
  that has none, and for the retype, and can only set the password that was just verified
  (`AuthTheorems.ChangeAfterAuthenticateKeepsPassword`).
- The pointer comparison that guards the retype prompt is always true: what
  `pam_get_authtok` hands out is the item itself, NULL included (`Auth.ConfirmToken`).
- `pam_misc_setenv` accepts a name containing `=` and then overwrites the variable named by
  the part before it (`EnvSpec.SetThenGet`).
- The configured yescrypt cost does not reach the setting (`SaltSpec.SettingEqualIff`).
- The SHA round count is the default if and only if the configured number is below 1000 or
  at least `INT_MAX`; just below `INT_MAX` it is the maximum (`SaltSpec.ShaRoundsIff`, with
  an instance in `SaltSpec.TooManyShaRounds`).
- An unknown or missing `ENCRYPT_METHOD` keeps the method found by the previous call
  (`HashSetting.HashSettings.ChoosePrefix`).
- A D-Bus string setter reports success also when the copy fails; the old text is then gone.
  The text is set if and only if it is NULL or the allocation succeeds
  (`DBusSpec.SetTextKeepsIff`, with an instance in `DBusSpec.SetTextLoses`). No call ever sets
  a signature (`DBusSpec.SignatureNeverSet`).

## Model

| member | source | states |
|---|---|---|
| `ShadowTheorems.Serializable` | home/xlzs0/pkgs/pam-stub/libpam/pam.c:535-618 | In every reachable state of any number of interleaved, failing and dying callers, the table is the replay of the committed changes; commits follow lock acquisition, at most one per caller; a caller that returned reports success if and only if its change was committed |
| `ShadowTheorems.AtomicStep` | home/xlzs0/pkgs/pam-stub/libpam/pam.c:544-618 | Each step leaves the table alone or, for the rename only, replaces it by the complete updated table; after a power failure it is the complete table some prefix of the renames produced |
| `ShadowTheorems.PowerLossLeaves` | home/xlzs0/pkgs/pam-stub/libpam/pam.c:597-605 | Any number of the latest renames can be lost with the power: the table is then the complete one before them, every file holds what had been synced, and nobody holds the lock |
| `ShadowTheorems.ReturnIsClean` | home/xlzs0/pkgs/pam-stub/libpam/pam.c:602-618 | A caller that returned does not hold the lock, has left no temporary file unless unlink failed, and if it reports failure it committed nothing |
| `ShadowTheorems.MutualExclusion` | home/xlzs0/pkgs/pam-stub/libpam/pam.c:535-556 | At most one caller is between lock and unlock |
| `ShadowTheorems.LastWriterWins` | home/xlzs0/pkgs/pam-stub/libpam/pam.c:574-618 | After any run, each user is looked up with the hash of that user's last committed change |
| `ShadowTheorems.CallsTerminate` | home/xlzs0/pkgs/pam-stub/libpam/pam.c:535-618 | Every own step of a caller lowers a bounded measure and no step of another caller raises it |
| `ShadowTheorems.LockNeverStuck` | home/xlzs0/pkgs/pam-stub/libpam/pam.c:544-618 | Whoever holds the lock can, alone, run to its return and release it |
| `ShadowProtocol.StepInv` | home/xlzs0/pkgs/pam-stub/libpam/pam.c:535-618 | Every step, failure, crash and power failure keeps the protocol invariant: versions complete and durable, lock exclusive, commits after acquisitions, temporary files private, each caller's copy as far as its program counter says |
| `ShadowProtocol.CopyInv` | home/xlzs0/pkgs/pam-stub/libpam/pam.c:574-596 | One turn of the copy loop, or its end, keeps the temporary copy equal to the rewritten prefix, and the finished copy equal to the updated table |
| `ShadowProtocol.RenameVersions` | home/xlzs0/pkgs/pam-stub/libpam/pam.c:566-605 | The rename makes the current table the update of the table the caller read under the lock |
| `ShadowProtocol.PowerLossInv` | home/xlzs0/pkgs/pam-stub/libpam/pam.c:597-605 | A power failure that keeps only what was synced keeps every surviving version complete |
| `ShadowRows.UpdateLookup` | home/xlzs0/pkgs/pam-stub/libpam/pam.c:574-596 | After a change the user's first row has the new hash; every other user is found exactly as before |
| `ShadowRows.UpdateKeepsOrder` | home/xlzs0/pkgs/pam-stub/libpam/pam.c:574-596 | Rows keep names and order, aging data is untouched, and a row is appended only for a user the table did not mention |
| `ShadowRows.UpdateRow` | home/xlzs0/pkgs/pam-stub/libpam/pam.c:575-580 | Every row of the changed user, not only the first, gets the new hash and the day of the change, -1 for day 0, and keeps its aging data |
| `ShadowRows.UpdateAppends` | home/xlzs0/pkgs/pam-stub/libpam/pam.c:584-596 | For a user without a row the table is kept and one row is appended, with the hash, the day of the change, -1 for day 0, and all six aging fields -1 |
| `ShadowRows.ReplayLookup` | home/xlzs0/pkgs/pam-stub/libpam/pam.c:574-596 | Over any list of changes, user by user, the last writer wins |
| `ShadowRows.ReplayRows` | home/xlzs0/pkgs/pam-stub/libpam/pam.c:574-596 | After any list of changes every row of a changed user holds the hash of that user's last change |
| `ShadowUpdate.ShadowFiles.LockShadow` | home/xlzs0/pkgs/pam-stub/libpam/pam.c:535-542 | The lock is obtained if and only if it is free and one of 100 attempts succeeds; otherwise all 100 were made |
| `ShadowUpdate.ShadowFiles.CopyRows` | home/xlzs0/pkgs/pam-stub/libpam/pam.c:574-596 | The copy loop yields the updated table (`ShadowRows.UpdateRow`, `ShadowRows.UpdateAppends`) or stops because a call failed |
| `ShadowUpdate.ShadowFiles.Replace` | home/xlzs0/pkgs/pam-stub/libpam/pam.c:558-605 | From mkstemp to rename: the table is the updated one and the temporary file gone, or the table is unchanged, some call failed and at most the one new file is there, empty or complete |
| `ShadowUpdate.ShadowFiles.UpdateShadowPassword` | home/xlzs0/pkgs/pam-stub/libpam/pam.c:544-618 | Success if and only if the table was replaced; any failure leaves it, the lock and, unless unlink failed, the set of temporary files as they were, and has a cause; "lock busy" exactly when no attempt could succeed; and the files end as in a run of the step system in which a new caller moves alone from start to return with the same code |
| `ShadowSolo.OutcomeRun` | home/xlzs0/pkgs/pam-stub/libpam/pam.c:544-618 | Each way a call by one process can end (table, temporary files, inodes, lock and code) is the end of a run of the step system in which one new caller moves alone |
| `ShadowSolo.SoloCallReachable` | home/xlzs0/pkgs/pam-stub/libpam/pam.c:544-618 | Such a call, made in a reachable state, leads to a reachable state, so the theorems about interleaved callers hold after it |
| `ChkpwdTheorems.AgreementIff` | home/xlzs0/pkgs/pam-stub/libpam/unix_chkpwd.c:18-98 | For a permitted caller with a user name, every answer of `run_unix_chkpwd`, in every interleaving, equals the direct verdict if and only if the password is shorter than the limit or wrong both whole and truncated |
| `ChkpwdTheorems.AnswerIsVerdict` | home/xlzs0/pkgs/pam-stub/libpam/pam.c:300-364 | With no failure other than interruptions, the answer is the verdict on the truncated password, or "authentication error" for a password that fills the buffer |
| `ChkpwdTheorems.SuccessComesFromHelper` | home/xlzs0/pkgs/pam-stub/libpam/pam.c:335-364 | Under any failures, success is returned only if the helper's `main` returned it, for a permitted caller and a hash that `crypt` reproduces |
| `ChkpwdTheorems.SuccessPossibleIff` | home/xlzs0/pkgs/pam-stub/libpam/pam.c:300-364 | `run_unix_chkpwd` can return success if and only if the user name is not empty, the caller is permitted, and the helper accepts the truncated password or, where a read may fail, the empty one |
| `ChkpwdTheorems.HelperAgreesWithDirect` | home/xlzs0/pkgs/pam-stub/libpam/unix_chkpwd.c:51-98 | A permitted helper that can read the table decides as the direct branch does |
| `Verdict.HelperEarly` | home/xlzs0/pkgs/pam-stub/libpam/unix_chkpwd.c:75-85 | Without permission, or with a forbidden empty password, the helper answers "authentication error"; without a row "user unknown", or "unavailable" if the table cannot be read |
| `ChkpwdTheorems.CanAnswerVerdict` | home/xlzs0/pkgs/pam-stub/libpam/pam.c:300-364 | The verdict is a possible answer for every permitted caller |
| `ChkpwdTheorems.CanRefuseLongPassword` | home/xlzs0/pkgs/pam-stub/libpam/unix_chkpwd.c:18-39 | For a password that fills the buffer, some interleaving answers "authentication error" |
| `ChkpwdTheorems.AnswerComes` | home/xlzs0/pkgs/pam-stub/libpam/pam.c:351-364 | Until the parent has answered some step other than an interruption is possible, and each uses up a bounded number: no deadlock, no endless run |
| `ChkpwdProtocol.StepInv` | home/xlzs0/pkgs/pam-stub/libpam/pam.c:311-364 | Every step of either process keeps the invariant: what was sent is what was taken plus what is in the pipe, the buffer is what was taken, the status is the verdict on the buffer |
| `ChkpwdHelper.ReadPassword` | home/xlzs0/pkgs/pam-stub/libpam/unix_chkpwd.c:18-39 | The buffer holds the terminated prefix of the input up to the first terminator or the limit, and exactly the rest is left unread, for any interruptions |
| `ChkpwdHelper.ReadsWhatWasSent` | home/xlzs0/pkgs/pam-stub/libpam/unix_chkpwd.c:18-39 | A terminated password is read back as its first `limit` characters, and nothing is left unread if and only if it is shorter than the limit |
| `ChkpwdHelper.RunHelper` | home/xlzs0/pkgs/pam-stub/libpam/unix_chkpwd.c:51-98 | The exit status is the verdict on what was read, "system error" for wrong use; anyone but root who asks about another user is refused before anything is read; success only for root or the user itself and a hash that what was read reproduces, or the empty text after a failed read; on every path that called `crypt` the buffer ends all NUL, and those are all proper uses with a usable hash, except for a forbidden empty password, read or left by a failed read |
| `Transfer.ReadAll` | home/xlzs0/pkgs/pam-stub/libpam/pam.c:882-897 | Any short reads and interruptions give the prefix asked for, or all there is, and touch nothing after it |
| `Transfer.WriteAll` | home/xlzs0/pkgs/pam-stub/libpam/pam.c:899-914 | Any short writes and interruptions append exactly the first `ret` bytes, all of them when no call fails or writes nothing |
| `Transfer.WriteThenRead` | home/xlzs0/pkgs/pam-stub/libpam/pam.c:882-914 | Writing n bytes and reading n bytes returns n twice and gives the same bytes, however either transfer is cut up |
| `EnvSpec.PutEnvRefines` | home/xlzs0/pkgs/pam-stub/libpam/pam.c:707-750 | Every `pam_putenv` keeps entries named and names distinct, and is an update in place, an append, an order-preserving deletion or, on error, nothing, with the matching effect on every lookup |
| `EnvSpec.PutEnvErrors` | home/xlzs0/pkgs/pam-stub/libpam/pam.c:707-750 | Exactly which arguments and failures give which error, and no error changes the table |
| `EnvSpec.MatchUnique` | home/xlzs0/pkgs/pam-stub/libpam/pam.c:752-761 | In a reachable table at most one entry matches a name, even one containing `=`, so search order does not matter |
| `EnvSpec.MatchesOdd` | home/xlzs0/pkgs/pam-stub/libpam/pam.c:752-761 | An entry matching any name has as its own name the part of it before `=` |
| `EnvSpec.StoreNames` | home/xlzs0/pkgs/pam-stub/libpam/pam.c:731-749 | Setting a variable keeps the order of names and adds the name at the end only if it is new |
| `EnvSpec.RemoveProper` | home/xlzs0/pkgs/pam-stub/libpam/pam.c:715-728 | Deleting closes the gap, keeps the order of the rest, and the name is gone |
| `EnvSpec.SetThenGet` | home/xlzs0/pkgs/pam-stub/libpam/pam_misc.c:99-110 | After a successful `pam_misc_setenv` the value is read back under the same name, odd names included, and a name containing `=` overwrites the variable named by its first part |
| `EnvSpec.SetEnvAccepts` | home/xlzs0/pkgs/pam-stub/libpam/pam_misc.c:99-110 | `pam_misc_setenv` refuses an empty name and one that starts with `=`, once its own buffer could be allocated, and otherwise fails exactly if one of the two or three allocations it needs fails |
| `EnvSpec.PasteRest` | home/xlzs0/pkgs/pam-stub/libpam/pam_misc.c:81-88 | Pasting the rest of an exported table onto its beginning gives the table, or stops at the entry whose allocation failed with everything before it there |
| `EnvSpec.PasteIntoEmpty` | home/xlzs0/pkgs/pam-stub/libpam/pam_misc.c:81-88 | Exporting and pasting into an empty handle reproduces the entries in order; it succeeds if and only if all are there |
| `EnvSpec.PasteBack` | home/xlzs0/pkgs/pam-stub/libpam/pam_misc.c:81-88 | Pasting an export back into its own handle changes nothing |
| `EnvSpec.PasteStops` | home/xlzs0/pkgs/pam-stub/libpam/pam_misc.c:81-88 | A paste ends at the first text that is refused, with the code of that refusal, keeping what came before it |
| `EnvSpec.PasteConcat` | home/xlzs0/pkgs/pam-stub/libpam/pam_misc.c:81-88 | Pasting two lists in turn is pasting them as one, unless the first fails |
| `EnvTable.EnvTable.Find` | home/xlzs0/pkgs/pam-stub/libpam/pam.c:731-740 | The walk finds the first matching entry, stopping at the terminator |
| `EnvTable.EnvTable.GetEnv` | home/xlzs0/pkgs/pam-stub/libpam/pam.c:752-761 | The array lookup is the lookup of the ordered map |
| `EnvTable.EnvTable.RemoveAt` | home/xlzs0/pkgs/pam-stub/libpam/pam.c:717-725 | Freeing one entry and moving the tail, terminator included, removes exactly that entry |
| `EnvTable.EnvTable.Append` | home/xlzs0/pkgs/pam-stub/libpam/pam.c:741-749 | If only the copy fails after the array has grown, the visible table is unchanged and the new array is owned |
| `EnvTable.EnvTable.PutEnv` | home/xlzs0/pkgs/pam-stub/libpam/pam.c:707-750 | The in-place operation refines the ordered map under any allocation failures; the array stays terminated with one owner per block; no block outside it is touched |
| `EnvTable.EnvTable.PasteEnv` | home/xlzs0/pkgs/pam-stub/libpam/pam_misc.c:81-88 | The loop is the fold of `pam_putenv` up to the first failure |
| `EnvTable.EnvTable.SetEnv` | home/xlzs0/pkgs/pam-stub/libpam/pam_misc.c:99-110 | The temporary text is freed on every path and the effect is that of the specification |
| `EnvTable.EnvTable.GetEnvList` | home/xlzs0/pkgs/pam-stub/libpam/pam.c:763-783 | A fresh, separately owned copy of all texts in order, or nothing and nothing kept |
| `EnvTable.DropEnv` | home/xlzs0/pkgs/pam-stub/libpam/pam_misc.c:90-97 | Every block of an exported list is freed once |
| `ItemTable.ItemTable.SetItem` | home/xlzs0/pkgs/pam-stub/libpam/pam.c:154-166 | The copy is made first: a failure leaves the slot, otherwise only that slot changes; every block keeps one owner |
| `ItemTable.ItemTable.GetItem` | home/xlzs0/pkgs/pam-stub/libpam/pam.c:168-173 | The slot's own pointer (a live block, a raw pointer or NULL) and the stored value for an existing item number, an error otherwise; the pointer is NULL exactly when nothing is stored |
| `ItemTable.DupItem` | home/xlzs0/pkgs/pam-stub/libpam/pam.c:106-152 | A copy reads as specified and owns only new blocks; a failing copy keeps none |
| `ItemTable.FreeItem` | home/xlzs0/pkgs/pam-stub/libpam/pam.c:93-104 | Exactly the blocks of the slot are freed |
| `ItemSpec.ResetIsIdentity` | home/xlzs0/pkgs/pam-stub/libpam/pam.c:106-166 | Storing an item's current value again changes nothing |
| `ItemSpec.HoldableKept` | home/xlzs0/pkgs/pam-stub/libpam/pam.c:154-166 | Every stored item is at all times the copy of something a caller passed |
| `ItemSpec.SetItemFrame` | home/xlzs0/pkgs/pam-stub/libpam/pam.c:154-166 | Exactly one slot changes, and only on success |
| `ItemSpec.SetItemErrors` | home/xlzs0/pkgs/pam-stub/libpam/pam.c:154-166 | The only errors are a missing item number and a failed allocation |
| `ItemSpec.SetThenGet` | home/xlzs0/pkgs/pam-stub/libpam/pam.c:106-173 | A text, conversation or raw pointer is read back as given; X authority data with both lengths and that many bytes of each buffer, or none for a missing or empty one |
| `ItemTable.BlockCount` | home/xlzs0/pkgs/pam-stub/libpam/pam.c:106-152 | A copy makes one allocation for each block its slot then owns |
| `DataSpec.CleanedExactlyOnce` | home/xlzs0/pkgs/pam-stub/libpam/pam.c:785-826 | Over any run of `pam_set_data` ended by `pam_end`, each accepted registration with a callback is cleaned once, with "replaced" if a later one took its name and the final status otherwise, and nothing else is cleaned |
| `DataSpec.ReverseFirstOrder` | home/xlzs0/pkgs/pam-stub/libpam/pam.c:801-813 | The list, and so the order of the final callbacks, is the reverse of first registration |
| `DataSpec.FinalInOrder` | home/xlzs0/pkgs/pam-stub/libpam/pam.c:210-218 | Final callbacks come in list order |
| `DataSpec.LatestData` | home/xlzs0/pkgs/pam-stub/libpam/pam.c:816-826 | A lookup gives the latest accepted value for the name, and nothing if there is none |
| `DataList.DataList.SetData` | home/xlzs0/pkgs/pam-stub/libpam/pam.c:785-814 | The linked-list operation refines the specification under any allocation failures and keeps every node separately owned |
| `DataList.DataList.GetData` | home/xlzs0/pkgs/pam-stub/libpam/pam.c:816-826 | The list walk is the lookup of the specification |
| `DataList.DataList.Destroy` | home/xlzs0/pkgs/pam-stub/libpam/pam.c:210-218 | Each node's callback runs once, in list order with the final status, and each block is freed once |
| `PamHandle.Start` | home/xlzs0/pkgs/pam-stub/libpam/pam.c:179-198 | A handle whose service, user and conversation items hold what was given and nothing else, with no environment and no data, or no handle and nothing left allocated, and exactly why |
| `AuthStart.OpenedIs` | home/xlzs0/pkgs/pam-stub/libpam/pam.c:179-198 | To authentication a new handle has the user it was given, no token of either kind, nothing asked yet, and it can ask exactly if a conversation function was given |
| `AuthStart.FirstPrompt` | home/xlzs0/pkgs/pam-stub/libpam/pam.c:179-263 | On a new handle a given user is not asked for: the first prompt is for the password; without a user it is for the user |
| `AuthStart.StartThenLogin` | home/xlzs0/pkgs/pam-stub/libpam/pam.c:179-409 | A handle started for a user succeeds, for a caller who reads the table, if and only if the answer to its one prompt opens the user's row |
| `PamHandle.Handle.End` | home/xlzs0/pkgs/pam-stub/libpam/pam.c:200-221 | Each block the handle owns is freed once, and no other; the final callbacks are run |
| `PamHandle.Handle.FailDelay` | home/xlzs0/pkgs/pam-stub/libpam/pam.c:694-700 | The delay is the largest asked for |
| `PamHandle.Session` | home/xlzs0/pkgs/pam-stub/libpam/pam.c:93-221 | For any calls between `pam_start` and `pam_end` and any allocation failures, exactly the blocks live before are live after, and the codes the calls returned and the callbacks that ran are those of the specified run from the started handle, allocation by allocation |
| `PamHandle.PerformAll` | home/xlzs0/pkgs/pam-stub/libpam/pam.c:154-826 | Any item, environment, data and delay calls leave the handle in the state of the specified run and return its codes, keep its invariant and touch no foreign block |
| `HandleSpec.SessionCleansOnce` | home/xlzs0/pkgs/pam-stub/libpam/pam.c:200-826 | In any mixture of item, environment, data and delay calls ended by `pam_end`, each registration whose call returned success and that has a callback is cleaned once with the right reason, and nothing else is cleaned |
| `HandleSpec.DataOfRun` | home/xlzs0/pkgs/pam-stub/libpam/pam.c:785-814 | The data calls of a mixed run have the effect they have alone, at the allocation counts at which they were made |
| `HandleSpec.CodesOfRun` | home/xlzs0/pkgs/pam-stub/libpam/pam.c:785-814 | The codes recorded for data calls are the codes those calls returned |
| `HandleSpec.AlwaysProper` | home/xlzs0/pkgs/pam-stub/libpam/pam.c:154-826 | Over any mixed run environment names stay non-empty and distinct and every item stays a copy of something a caller passed |
| `HandleSpec.LastItem` | home/xlzs0/pkgs/pam-stub/libpam/pam.c:154-166 | Over any mixed run an item holds what the last successful call for it stored |
| `HandleSpec.LastSet` | home/xlzs0/pkgs/pam-stub/libpam/pam.c:707-761 | Over any mixed run a variable keeps the value of the last successful `pam_putenv` for it while later calls leave its name alone |
| `HandleSpec.DelayIsLargest` | home/xlzs0/pkgs/pam-stub/libpam/pam.c:694-700 | Over any mixed run the delay is the largest asked for |
| `HandleSpec.BufferError` | home/xlzs0/pkgs/pam-stub/libpam/pam.c:106-814 | Any call reports a full memory only if its last allocation failed |
| `AuthTheorems.TokenRetained` | home/xlzs0/pkgs/pam-stub/libpam/pam.c:366-409 | After a call that knew the user, a token is left only if the call succeeded against the shadow table, and then it is a token the stored hash verifies |
| `AuthTheorems.SuccessRepeats` | home/xlzs0/pkgs/pam-stub/libpam/pam.c:366-409 | After a direct success with a token, the same call succeeds again without a prompt and changes nothing |
| `AuthTheorems.FailureAsksAgain` | home/xlzs0/pkgs/pam-stub/libpam/pam.c:366-409 | After a failed or helper-checked attempt the next call asks for the password, once |
| `AuthGate.LoginExactly` | home/xlzs0/pkgs/pam-stub/libpam/pam.c:366-409 | An authentication that is told a user and a token asks for exactly what was missing, gives the code its row, or the helper, calls for, and keeps the token only after a success against the table |
| `AuthTheorems.ChangeGate` | home/xlzs0/pkgs/pam-stub/libpam/pam.c:620-673 | Nothing reaches the shadow update unless the token is non-empty, this call's last prompt was the retype and was answered with it, and the caller is root or the old token verified; the hash is that token's |
| `AuthGate.AdmittedIff` | home/xlzs0/pkgs/pam-stub/libpam/pam.c:620-673 | A change is admitted if and only if: a non-empty user is there or answered; the caller is root, with or without a row, or the row is found and the old token, there or answered, opens it; a non-empty new token is there or answered; the retype is answered with the same; there is a setting, `crypt` gives a hash, and every copy on the way can be allocated |
| `AuthGate.AdmittedExactly` | home/xlzs0/pkgs/pam-stub/libpam/pam.c:620-673 | An admitted change goes on with that user and the hash of that token, having asked for exactly what was missing and the retype |
| `AuthGate.OldTokenRefusals` | home/xlzs0/pkgs/pam-stub/libpam/pam.c:637-647 | For a caller who is not root a missing row refuses the change before any password is asked for; an old token that does not open the row refuses it with the code of the check, nothing more is asked, and that token stays |
| `AuthGate.NewTokenRefusals` | home/xlzs0/pkgs/pam-stub/libpam/pam.c:649-666 | A retype with another text refuses the change and drops the token; a confirmed empty token refuses it and stays |
| `AuthGate.HashRefused` | home/xlzs0/pkgs/pam-stub/libpam/pam.c:667-669 | Without a setting, a hash or room for its copy a confirmed token is refused, and stays |
| `AuthTheorems.ConfirmGate` | home/xlzs0/pkgs/pam-stub/libpam/pam.c:649-666 | A confirmed token is non-empty and was the answer to the last prompt of this call, the retype |
| `AuthTheorems.OldTokenGate` | home/xlzs0/pkgs/pam-stub/libpam/pam.c:637-647 | A non-root caller passes only with an old token that verifies |
| `AuthTheorems.WrongOldTokenSticks` | home/xlzs0/pkgs/pam-stub/libpam/pam.c:637-647 | A wrong old token on the handle denies every later change by a caller who is not root, with the same code and without a prompt |
| `AuthTheorems.OldTokenAskedIff` | home/xlzs0/pkgs/pam-stub/libpam/pam.c:637-647 | With a conversation and a row found, the old password is asked for if and only if the handle holds none; if it holds one, the check changes nothing and passes if and only if that one verifies |
| `AuthTheorems.OldTokenStays` | home/xlzs0/pkgs/pam-stub/libpam/pam.c:366-673 | Neither an authentication nor a change takes an old token off the handle, and an authentication never puts one there |
| `AuthTheorems.EmptyNewTokenSticks` | home/xlzs0/pkgs/pam-stub/libpam/pam.c:649-666 | An empty new token is never replaced by a new prompt and denies the change; only a differing retype clears it |
| `AuthTheorems.EmptyTokenClearedIff` | home/xlzs0/pkgs/pam-stub/libpam/pam.c:649-666 | An empty token is cleared by a change if and only if the retype is answered with a non-empty text |
| `AuthTheorems.NewTokenAskedIff` | home/xlzs0/pkgs/pam-stub/libpam/pam.c:649-657 | With a conversation, a new password is asked for if and only if the handle holds no token; otherwise the retype is the only prompt |
| `AuthTheorems.ChangeAfterAuthenticateKeepsPassword` | home/xlzs0/pkgs/pam-stub/libpam/pam.c:620-673 | For root and for any other caller: an admitted change after a direct success asks for the current password exactly if the caller is not root and the handle holds no old token, then for the retype and nothing else, and uses the verified token |
| `AuthTheorems.ChangeThenAuthenticate` | home/xlzs0/pkgs/pam-stub/libpam/pam.c:620-673 | After an admitted change is written, to whatever table the others have left by then, the new password authenticates, on the same handle without a prompt and on any other for that user that has it or is given it |
| `AuthTheorems.OthersUnaffected` | home/xlzs0/pkgs/pam-stub/libpam/pam.c:574-596 | No other user's authentication changes |
| `AuthRuns.EveryChangeEntitled` | home/xlzs0/pkgs/pam-stub/libpam/pam.c:620-673 | Over any run of authentications and password changes, the table is the replay of the recorded changes, and each was made by a call of the run that retyped a non-empty token, hashed it, and was root or held an old token verifying against the table of that moment |
| `AuthRuns.NoPasswordNoEntry` | home/xlzs0/pkgs/pam-stub/libpam/pam.c:366-673 | If neither the handle nor any reply ever holds a text that verifies, whole or as the helper would cut it, then in a run of any length by a caller who is not root, one who reads the table or one who goes through the helper, in every interleaving with it, no authentication succeeds and the table never changes |
| `AuthRuns.PasswordSuffices` | home/xlzs0/pkgs/pam-stub/libpam/pam.c:366-409 | After any run that left no token, one reply that verifies makes the next authentication succeed: directly, leaving that token, or through a reliable helper that permits it and whose buffer it fits, leaving none |
| `AuthRuns.HelperLeavesNoToken` | home/xlzs0/pkgs/pam-stub/libpam/pam.c:385-408 | Once the user is known, an authentication through the helper, successful or not, leaves no token |
| `AuthRuns.OldTokenStaysForever` | home/xlzs0/pkgs/pam-stub/libpam/pam.c:366-673 | A handle that holds an old token holds the same one after any run of calls |
| `AuthRuns.SuccessSettles` | home/xlzs0/pkgs/pam-stub/libpam/pam.c:366-409 | After a success with a token, any number of further authentications succeed, ask nothing and change nothing |
| `AuthRuns.NewPasswordHolds` | home/xlzs0/pkgs/pam-stub/libpam/pam.c:574-673 | A new password, written to whatever table is there by then, lets its user in after any number of changes for other users |
| `AuthPaths.DirectPath` | home/xlzs0/pkgs/pam-stub/libpam/pam.c:366-409 | A caller who can read the table gets the direct verdict on the token the handle holds or obtains |
| `AuthPaths.PathsAgreeIff` | home/xlzs0/pkgs/pam-stub/libpam/pam.c:366-409 | A permitted caller who cannot read the table gets from `pam_authenticate`, in every interleaving with the helper, the code of a caller who can, if and only if the token is shorter than the limit or refused both whole and truncated |
| `AuthPaths.CommittedHashDecides` | home/xlzs0/pkgs/pam-stub/libpam/pam.c:366-618 | In every state that interleaved, failing and dying changes can reach, authentication succeeds if and only if the token verifies against the hash of the user's last committed change and is not a forbidden empty one |
| `AuthPaths.CommittedChangeAuthenticates` | home/xlzs0/pkgs/pam-stub/libpam/pam.c:366-673 | When an admitted change is committed, among any others, and no later commit is for that user, its token lets any handle for that user in |
| `Verdict.VerifyHashIff` | home/xlzs0/pkgs/pam-stub/libpam/pam.c:411-420 | Success is a usable hash that `crypt` reproduces from the password, "unavailable" a usable hash for which `crypt` fails, and there is no other code but the authentication error |
| `Auth.Ask` | home/xlzs0/pkgs/pam-stub/libpam/pam.c:223-241 | One prompt, with every way the conversation can refuse |
| `AuthGate.AskCode` | home/xlzs0/pkgs/pam-stub/libpam/pam.c:223-241 | One prompt is made exactly if there is a conversation function; success is an answer, handed on; a refusal's own code is passed through; a missing response or a refusal that claims success is a conversation error |
| `Auth.GetUser` | home/xlzs0/pkgs/pam-stub/libpam/pam.c:243-263 | The user item, asked for only if missing, with allocation failures |
| `Auth.GetAuthtok` | home/xlzs0/pkgs/pam-stub/libpam/pam.c:265-286 | The current or old token item with any prompt or the default, asked for only if missing; what is handed out is the item's own pointer and text; any other item number is a system error |
| `Auth.Authenticate` | home/xlzs0/pkgs/pam-stub/libpam/pam.c:366-409 | The code on a real item table has the specified result, prompts and items, and conserves all blocks |
| `Auth.HashPassword` | home/xlzs0/pkgs/pam-stub/libpam/pam.c:488-533 | The result of `crypt` is copied into one new block, or there is none |
| `Auth.ConfirmToken` | home/xlzs0/pkgs/pam-stub/libpam/pam.c:649-666 | The new token and its retype; the pointer obtained is always the item's own pointer, a NULL token included, so the guarded retype prompt is always made |
| `Auth.Confirm` | home/xlzs0/pkgs/pam-stub/libpam/pam.c:652-666 | The retype is asked for exactly if the given pointer is the item; without it a non-empty token would pass unconfirmed |
| `Auth.ChangeToken` | home/xlzs0/pkgs/pam-stub/libpam/pam.c:620-673 | The gate of the specification decides, on what `getspnam` answered; a denied change leaves table, lock and temporary files alone; an admitted one is in the table, whatever it is by then, exactly when success is reported, and leaves a temporary file only if unlink failed; the hash copy is freed |
| `KeyFile.PiecesParse` | home/xlzs0/pkgs/pam-stub/libpam/pam.c:1003-1035 | Every line made of indentation, key, separators, value, blanks and a comment or line end parses to its key and value |
| `KeyFile.ParsedPieces` | home/xlzs0/pkgs/pam-stub/libpam/pam.c:1003-1035 | Every line that parses is made of such pieces |
| `KeyFile.ValueIsClean` | home/xlzs0/pkgs/pam-stub/libpam/pam.c:1003-1035 | A value found has no `#`, CR or LF, does not start with a separator and does not end with a blank |
| `KeyFile.PrintThenSearch` | home/xlzs0/pkgs/pam-stub/libpam/pam.c:999-1037 | A printed key, separators and clean value are found again, whatever the case of the key and the lines around |
| `KeyFile.FirstMatchDecides` | home/xlzs0/pkgs/pam-stub/libpam/pam.c:999-1037 | The first line with the key, compared without case, gives the value |
| `KeyFile.NoMatchIff` | home/xlzs0/pkgs/pam-stub/libpam/pam.c:999-1037 | There is no value if and only if no line has the key |
| `KeyFile.SameKeyIff` | home/xlzs0/pkgs/pam-stub/libpam/pam.c:1025 | Two keys are the same if and only if they agree up to the case of the 26 letters |
| `KeyParser.ParseBuffer` | home/xlzs0/pkgs/pam-stub/libpam/pam.c:1000-1036 | The edits inside the line buffer compute the line grammar |
| `KeyParser.SearchKey` | home/xlzs0/pkgs/pam-stub/libpam/pam.c:991-1041 | The loop over lines is the search; missing arguments and a failed copy give no value |
| `KeyParser.Cut` | home/xlzs0/pkgs/pam-stub/libpam/pam.c:1008-1024 | Writing a terminator at the first stopping character leaves the text before it, and the text after it behind |
| `KeyParser.Trim` | home/xlzs0/pkgs/pam-stub/libpam/pam.c:1031-1034 | Writing a terminator after the last non-blank trims the text |
| `SaltSpec.RoundsBounded` | home/xlzs0/pkgs/pam-stub/libpam/pam.c:463-486 | Whatever is configured, the cost lies in the method's range |
| `SaltSpec.CostNearest` | home/xlzs0/pkgs/pam-stub/libpam/pam.c:463-486 | The yescrypt and bcrypt cost is the allowed number nearest to the configured one, 5 if there is none |
| `SaltSpec.ShaRoundsIff` | home/xlzs0/pkgs/pam-stub/libpam/pam.c:472-477 | The SHA round count is the default if and only if the configured number is below 1000 or at least `INT_MAX`, the configured number if and only if that is 1000 to 9999999, and the maximum from there on |
| `SaltSpec.TooManyShaRounds` | home/xlzs0/pkgs/pam-stub/libpam/pam.c:472-477 | An instance: with `INT_MAX` - 1 configured the count is the maximum, with `INT_MAX` it is the default |
| `SaltSpec.SettingFits` | home/xlzs0/pkgs/pam-stub/libpam/pam.c:504-529 | Every setting has at most 35 characters, so the overflow return cannot happen |
| `SaltSpec.SettingFields` | home/xlzs0/pkgs/pam-stub/libpam/pam.c:504-527 | A setting split at its dollar signs gives back the method, the printed cost and the salt |
| `SaltSpec.SettingEqualIff` | home/xlzs0/pkgs/pam-stub/libpam/pam.c:504-527 | Two settings are equal if and only if method, salt bits and, where it is printed, cost are equal |
| `SaltSpec.ShaUnambiguous` | home/xlzs0/pkgs/pam-stub/libpam/pam.c:505-513 | An SHA setting determines rounds and salt |
| `SaltSpec.BcryptUnambiguous` | home/xlzs0/pkgs/pam-stub/libpam/pam.c:514-520 | A bcrypt setting determines cost and salt |
| `SaltSpec.PrefixDetermined` | home/xlzs0/pkgs/pam-stub/libpam/pam.c:504-527 | A setting determines the method |
| `SaltSpec.PrefixKnown` | home/xlzs0/pkgs/pam-stub/libpam/pam.c:441-461 | Every run of calls with any configurations leaves a known method |
| `SaltSpec.NextPrefixIs` | home/xlzs0/pkgs/pam-stub/libpam/pam.c:441-461 | Each of the five method names, in any case, selects its own prefix; any other or none keeps the last, and yescrypt comes first |
| `SaltSpec.LastMethodHolds` | home/xlzs0/pkgs/pam-stub/libpam/pam.c:441-461 | Over any run of calls the last method found is in force, however many calls found none since |
| `SaltSpec.SaltDetermines` | home/xlzs0/pkgs/pam-stub/libpam/pam.c:505-509 | The salt characters carry exactly the low six bits of the 16 random bytes |
| `SaltSpec.SaltAlphabet` | home/xlzs0/pkgs/pam-stub/libpam/pam.c:494-508 | Each salt character is the entry of the 64-character alphabet for the low six bits |
| `SaltSpec.NumberOfDecimal` | home/xlzs0/pkgs/pam-stub/libpam/pam.c:510-511 | The printed round count reads back |
| `SaltSpec.ParseLongReads` | home/xlzs0/pkgs/pam-stub/libpam/pam.c:426-439 | White space, an optional sign and digits are read as that number if it fits a long |
| `SaltSpec.ParseLongShape` | home/xlzs0/pkgs/pam-stub/libpam/pam.c:426-439 | Nothing else is read as a number |
| `HashSetting.HashSettings.ChoosePrefix` | home/xlzs0/pkgs/pam-stub/libpam/pam.c:441-461 | The static buffer ends as the specified next method |
| `HashSetting.HashSettings.NewSetting` | home/xlzs0/pkgs/pam-stub/libpam/pam.c:488-529 | With 16 random bytes there is always a setting, and it is the specified one |
| `HashSetting.FillSalt` | home/xlzs0/pkgs/pam-stub/libpam/pam.c:506-509 | The salt loop |
| `MiscConv.Converse` | home/xlzs0/pkgs/pam-stub/libpam/pam_misc.c:44-79 | The exact cause of each result; prompts before the first bad message take one line each; failure keeps no block and leaves the response alone; success hands over one array whose answers are each NULL or the prompt's own line, and all present if no allocation fails |
| `MiscConv.Fill` | home/xlzs0/pkgs/pam-stub/libpam/pam_misc.c:53-79 | The loop and its cleanup |
| `MiscConv.PromptsInOrder` | home/xlzs0/pkgs/pam-stub/libpam/pam_misc.c:53-72 | Different prompts take different lines, in message order |
| `MiscConv.EveryLineHasAPrompt` | home/xlzs0/pkgs/pam-stub/libpam/pam_misc.c:53-72 | The k-th line goes to exactly one prompt |
| `MiscConv.Input.ReadResponse` | home/xlzs0/pkgs/pam-stub/libpam/pam_misc.c:17-42 | The answer has no newline or NUL and is the line or what stands before its first newline or NUL, or NULL at the end of input with the buffer freed |
| `MiscConv.CutNewline` | home/xlzs0/pkgs/pam-stub/libpam/pam_misc.c:39-40 | The edit in the line buffer leaves the text before the newline |
| `MiscConv.MixedMessages` | home/xlzs0/pkgs/pam-stub/libpam/pam_misc.c:52-72 | An instance: prompts among notices take the lines in order, notices take none |
| `DBusSpec.LiveWhileReferenced` | home/xlzs0/pkgs/dbus-stub/dbus.c:588-685 | Over any run that does not use a freed message, a message is live exactly while one plus its refs exceeds its unrefs, and its count is that difference |
| `DBusSpec.CopyAgrees` | home/xlzs0/pkgs/dbus-stub/dbus.c:656-674 | A copy equals its original in all but the count; only strings whose allocation failed are missing; the original is unchanged |
| `DBusSpec.OthersUntouched` | home/xlzs0/pkgs/dbus-stub/dbus.c:656-695 | Calls on other messages, copies included, never change a message |
| `DBusSpec.SetTextKeepsIff` | home/xlzs0/pkgs/dbus-stub/dbus.c:691-695 | The text is set if and only if it is NULL or its copy succeeds; otherwise the field is NULL; other fields stay |
| `DBusSpec.SetTextLoses` | home/xlzs0/pkgs/dbus-stub/dbus.c:691-695 | An instance in which a setter loses the old text |
| `DBusSpec.NumberSet` | home/xlzs0/pkgs/dbus-stub/dbus.c:761-818 | Setting one of the four numbers changes that one and nothing else |
| `DBusSpec.SignatureNeverSet` | home/xlzs0/pkgs/dbus-stub/dbus.c:588-818 | In every run every live message has no signature |
| `DBusMessage.MsgAlloc` | home/xlzs0/pkgs/dbus-stub/dbus.c:588-595 | A zeroed message with count one, or NULL and nothing allocated |
| `DBusMessage.Message.Free` | home/xlzs0/pkgs/dbus-stub/dbus.c:597-606 | The message and each of its strings are freed once |
| `DBusMessage.NewMethodCall` | home/xlzs0/pkgs/dbus-stub/dbus.c:612-621 | NULL exactly if the first allocation fails, otherwise a message owning only new blocks whose contents are those of `DBusSpec.MethodCallFields` |
| `DBusMessage.NewMethodReturn` | home/xlzs0/pkgs/dbus-stub/dbus.c:623-628 | The reply serial is the call's serial |
| `DBusSpec.ReplyRefers` | home/xlzs0/pkgs/dbus-stub/dbus.c:623-628 | A reply is an otherwise empty method return that refers to the serial of the message it answers, or to none for NULL |
| `DBusSpec.MethodCallFields` | home/xlzs0/pkgs/dbus-stub/dbus.c:612-621 | Each of the four texts ends in its own field, or that field is NULL if its own copy failed; count one; every other field is empty |
| `DBusSpec.SignalFields` | home/xlzs0/pkgs/dbus-stub/dbus.c:630-638 | Each of the three texts ends in its own field, or that field is NULL if its own copy failed; count one; every other field is empty |
| `DBusSpec.ErrorFields` | home/xlzs0/pkgs/dbus-stub/dbus.c:640-649 | The name ends in the error-name field, or that is NULL if its copy failed; count one, the given reply serial; every other field, the message text included, is empty |
| `DBusMessage.NewSignal` | home/xlzs0/pkgs/dbus-stub/dbus.c:630-638 | NULL exactly if the first allocation fails, otherwise a message owning only new blocks whose contents are those of `DBusSpec.SignalFields` |
| `DBusMessage.NewError` | home/xlzs0/pkgs/dbus-stub/dbus.c:640-649 | NULL exactly if the first allocation fails, otherwise a message owning only new blocks whose contents are those of `DBusSpec.ErrorFields`, with the reply serial of the message answered or zero |
| `DBusMessage.Copy` | home/xlzs0/pkgs/dbus-stub/dbus.c:656-674 | A copy shares no block with its original or anything else |
| `DBusMessage.Message.Unref` | home/xlzs0/pkgs/dbus-stub/dbus.c:682-685 | The last reference, and only it, frees everything the message owns |
| `DBusMessage.Message.SetText` | home/xlzs0/pkgs/dbus-stub/dbus.c:691-695 | The old text is freed, the new one copied, and 1 returned whatever happens |
| `DBusRuns.ChangeOne` | home/xlzs0/pkgs/dbus-stub/dbus.c:676-818 | Each call on a real message does what the specification says and touches only that message's blocks |
| `DBusRuns.PerformAll` | home/xlzs0/pkgs/dbus-stub/dbus.c:584-818 | Over any run that does not use a freed message, every pointer ends as specified, each string has one owner, exactly what live messages own is allocated, and nothing once all references are given back |

## Left out

- NULL handles: each library call answers them with one error branch before doing anything.
- Real system calls, NSS, signals, syslog and terminal modes: their results are parameters, oracles or steps.
- `crypt` and what settings it accepts: an arbitrary function.
- The text format of the shadow file: rows are records and the copy loop sees every row.
- What happens to the output stream when flush or fsync fails: only the table, the temporary file and the lock are modelled there.
- Short writes of the password to the pipe: a write of at most `PIPE_BUF` bytes is complete or fails, as section `write()` of POSIX.1-2017 has it.
- Callbacks and conversation functions that call back into the library: callbacks are log entries, conversations are replies.
- The memory of conversation responses between `misc_conv` and `ask`: replies are values, and a refusing conversation hands over none.
- Wrap-around of counts and lengths: integers are unbounded except in the salt settings and `strtol`.
- mkstemp: a failed call is assumed to leave no file; in the step system the unlink that follows may name any unused file.
- Durability of the rename itself: the directory is not synced, so a power failure may undo it; what is proved is that the table is then an earlier complete one.
- Auth.ChangeToken: the update inside it is one uninterrupted call; interleaving with other callers is the subject of `ShadowTheorems` and `AuthPaths`.
- Auth.Authenticate: stated on the item table of a handle, with the helper process as a function of user and password.
- PamHandle.Start: `pam_start` ignores its configuration directory, so the model has none.
- DBusMessage.Message.SetText: an argument that aliases the message's own field is excluded by passing texts as values.
- DBusRuns.ChangeOne: the value 0 that setters return for a NULL message is not recorded.
- Getters, `has_*` and `is_*` tests, error and connection stubs of `dbus.c`, all of `pamc.c`, sessions, `pam_setcred`, `pam_acct_mgmt`, `pam_strerror`, `pam_vprompt` and the group and passwd wrappers: constants or one branch each.
- Other packages, patches, scripts and configuration of the repository: finite tables or fragments of code not shown.
