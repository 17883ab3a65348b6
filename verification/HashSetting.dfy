/** Choosing and printing the setting for a new password. */
module HashSetting {
  import opened PamTypes
  import opened KeyFile
  import opened SaltSpec

  class HashSettings {
    var prefix: string   // the static buffer of `password_hash_prefix`

    ghost predicate Valid()
      reads this
    {
      prefix == "" || KnownPrefix(prefix)
    }

    constructor ()
      ensures Valid() && prefix == ""
    {
      prefix := "";
    }

    /** `password_hash_prefix`. */
    method ChoosePrefix(config: Config)
      requires Valid()
      modifies this
      ensures Valid() && KnownPrefix(prefix) && prefix == NextPrefix(old(prefix), config("ENCRYPT_METHOD"))
    {
      var name := config("ENCRYPT_METHOD");
      if name.Some? {
        if SameKey(name.value, "YESCRYPT") {
          prefix := YESCRYPT;
        } else if SameKey(name.value, "SHA512") {
          prefix := SHA512;
        } else if SameKey(name.value, "SHA256") {
          prefix := SHA256;
        } else if SameKey(name.value, "MD5") {
          prefix := MD5;
        } else if SameKey(name.value, "BCRYPT") {
          prefix := BCRYPT;
        }
      }
      if prefix == "" { prefix := YESCRYPT; }
    }

    /** The setting `hash_password` passes to crypt; none without 16 random bytes. The
        check for a full buffer never fails. */
    method NewSetting(config: Config, random: seq<Byte>) returns (setting: Option<string>)
      requires Valid()
      modifies this
      ensures Valid() && KnownPrefix(prefix) && prefix == NextPrefix(old(prefix), config("ENCRYPT_METHOD"))
      ensures setting.Some? <==> |random| == RANDOM_BYTES
      ensures setting.Some? ==> setting.value == Setting(prefix, Rounds(prefix, config), random)
    {
      ChoosePrefix(config);
      var rounds := Rounds(prefix, config);
      if |random| != RANDOM_BYTES { return None; }
      RoundsBounded(prefix, config);
      SettingFits(prefix, rounds, random);
      var printed;
      if prefix == SHA512 || prefix == SHA256 {
        var salt := FillSalt(random, 16);
        printed := if rounds != 0 then prefix + "rounds=" + Decimal(rounds) + "$" + salt + "$" else prefix + salt + "$";
      } else if prefix == BCRYPT {
        var salt := FillSalt(random, 22);
        var cost := if rounds != 0 then rounds else 12;
        printed := BCRYPT + TwoDigits(cost) + "$" + salt;
      } else {
        var salt := FillSalt(random, 16);
        printed := prefix + salt + "$";
      }
      if printed == "" || |printed| >= BUFFER_SIZE { return None; }
      return Some(printed);
    }
  }

  /** The salt buffer, one character per turn. */
  method FillSalt(random: seq<Byte>, n: nat) returns (salt: string)
    requires |random| == RANDOM_BYTES
    ensures salt == Salt(random, n)
  {
    var buffer := new char[n];
    for i := 0 to n
      invariant forall j :: 0 <= j < i ==> buffer[j] == SaltChar(random[j % RANDOM_BYTES])
    {
      buffer[i] := SaltChar(random[i % RANDOM_BYTES]);
    }
    salt := buffer[..];
  }
}
