/** The terminal conversation: one line of input per prompt, all answers or none. */
module MiscConv {
  import opened PamTypes
  import opened CMemory
  import opened OwnedSlots

  const PAM_PROMPT_ECHO_OFF := 1
  const PAM_PROMPT_ECHO_ON := 2
  const PAM_ERROR_MSG := 3
  const PAM_TEXT_INFO := 4

  /** A message, or a NULL pointer in the message array. */
  type Message = Option<int>

  predicate Prompts(m: Message) {
    m == Some(PAM_PROMPT_ECHO_OFF) || m == Some(PAM_PROMPT_ECHO_ON)
  }

  predicate Understood(m: Message) {
    Prompts(m) || m == Some(PAM_ERROR_MSG) || m == Some(PAM_TEXT_INFO)
  }

  /** Styles 1 and 2 ask for a line, 3 and 4 do not, and nothing else is a message. */
  lemma Styles(style: int)
    ensures Prompts(Some(style)) <==> style == 1 || style == 2
    ensures Understood(Some(style)) <==> 1 <= style <= 4
    ensures !Understood(None)
  {
  }

  /** How many prompts there are. */
  function PromptCount(messages: seq<Message>): (n: nat)
    ensures n <= |messages|
  {
    if messages == [] then 0
    else PromptCount(messages[..|messages| - 1]) + (if Prompts(messages[|messages| - 1]) then 1 else 0)
  }

  const NUL: char := '\0'

  predicate EndsText(c: char) { c == '\n' || c == NUL }

  /** The text is the line up to its newline, if it has one; a NUL ends it as well. */
  ghost predicate ReadsAs(line: string, text: string) {
    && '\n' !in text && NUL !in text
    && (text == line || exists c, rest :: line == text + [c] + rest && (c == '\n' || c == NUL))
  }

  /** What a line reads as once its newline is cut off. */
  function Chomp(line: string): string {
    if line == "" || EndsText(line[0]) then "" else [line[0]] + Chomp(line[1..])
  }

  lemma {:induction false} ChompReads(line: string)
    ensures ReadsAs(line, Chomp(line))
  {
    if line != "" {
      if EndsText(line[0]) {
        assert line == "" + [line[0]] + line[1..];
      } else {
        var text := Chomp(line[1..]);
        ChompReads(line[1..]);
        assert forall c, rest :: line[1..] == text + [c] + rest ==> line == [line[0]] + text + [c] + rest;
      }
    }
  }

  /** That determines the text. */
  lemma {:induction false} ChompIs(line: string, n: nat)
    requires n <= |line| && forall i :: 0 <= i < n ==> !EndsText(line[i])
    requires n == |line| || EndsText(line[n])
    ensures Chomp(line) == line[..n]
  {
    if n > 0 {
      ChompIs(line[1..], n - 1);
      assert line[..n] == [line[0]] + line[1..][..n - 1];
    }
  }

  /** `line[strcspn(line, "\n")] = '\0'` in the buffer getline filled. */
  method CutNewline(line: string) returns (text: string)
    ensures text == Chomp(line) && ReadsAs(line, text)
  {
    var buffer := new char[|line| + 1](i requires 0 <= i <= |line| => if i < |line| then line[i] else NUL);
    var k := 0;
    while !EndsText(buffer[k])
      invariant 0 <= k <= |line|
      invariant forall i :: 0 <= i < k ==> !EndsText(line[i])
      decreases |line| - k
    {
      k := k + 1;
    }
    buffer[k] := NUL;
    ChompIs(line, k);
    ChompReads(line);
    return buffer[..k];
  }

  /** The answer to the k-th prompt: the k-th line, or NULL once input is exhausted. */
  function KthAnswer(lines: seq<string>, k: nat): Option<string> {
    if k < |lines| then Some(Chomp(lines[k])) else None
  }

  /** Message i's answer: prompts take lines in order, other messages get NULL. */
  function AnswerTo(messages: seq<Message>, lines: seq<string>, i: nat): Option<string>
    requires i < |messages|
  {
    if Prompts(messages[i]) then KthAnswer(lines, PromptCount(messages[..i])) else None
  }

  /** Prompt answers are aligned: the k-th prompt, wherever it stands, has k prompts
      before it, and different prompts take different lines in message order. */
  lemma {:induction false} PromptsInOrder(messages: seq<Message>, i: nat, j: nat)
    requires i < j <= |messages|
    ensures PromptCount(messages[..i]) + (if Prompts(messages[i]) then 1 else 0) <= PromptCount(messages[..j])
    decreases j
  {
    assert messages[..j][..j - 1] == messages[..j - 1];
    if i < j - 1 { PromptsInOrder(messages, i, j - 1); }
  }

  /** Where the k-th line goes: some prompt, exactly one. */
  lemma {:induction false} EveryLineHasAPrompt(messages: seq<Message>, k: nat) returns (i: nat)
    requires k < PromptCount(messages)
    ensures i < |messages| && Prompts(messages[i]) && PromptCount(messages[..i]) == k
    ensures forall j :: 0 <= j < |messages| && Prompts(messages[j]) && PromptCount(messages[..j]) == k ==> j == i
  {
    var last := |messages| - 1;
    if k == PromptCount(messages[..last]) {
      i := last;
    } else {
      i := EveryLineHasAPrompt(messages[..last], k);
      assert messages[..last][..i] == messages[..i];
    }
    forall j | 0 <= j < |messages| && Prompts(messages[j]) && PromptCount(messages[..j]) == k ensures j == i {
      if i < j { PromptsInOrder(messages, i, j); } else if j < i { PromptsInOrder(messages, j, i); }
    }
  }

  /** How many messages are handled before the first one that is not understood. */
  function Handled(messages: seq<Message>): (n: nat)
    ensures n <= |messages| && (n < |messages| ==> !Understood(messages[n]))
    ensures forall i :: 0 <= i < n ==> Understood(messages[i])
  {
    if messages == [] || !Understood(messages[0]) then 0 else 1 + Handled(messages[1..])
  }

  /** How many prompts come before the first message that is not understood. */
  function PromptsBeforeBad(messages: seq<Message>): nat {
    PromptCount(messages[..Handled(messages)])
  }

  lemma {:induction false} HandledIs(messages: seq<Message>, n: nat)
    requires n <= |messages| && (n < |messages| ==> !Understood(messages[n]))
    requires forall i :: 0 <= i < n ==> Understood(messages[i])
    ensures Handled(messages) == n
  {
    if n > 0 { HandledIs(messages[1..], n - 1); }
  }

  /** Input is spent one line per prompt while there is any. */
  function Spent(available: nat, prompts: nat): nat {
    if prompts < available then prompts else available
  }

  /** Notices are answered with NULL and take no line, wherever they stand. */
  lemma {:induction false} MixedMessages(first: string, second: string)
    ensures var messages := [Some(4), Some(2), Some(3), Some(1)];
      var lines := [first, second];
      && Handled(messages) == 4 && PromptsBeforeBad(messages) == 2
      && AnswerTo(messages, lines, 0) == None && AnswerTo(messages, lines, 2) == None
      && AnswerTo(messages, lines, 1) == Some(Chomp(first)) && AnswerTo(messages, lines, 3) == Some(Chomp(second))
  {
    var messages := [Some(4), Some(2), Some(3), Some(1)];
    HandledIs(messages, 4);
    assert messages[..4] == messages && messages[..0] == [];
    PromptStep(messages, 0);
    PromptStep(messages, 1);
    PromptStep(messages, 2);
    PromptStep(messages, 3);
  }

  lemma PromptStep(messages: seq<Message>, i: nat)
    requires i < |messages|
    ensures PromptCount(messages[..i + 1]) == PromptCount(messages[..i]) + (if Prompts(messages[i]) then 1 else 0)
  {
    assert messages[..i + 1][..i] == messages[..i];
  }

  /** Standard input as lines. */
  class Input {
    const lines: seq<string>
    var used: nat

    ghost predicate Valid()
      reads this
    {
      used <= |lines|
    }

    /** `read_response`: getline allocates the answer even at the end of input, where it
        is freed again. */
    method ReadResponse(heap: CHeap) returns (answer: Option<CStr>)
      requires Valid() && heap.Valid()
      modifies this, heap
      ensures Valid() && heap.Valid()
      ensures used == if old(used) < |lines| then old(used) + 1 else old(used)
      ensures heap.live == old(heap.live) + (if answer.Some? then {answer.value.block} else {})
      ensures answer.Some? ==> answer.value.block !in old(heap.live)
      ensures heap.clock == old(heap.clock) + 1
      ensures answer == None || Text(answer) == KthAnswer(lines, old(used))
      ensures !heap.fails(old(heap.clock)) ==> Text(answer) == KthAnswer(lines, old(used))
      ensures answer.Some? ==> old(used) < |lines| && ReadsAs(lines[old(used)], answer.value.text)
    {
      var line := if used < |lines| then Some(lines[used]) else None;
      if line.Some? { used := used + 1; }
      var block := heap.Alloc();
      if block == None { return None; }
      if line == None {
        heap.Free(block.value);
        return None;
      }
      var text := CutNewline(line.value);
      return Some(CStr(block.value, text));
    }
  }

  /** The caller's `struct pam_response *` variable. */
  class Response {
    var answers: array?<Option<CStr>>
    var arrayBlock: Block
  }

  /** One message of the loop: a prompt reads a line into slot i, a notice reads nothing. */
  method Handle(heap: CHeap, input: Input, m: Message, resp: array<Option<CStr>>, i: nat) returns (ok: bool)
    requires input.Valid() && heap.Valid() && i < resp.Length && resp[i] == None
    requires OneOwner(resp[..]) && Held(resp[..]) <= heap.live
    modifies heap, input, resp
    ensures input.Valid() && heap.Valid() && ok == Understood(m)
    ensures OneOwner(resp[..]) && Held(resp[..]) <= heap.live
    ensures heap.live - Held(resp[..]) == old(heap.live - Held(resp[..])) && heap.clock >= old(heap.clock)
    ensures forall k :: 0 <= k < resp.Length && k != i ==> resp[k] == old(resp[k])
    ensures input.used == if Prompts(m) && old(input.used) < |input.lines| then old(input.used) + 1 else old(input.used)
    ensures !Prompts(m) ==> resp[i] == None && heap.clock == old(heap.clock)
    ensures Prompts(m) ==> heap.clock == old(heap.clock) + 1
    ensures Prompts(m) && !heap.fails(old(heap.clock)) ==> Text(resp[i]) == KthAnswer(input.lines, old(input.used))
    ensures Prompts(m) && resp[i].Some? ==> Text(resp[i]) == KthAnswer(input.lines, old(input.used))
  {
    if m == None { return false; }
    if m.value == PAM_PROMPT_ECHO_OFF || m.value == PAM_PROMPT_ECHO_ON {
      ghost var before := resp[..];
      var answer := input.ReadResponse(heap);
      if answer.Some? { HeldFill(before, i, answer.value); }
      resp[i] := answer;
      assert resp[..] == before[i := answer];
      if answer.Some? {
        assert heap.live - Held(resp[..]) == old(heap.live) - Held(before);
      } else {
        assert resp[..] == before;
      }
      return true;
    }
    return m.value == PAM_ERROR_MSG || m.value == PAM_TEXT_INFO;
  }

  /** Every answer is NULL or the line of its own prompt. */
  ghost predicate Aligned(resp: array<Option<CStr>>, messages: seq<Message>, lines: seq<string>, n: nat)
    requires n <= resp.Length && n <= |messages|
    reads resp
  {
    forall i :: 0 <= i < n ==> resp[i] == None || Text(resp[i]) == AnswerTo(messages, lines, i)
  }

  ghost predicate Complete(resp: array<Option<CStr>>, messages: seq<Message>, lines: seq<string>, n: nat)
    requires n <= resp.Length && n <= |messages|
    reads resp
  {
    forall i :: 0 <= i < n ==> Text(resp[i]) == AnswerTo(messages, lines, i)
  }

  ghost predicate Lucky(fails: nat -> bool, from: nat, to: nat) {
    forall c :: from <= c < to ==> !fails(c)
  }

  /** The loop of `misc_conv` and its failure path. */
  method Fill(heap: CHeap, input: Input, messages: seq<Message>, resp: array<Option<CStr>>) returns (ret: int)
    requires input.Valid() && heap.Valid() && resp.Length == |messages|
    requires forall i :: 0 <= i < resp.Length ==> resp[i] == None
    modifies heap, input, resp
    ensures input.Valid() && heap.Valid() && heap.clock >= old(heap.clock)
    ensures ret == if Handled(messages) == |messages| then PAM_SUCCESS else PAM_CONV_ERR
    ensures input.used == old(input.used) + Spent(|input.lines| - old(input.used), PromptsBeforeBad(messages))
    ensures ret != PAM_SUCCESS ==> heap.live == old(heap.live)
    ensures ret == PAM_SUCCESS ==>
      && OneOwner(resp[..]) && heap.live == old(heap.live) + Held(resp[..]) && old(heap.live) !! Held(resp[..])
      && Aligned(resp, messages, input.lines[old(input.used)..], |messages|)
    ensures ret == PAM_SUCCESS && Lucky(heap.fails, old(heap.clock), heap.clock) ==>
      Complete(resp, messages, input.lines[old(input.used)..], |messages|)
  {
    ghost var lines := input.lines[input.used..];
    var i := 0;
    while i < |messages|
      invariant 0 <= i <= |messages| && input.Valid() && heap.Valid() && heap.clock >= old(heap.clock)
      invariant forall k :: 0 <= k < i ==> Understood(messages[k])
      invariant forall k :: i <= k < |messages| ==> resp[k] == None
      invariant OneOwner(resp[..]) && Held(resp[..]) <= heap.live && old(heap.live) == heap.live - Held(resp[..])
      invariant input.used == old(input.used) + Spent(|lines|, PromptCount(messages[..i]))
      invariant Aligned(resp, messages, lines, i)
      invariant Lucky(heap.fails, old(heap.clock), heap.clock) ==> Complete(resp, messages, lines, i)
    {
      PromptStep(messages, i);
      var ok := Handle(heap, input, messages[i], resp, i);
      if !ok {
        HandledIs(messages, i);
        FreeAll(heap, resp);
        return PAM_CONV_ERR;
      }
      i := i + 1;
    }
    HandledIs(messages, i);
    assert messages[..i] == messages;
    return PAM_SUCCESS;
  }

  /** `misc_conv`. Whatever happens, exactly the prompts before the first message that
      is not understood take a line each while there are lines. */
  method Converse(heap: CHeap, input: Input, count: int, messages: Option<seq<Message>>, response: Response?)
      returns (ret: int)
    requires input.Valid() && heap.Valid()
    requires messages.Some? ==> count <= |messages.value|
    modifies heap, input, response
    ensures input.Valid() && heap.Valid() && heap.clock >= old(heap.clock)
    // the result decides what kind of run it was
    ensures (ret == PAM_SUCCESS) == (count > 0 && messages.Some? && response != null
        && !heap.fails(old(heap.clock)) && Handled(messages.value[..count]) == count)
    ensures (ret == PAM_BUF_ERR) == (count > 0 && messages.Some? && response != null && heap.fails(old(heap.clock)))
    ensures ret == PAM_SUCCESS || ret == PAM_BUF_ERR || ret == PAM_CONV_ERR
    // input
    ensures input.used == old(input.used) +
      (if count <= 0 || messages.None? || response == null || ret == PAM_BUF_ERR then 0
      else Spent(|input.lines| - old(input.used), PromptsBeforeBad(messages.value[..count])))
    // failure hands over nothing and keeps nothing
    ensures ret != PAM_SUCCESS ==> heap.live == old(heap.live)
    ensures ret != PAM_SUCCESS && response != null ==>
      response.answers == old(response.answers) && response.arrayBlock == old(response.arrayBlock)
    // success hands over one array and its answers, each block once
    ensures ret == PAM_SUCCESS ==>
      && response.answers != null && fresh(response.answers) && response.answers.Length == count
      && OneOwner(response.answers[..]) && response.arrayBlock !in Held(response.answers[..])
      && heap.live == old(heap.live) + {response.arrayBlock} + Held(response.answers[..])
      && old(heap.live) !! {response.arrayBlock} + Held(response.answers[..])
    // a lost answer is NULL; none is ever given to another prompt
    ensures ret == PAM_SUCCESS ==>
      Aligned(response.answers, messages.value[..count], input.lines[old(input.used)..], count)
    ensures ret == PAM_SUCCESS && Lucky(heap.fails, old(heap.clock), heap.clock) ==>
      Complete(response.answers, messages.value[..count], input.lines[old(input.used)..], count)
  {
    if count <= 0 || messages == None || response == null { return PAM_CONV_ERR; }
    var block := heap.Alloc();
    if block == None { return PAM_BUF_ERR; }
    var resp := new Option<CStr>[count](_ => None);
    ret := Fill(heap, input, messages.value[..count], resp);
    if ret == PAM_SUCCESS {
      response.answers := resp;
      response.arrayBlock := block.value;
    } else {
      heap.Free(block.value);
    }
  }
}
