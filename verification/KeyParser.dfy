/** `pam_modutil_search_key`: each line is taken apart inside its own buffer by writing
    terminators into it. */
module KeyParser {
  import opened PamTypes
  import opened KeyFile

  /** The buffer holds exactly this C string from position p. */
  predicate StringAt(buffer: seq<char>, p: nat, text: string) {
    && p + |text| < |buffer|
    && (forall i :: 0 <= i < |text| ==> buffer[p + i] == text[i] && text[i] != NUL)
    && buffer[p + |text|] == NUL
  }

  /** Write a terminator over the first character that stops the string at p. */
  method Cut(buffer: array<char>, p: nat, stop: char -> bool, ghost text: string) returns (k: nat, found: bool)
    requires StringAt(buffer[..], p, text)
    modifies buffer
    ensures k == p + |Before(text, stop)| && found == (|Before(text, stop)| < |text|)
    ensures StringAt(buffer[..], p, Before(text, stop))
    ensures found ==> StringAt(buffer[..], k + 1, text[k - p + 1..])
  {
    k := p;
    while buffer[k] != NUL && !stop(buffer[k])
      invariant p <= k <= p + |text|
      invariant forall i :: 0 <= i < k - p ==> !stop(text[i])
      decreases p + |text| - k
    {
      assert buffer[..][p + (k - p)] == text[k - p];
      k := k + 1;
    }
    BeforeIs(text, stop, k - p);
    found := buffer[k] != NUL;
    buffer[k] := NUL;
  }

  lemma {:induction false} BeforeIs(text: string, stop: char -> bool, n: nat)
    requires n <= |text| && (forall i :: 0 <= i < n ==> !stop(text[i])) && (n == |text| || stop(text[n]))
    ensures Before(text, stop) == text[..n]
  {
    if n > 0 { BeforeIs(text[1..], stop, n - 1); }
  }

  /** Step over the characters at p that satisfy `skip`. */
  method Skip(buffer: array<char>, p: nat, skip: char -> bool, ghost text: string) returns (k: nat)
    requires StringAt(buffer[..], p, text) && !skip(NUL)
    ensures p <= k && StringAt(buffer[..], k, After(text, skip))
  {
    k := p;
    while skip(buffer[k])
      invariant p <= k <= p + |text|
      invariant forall i :: 0 <= i < k - p ==> skip(text[i])
      decreases p + |text| - k
    {
      assert buffer[..][p + (k - p)] == text[k - p];
      k := k + 1;
    }
    BeforeIs(text, c => !skip(c), k - p);
  }

  /** `strlen`. */
  method Length(buffer: array<char>, p: nat, ghost text: string) returns (n: nat)
    requires StringAt(buffer[..], p, text)
    ensures n == |text|
  {
    n := 0;
    while buffer[p + n] != NUL
      invariant 0 <= n <= |text|
      invariant n < |text| ==> buffer[..][p + n] == text[n]
      decreases |text| - n
    {
      n := n + 1;
    }
  }

  /** Write a terminator after the last character that is not blank. */
  method Trim(buffer: array<char>, p: nat, ghost text: string)
    requires StringAt(buffer[..], p, text)
    modifies buffer
    ensures StringAt(buffer[..], p, TrimEnd(text))
  {
    var n := Length(buffer, p, text);
    assert text[..n] == text;
    while n > 0 && Blank(buffer[p + n - 1])
      invariant 0 <= n <= |text|
      invariant n > 0 ==> buffer[..][p + (n - 1)] == text[n - 1]
      invariant TrimEnd(text[..n]) == TrimEnd(text)
    {
      assert text[..n][..n - 1] == text[..n - 1];
      n := n - 1;
    }
    buffer[p + n] := NUL;
    assert TrimEnd(text) == text[..n];
  }

  method Copy(buffer: array<char>, p: nat, ghost text: string) returns (s: string)
    requires StringAt(buffer[..], p, text)
    ensures s == text
  {
    var n := Length(buffer, p, text);
    s := buffer[p..p + n];
  }

  /** Drop the line end, the indentation and the comment. */
  method TakeContent(buffer: array<char>, ghost line: string) returns (p: nat)
    requires StringAt(buffer[..], 0, Before(line, c => c == NUL))
    modifies buffer
    ensures StringAt(buffer[..], p, Content(line))
  {
    LineBeforeNul(line);
    var k, found := Cut(buffer, 0, EndsLine, Before(line, c => c == NUL));
    p := Skip(buffer, 0, Blank, Before(line, EndsLine));
    k, found := Cut(buffer, p, c => c == '#', After(Before(line, EndsLine), Blank));
  }

  /** What follows the key, separators and trailing blanks dropped. */
  method TakeValue(buffer: array<char>, end: nat, more: bool, ghost text: string) returns (value: string)
    requires more == (|KeyOf(text)| < |text|)
    requires if more then StringAt(buffer[..], end + 1, text[|KeyOf(text)| + 1..]) else StringAt(buffer[..], end, "")
    modifies buffer
    ensures value == ValueOf(text)
  {
    AfterKey(text);
    ghost var rest := if more then text[|KeyOf(text)| + 1..] else "";
    var q := Skip(buffer, if more then end + 1 else end, Separator, rest);
    Trim(buffer, q, After(rest, Separator));
    value := Copy(buffer, q, ValueOf(text));
  }

  /** Take one line apart: does its key match, and if so what is its value? */
  method ParseBuffer(buffer: array<char>, ghost line: string, key: string) returns (value: Option<string>)
    requires StringAt(buffer[..], 0, Before(line, c => c == NUL))
    modifies buffer
    ensures value == if HasKey(line, key) then Some(ParseLine(line).value.1) else None
  {
    ghost var text := Content(line);
    var p := TakeContent(buffer, line);
    if buffer[p] == NUL { return None; }
    var end, more := Cut(buffer, p, Separator, text);
    var tok := Copy(buffer, p, KeyOf(text));
    if !SameKey(tok, key) { return None; }
    var found := TakeValue(buffer, end, more, text);
    return Some(found);
  }

  /** A line as `getline` leaves it. */
  method Load(line: string) returns (buffer: array<char>)
    ensures fresh(buffer) && StringAt(buffer[..], 0, Before(line, c => c == NUL))
  {
    buffer := new char[|line| + 1](k => if 0 <= k < |line| then line[k] else NUL);
    assert forall k :: 0 <= k <= |line| ==> buffer[..][k] == if k < |line| then line[k] else NUL;
  }

  /** Cutting at a terminator first changes nothing: a line end includes it. */
  lemma {:induction false} LineBeforeNul(line: string)
    ensures Before(Before(line, c => c == NUL), EndsLine) == Before(line, EndsLine)
  {
    if line != "" && line[0] != NUL { LineBeforeNul(line[1..]); }
  }

  /** The first separator is overwritten; skipping goes on after it. */
  lemma AfterKey(text: string)
    ensures var n := |KeyOf(text)|;
      After(text[n..], Separator) == After(if n < |text| then text[n + 1..] else "", Separator)
  {
    var rest := text[|KeyOf(text)|..];
    if rest != "" {
      BeforeConcat(rest[..1], rest[1..], c => !Separator(c));
      assert rest == rest[..1] + rest[1..];
      assert rest[1..] == text[|KeyOf(text)| + 1..];
    }
  }

  lemma {:induction false} SearchStep(lines: seq<string>, i: nat, key: string)
    requires i < |lines|
    ensures Search(lines[i..], key) ==
      if HasKey(lines[i], key) then Some(ParseLine(lines[i]).value.1) else Search(lines[i + 1..], key)
  {
    assert lines[i..][0] == lines[i] && lines[i..][1..] == lines[i + 1..];
  }

  /** `pam_modutil_search_key`. A missing argument or unreadable file gives no value, and
      so does a failing copy of the value found. */
  method SearchKey(lines: Option<seq<string>>, key: Option<string>, copyFails: bool) returns (value: Option<string>)
    ensures value ==
      if lines.None? || key.None? || copyFails then None else Search(lines.value, key.value)
  {
    if lines == None || key == None { return None; }
    var i := 0;
    while i < |lines.value|
      invariant 0 <= i <= |lines.value|
      invariant Search(lines.value, key.value) == Search(lines.value[i..], key.value)
    {
      var buffer := Load(lines.value[i]);
      value := ParseBuffer(buffer, lines.value[i], key.value);
      SearchStep(lines.value, i, key.value);
      if value.Some? { return if copyFails then None else value; }
      i := i + 1;
    }
    return None;
  }
}
