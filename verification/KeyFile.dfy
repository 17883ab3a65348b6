/** Lines of the form KEY VALUE, as `pam_modutil_search_key` understands them. */
module KeyFile {
  import opened PamTypes

  const NUL: char := '\0'

  predicate Blank(c: char) { c == ' ' || c == '\t' }
  predicate Separator(c: char) { Blank(c) || c == '=' }
  predicate EndsLine(c: char) { c == '\r' || c == '\n' || c == NUL }
  predicate EndsText(c: char) { EndsLine(c) || c == '#' }

  /** The longest start of s in which `stop` holds of no character. */
  function Before(s: string, stop: char -> bool): (r: string)
    ensures |r| <= |s| && r == s[..|r|]
    ensures forall i :: 0 <= i < |r| ==> !stop(r[i])
    ensures |r| < |s| ==> stop(s[|r|])
  {
    if s == "" || stop(s[0]) then "" else [s[0]] + Before(s[1..], stop)
  }

  /** The rest after the longest start in which `skip` holds of every character. */
  function After(s: string, skip: char -> bool): string {
    s[|Before(s, c => !skip(c))|..]
  }

  function TrimEnd(s: string): string {
    if s != "" && Blank(s[|s| - 1]) then TrimEnd(s[..|s| - 1]) else s
  }

  /** A line without indentation, comment and line end. */
  function Content(line: string): string {
    Before(After(Before(line, EndsLine), Blank), c => c == '#')
  }

  function KeyOf(text: string): string {
    Before(text, Separator)
  }

  function ValueOf(text: string): string {
    TrimEnd(After(text[|KeyOf(text)|..], Separator))
  }

  /** Key and value of a line that has any content. */
  function ParseLine(line: string): Option<(string, string)> {
    var text := Content(line);
    if text == "" then None else Some((KeyOf(text), ValueOf(text)))
  }

  function Lower(c: char): char {
    if 'A' <= c <= 'Z' then ((c as int) + 32) as char else c
  }

  /** `strcasecmp` finds no difference. */
  predicate SameKey(a: string, b: string) {
    |a| == |b| && forall i :: 0 <= i < |a| ==> Lower(a[i]) == Lower(b[i])
  }

  /** The characters that matter, by their codes: space and tab, '=', carriage return, line
      feed and NUL, and '#'. */
  lemma Characters(c: char)
    ensures Blank(c) <==> c as int == 32 || c as int == 9
    ensures Separator(c) <==> c as int == 32 || c as int == 9 || c as int == 61
    ensures EndsLine(c) <==> c as int == 13 || c as int == 10 || c as int == 0
    ensures EndsText(c) <==> c as int == 13 || c as int == 10 || c as int == 0 || c as int == 35
  {
  }

  /** Two letters of the alphabet that differ in case only. */
  predicate CasePair(upper: char, lower: char) {
    'A' <= upper <= 'Z' && 'a' <= lower <= 'z' && upper as int - 'A' as int == lower as int - 'a' as int
  }

  /** Keys are the same if and only if they have the same characters up to the case of the
      26 letters. */
  lemma SameKeyIff(a: string, b: string)
    ensures SameKey(a, b) <==>
      |a| == |b| && forall i :: 0 <= i < |a| ==> a[i] == b[i] || CasePair(a[i], b[i]) || CasePair(b[i], a[i])
  {
    forall c: char, d: char ensures Lower(c) == Lower(d) <==> c == d || CasePair(c, d) || CasePair(d, c) {
    }
  }

  predicate HasKey(line: string, key: string) {
    ParseLine(line).Some? && SameKey(ParseLine(line).value.0, key)
  }

  /** The value on the first line with that key. */
  function Search(lines: seq<string>, key: string): Option<string> {
    if lines == [] then None
    else if HasKey(lines[0], key) then Some(ParseLine(lines[0]).value.1)
    else Search(lines[1..], key)
  }

  // -------------------------------------------------------------- the line grammar

  predicate AllOf(s: string, p: char -> bool) {
    forall i :: 0 <= i < |s| ==> p(s[i])
  }

  /** A value as it can be stored: no comment or line end inside, no separator in front,
      no blank behind. */
  predicate CleanValue(value: string) {
    && AllOf(value, c => !EndsText(c))
    && (value != "" ==> !Separator(value[0]) && !Blank(value[|value| - 1]))
  }

  /** The pieces of a line: indentation, key, separators, value, trailing blanks, and a
      comment or line end. A missing key shows by a leading '='. */
  predicate Pieces(indent: string, key: string, separators: string, value: string, blanks: string, tail: string) {
    && AllOf(indent, Blank)
    && AllOf(key, c => !EndsText(c) && !Separator(c))
    && AllOf(separators, Separator)
    && CleanValue(value)
    && AllOf(blanks, Blank)
    && (tail == "" || EndsText(tail[0]))
    && (key == "" ==> separators != "" && separators[0] == '=')
    && (value != "" ==> separators != "")
  }

  lemma AllOfConcat(a: string, b: string, p: char -> bool)
    ensures AllOf(a + b, p) <==> AllOf(a, p) && AllOf(b, p)
  {
    var s := a + b;
    assert forall i :: 0 <= i < |a| ==> s[i] == a[i];
    assert forall i :: 0 <= i < |b| ==> s[|a| + i] == b[i];
  }

  lemma {:induction false} BeforeConcat(a: string, b: string, stop: char -> bool)
    requires AllOf(a, c => !stop(c))
    ensures Before(a + b, stop) == a + Before(b, stop)
  {
    if a == "" {
      assert a + b == b;
    } else {
      assert (a + b)[1..] == a[1..] + b;
      BeforeConcat(a[1..], b, stop);
    }
  }

  lemma AfterConcat(a: string, b: string, skip: char -> bool)
    requires AllOf(a, skip) && (b == "" || !skip(b[0]))
    ensures After(a + b, skip) == b
  {
    BeforeConcat(a, b, c => !skip(c));
  }

  lemma {:induction false} TrimEndConcat(a: string, b: string)
    requires AllOf(b, Blank) && (a == "" || !Blank(a[|a| - 1]))
    ensures TrimEnd(a + b) == a
  {
    if b == "" {
      assert a + b == a;
    } else {
      assert (a + b)[..|a + b| - 1] == a + b[..|b| - 1];
      TrimEndConcat(a, b[..|b| - 1]);
    }
  }

  lemma {:induction false} TrimEndSplits(s: string)
    ensures TrimEnd(s) <= s && AllOf(s[|TrimEnd(s)|..], Blank)
    ensures TrimEnd(s) == "" || !Blank(TrimEnd(s)[|TrimEnd(s)| - 1])
  {
    if s != "" && Blank(s[|s| - 1]) {
      TrimEndSplits(s[..|s| - 1]);
      var kept := TrimEnd(s);
      forall i | |kept| <= i < |s| ensures Blank(s[i]) {
        if i < |s| - 1 { assert s[..|s| - 1][|kept|..][i - |kept|] == s[i]; }
      }
    } else {
      assert TrimEnd(s) == s;
    }
  }

  lemma ContentOf(indent: string, text: string, tail: string)
    requires AllOf(indent, Blank) && AllOf(text, c => !EndsText(c)) && text != "" && !Blank(text[0])
    requires tail == "" || EndsText(tail[0])
    ensures Content(indent + text + tail) == text
  {
    var comment := Before(tail, EndsLine);
    AllOfConcat(indent, text, c => !EndsLine(c));
    BeforeConcat(indent + text, tail, EndsLine);
    assert indent + text + comment == indent + (text + comment);
    assert (text + comment)[0] == text[0];
    AfterConcat(indent, text + comment, Blank);
    BeforeConcat(text, comment, c => c == '#');
    assert text + "" == text;
  }

  lemma KeyValueOf(key: string, separators: string, value: string, blanks: string)
    requires Pieces("", key, separators, value, blanks, "")
    ensures KeyOf(key + separators + value + blanks) == key && ValueOf(key + separators + value + blanks) == value
  {
    var rest := separators + value + blanks;
    var text := key + separators + value + blanks;
    assert text == key + rest;
    assert rest != "" ==> Separator(rest[0]);
    BeforeConcat(key, rest, Separator);
    assert key + "" == key && text[|key|..] == rest;
    if value == "" {
      assert rest + "" == rest && AllOf(rest, Separator);
      AfterConcat(rest, "", Separator);
    } else {
      assert rest == separators + (value + blanks);
      AfterConcat(separators, value + blanks, Separator);
      TrimEndConcat(value, blanks);
    }
  }

  /** Every line made of such pieces parses to its key and value. */
  lemma PiecesParse(indent: string, key: string, separators: string, value: string, blanks: string, tail: string)
    requires Pieces(indent, key, separators, value, blanks, tail)
    ensures ParseLine(indent + key + separators + value + blanks + tail) == Some((key, value))
  {
    var text := key + separators + value + blanks;
    assert indent + key + separators + value + blanks + tail == indent + text + tail;
    assert text[0] == (key + separators)[0];
    ContentOf(indent, text, tail);
    KeyValueOf(key, separators, value, blanks);
  }

  lemma AfterSplits(s: string, skip: char -> bool) returns (front: string)
    ensures s == front + After(s, skip) && AllOf(front, skip)
    ensures After(s, skip) == "" || !skip(After(s, skip)[0])
  {
    front := Before(s, c => !skip(c));
  }

  lemma BeforeSplits(s: string, stop: char -> bool) returns (rest: string)
    ensures s == Before(s, stop) + rest && AllOf(Before(s, stop), c => !stop(c))
    ensures rest == "" || stop(rest[0])
  {
    rest := s[|Before(s, stop)|..];
  }

  lemma TextChars(indent: string, text: string, comment: string)
    requires AllOf(indent + (text + comment), c => !EndsLine(c)) && AllOf(text, c => c != '#')
    ensures AllOf(text, c => !EndsText(c))
  {
    var whole := indent + (text + comment);
    forall i | 0 <= i < |text| ensures !EndsText(text[i]) {
      assert whole[|indent| + i] == text[i];
    }
  }

  lemma Glue(indent: string, text: string, comment: string, end: string)
    ensures indent + (text + comment) + end == indent + text + (comment + end)
  {
  }

  lemma ContentSplits(line: string) returns (indent: string, tail: string)
    ensures line == indent + Content(line) + tail && AllOf(indent, Blank)
    ensures AllOf(Content(line), c => !EndsText(c)) && (Content(line) != "" ==> !Blank(Content(line)[0]))
    ensures tail == "" || EndsText(tail[0])
  {
    var whole, text := Before(line, EndsLine), Content(line);
    var end := BeforeSplits(line, EndsLine);
    indent := AfterSplits(whole, Blank);
    var comment := BeforeSplits(After(whole, Blank), c => c == '#');
    tail := comment + end;
    Glue(indent, text, comment, end);
    TextChars(indent, text, comment);
  }

  lemma TextSplits(text: string) returns (separators: string, blanks: string)
    ensures text == KeyOf(text) + separators + (ValueOf(text) + blanks)
    ensures AllOf(KeyOf(text), c => !Separator(c)) && AllOf(separators, Separator) && AllOf(blanks, Blank)
    ensures ValueOf(text) != "" ==>
      separators != "" && !Separator(ValueOf(text)[0]) && !Blank(ValueOf(text)[|ValueOf(text)| - 1])
    ensures KeyOf(text) == "" && text != "" ==> separators != "" && separators[0] == text[0]
  {
    var rest := text[|KeyOf(text)|..];
    separators := AfterSplits(rest, Separator);
    blanks := TrimEndRest(After(rest, Separator));
  }

  lemma TrimEndRest(stored: string) returns (blanks: string)
    ensures stored == TrimEnd(stored) + blanks && AllOf(blanks, Blank)
    ensures TrimEnd(stored) != "" ==> TrimEnd(stored)[0] == stored[0] && !Blank(TrimEnd(stored)[|TrimEnd(stored)| - 1])
  {
    TrimEndSplits(stored);
    blanks := stored[|TrimEnd(stored)|..];
  }

  lemma Reassociate(a: string, b: string, c: string, d: string, e: string, f: string)
    ensures a + (b + c + (d + e)) + f == a + b + c + d + e + f
  {
  }

  /** And a line that parses is made of such pieces. */
  lemma ParsedPieces(line: string) returns (indent: string, separators: string, blanks: string, tail: string)
    requires ParseLine(line).Some?
    ensures var (key, value) := ParseLine(line).value;
      Pieces(indent, key, separators, value, blanks, tail)
      && line == indent + key + separators + value + blanks + tail
  {
    var text := Content(line);
    indent, tail := ContentSplits(line);
    separators, blanks := TextSplits(text);
    var key, value := KeyOf(text), ValueOf(text);
    AllOfConcat(key + separators, value + blanks, c => !EndsText(c));
    AllOfConcat(key, separators, c => !EndsText(c));
    AllOfConcat(value, blanks, c => !EndsText(c));
    Reassociate(indent, key, separators, value, blanks, tail);
  }

  /** No stored value contains a comment mark or line end, starts with a separator, or
      ends with a blank. */
  lemma {:induction false} ValueIsClean(lines: seq<string>, key: string)
    requires Search(lines, key).Some?
    ensures CleanValue(Search(lines, key).value)
    decreases |lines|
  {
    if HasKey(lines[0], key) {
      var _, _, _, _ := ParsedPieces(lines[0]);
    } else {
      ValueIsClean(lines[1..], key);
    }
  }

  lemma {:induction false} SearchSkips(before: seq<string>, rest: seq<string>, key: string)
    requires forall i :: 0 <= i < |before| ==> !HasKey(before[i], key)
    ensures Search(before + rest, key) == Search(rest, key)
  {
    if before == [] {
      assert before + rest == rest;
    } else {
      assert (before + rest)[1..] == before[1..] + rest;
      SearchSkips(before[1..], rest, key);
    }
  }

  lemma EmptyEnds(name: string, separators: string, value: string, end: string)
    ensures "" + name + separators + value + "" + end == name + separators + value + end
  {
    assert "" + name == name;
    var stored := name + separators + value;
    assert stored + "" == stored;
  }

  lemma PrintedParses(name: string, separators: string, value: string)
    requires name != "" && AllOf(name, c => !EndsText(c) && !Separator(c))
    requires separators != "" && AllOf(separators, Separator) && CleanValue(value)
    ensures ParseLine(name + separators + value + "\n") == Some((name, value))
  {
    PiecesParse("", name, separators, value, "", "\n");
    EmptyEnds(name, separators, value, "\n");
  }

  /** Printing a key, any separators and a clean value, after lines with other keys, is
      undone by searching, whatever the case of the key and whatever follows. */
  lemma {:induction false} PrintThenSearch(before: seq<string>, after: seq<string>, name: string, key: string,
                        separators: string, value: string)
    requires forall i :: 0 <= i < |before| ==> !HasKey(before[i], key)
    requires name != "" && AllOf(name, c => !EndsText(c) && !Separator(c)) && SameKey(name, key)
    requires separators != "" && AllOf(separators, Separator) && CleanValue(value)
    ensures Search(before + [name + separators + value + "\n"] + after, key) == Some(value)
  {
    var line := name + separators + value + "\n";
    PrintedParses(name, separators, value);
    var rest := [line] + after;
    assert before + [line] + after == before + rest;
    SearchSkips(before, rest, key);
    assert rest[0] == line;
  }

  /** The first matching line decides... */
  lemma {:induction false} FirstMatchDecides(lines: seq<string>, key: string, i: nat)
    requires i < |lines| && HasKey(lines[i], key) && forall j :: 0 <= j < i ==> !HasKey(lines[j], key)
    ensures Search(lines, key) == Some(ParseLine(lines[i]).value.1)
  {
    assert lines == lines[..i] + lines[i..];
    SearchSkips(lines[..i], lines[i..], key);
  }

  /** ... and without one there is no value. */
  lemma {:induction false} NoMatchIff(lines: seq<string>, key: string)
    ensures Search(lines, key).None? <==> forall i :: 0 <= i < |lines| ==> !HasKey(lines[i], key)
  {
    if lines != [] {
      NoMatchIff(lines[1..], key);
      assert forall i :: 0 < i < |lines| ==> lines[i] == lines[1..][i - 1];
    }
  }
}
