/** The setting string a new password is hashed with: method, cost and salt. */
module SaltSpec {
  import opened PamTypes
  import opened KeyFile

  type Byte = b: int | 0 <= b < 256

  /** A configuration file: the value found for each key. */
  type Config = string -> Option<string>

  const RANDOM_BYTES := 16
  const BUFFER_SIZE := 128
  const LONG_MAX := 0x7fff_ffff_ffff_ffff
  const LONG_MIN := -0x8000_0000_0000_0000
  const INT_MAX := 0x7fff_ffff

  const YESCRYPT := "$y$"
  const SHA512 := "$6$"
  const SHA256 := "$5$"
  const MD5 := "$1$"
  const BCRYPT := "$2b$"

  // ------------------------------------------------------------------- numbers

  predicate Digit(c: char) { '0' <= c <= '9' }

  function DigitValue(c: char): nat
    requires Digit(c)
  {
    c as int - '0' as int
  }

  function DigitChar(d: nat): (c: char)
    requires d < 10
    ensures Digit(c) && DigitValue(c) == d
  {
    (d + '0' as int) as char
  }

  /** `%lu`. */
  function Decimal(n: nat): (s: string)
    ensures s != "" && AllOf(s, Digit)
  {
    if n < 10 then [DigitChar(n)] else Decimal(n / 10) + [DigitChar(n % 10)]
  }

  /** `%02lu` for numbers below 100. */
  function TwoDigits(n: nat): string
    requires n < 100
  {
    [DigitChar(n / 10), DigitChar(n % 10)]
  }

  function Number(s: string): nat
    requires AllOf(s, Digit)
  {
    if s == "" then 0 else 10 * Number(s[..|s| - 1]) + DigitValue(s[|s| - 1])
  }

  predicate Space(c: char) {
    c == ' ' || 9 <= c as int <= 13
  }

  /** White space by its codes: the space, and tab to carriage return. */
  lemma Spaces(c: char)
    ensures Space(c) <==> c as int in {9, 10, 11, 12, 13, 32}
  {
  }

  /** `strtol(s, &end, 10)` accepted only if it consumes all of s without overflow. */
  function ParseLong(s: string): Option<int> {
    ParseSigned(After(s, Space))
  }

  function ParseSigned(t: string): Option<int> {
    var signed := t != "" && (t[0] == '-' || t[0] == '+');
    var digits := if signed then t[1..] else t;
    if digits == "" || !AllOf(digits, Digit) then None
    else
      var n: int := if signed && t[0] == '-' then -(Number(digits) as int) else Number(digits) as int;
      if LONG_MIN <= n <= LONG_MAX then Some(n) else None
  }

  function SearchLong(config: Config, key: string, fallback: int): int {
    match config(key)
    case None => fallback
    case Some(text) => (match ParseLong(text) case Some(n) => n case None => fallback)
  }

  // ------------------------------------------------------------------- method and cost

  /** The method's prefix is kept between calls: an unknown or missing method leaves the
      one found last, and the first time selects yescrypt. */
  function NextPrefix(previous: string, name: Option<string>): string {
    if name.Some? && SameKey(name.value, "YESCRYPT") then YESCRYPT
    else if name.Some? && SameKey(name.value, "SHA512") then SHA512
    else if name.Some? && SameKey(name.value, "SHA256") then SHA256
    else if name.Some? && SameKey(name.value, "MD5") then MD5
    else if name.Some? && SameKey(name.value, "BCRYPT") then BCRYPT
    else if previous == "" then YESCRYPT
    else previous
  }

  predicate KnownPrefix(prefix: string) {
    prefix == YESCRYPT || prefix == SHA512 || prefix == SHA256 || prefix == MD5 || prefix == BCRYPT
  }

  /** `password_hash_rounds`. */
  function Rounds(prefix: string, config: Config): nat {
    if prefix == YESCRYPT then Clamp(SearchLong(config, "YESCRYPT_COST_FACTOR", 5), 3, 11)
    else if prefix == SHA256 || prefix == SHA512 then
      var rounds := SearchLong(config, "SHA_CRYPT_MAX_ROUNDS", 0);
      if rounds < 1000 || rounds >= INT_MAX then 0
      else if rounds > 9999999 then 9999999
      else rounds
    else if prefix == BCRYPT then Clamp(SearchLong(config, "BCRYPT_MIN_ROUNDS", 5), 4, 31)
    else 0
  }

  function Clamp(n: int, low: nat, high: nat): nat
    requires low <= high
  {
    if n < low then low else if n > high then high else n
  }

  predicate RoundsFit(prefix: string, rounds: nat) {
    if prefix == YESCRYPT then 3 <= rounds <= 11
    else if prefix == SHA256 || prefix == SHA512 then rounds == 0 || 1000 <= rounds <= 9999999
    else if prefix == BCRYPT then 4 <= rounds <= 31
    else rounds == 0
  }

  /** Whatever the configuration says, the cost is one the method allows. */
  lemma RoundsBounded(prefix: string, config: Config)
    ensures RoundsFit(prefix, Rounds(prefix, config))
  {
  }

  /** For the SHA methods the default is chosen exactly below 1000 and from INT_MAX on;
      between them the configured number counts, up to the largest the method allows. */
  lemma ShaRoundsIff(prefix: string, config: Config)
    requires Sha(prefix)
    ensures var v := SearchLong(config, "SHA_CRYPT_MAX_ROUNDS", 0);
      && (Rounds(prefix, config) == 0 <==> v < 1000 || v >= INT_MAX)
      && (1000 <= v <= 9999999 <==> Rounds(prefix, config) == v && v != 0)
      && (9999999 <= v < INT_MAX <==> Rounds(prefix, config) == 9999999)
  {
  }

  lemma AfterSpaces(spaces: string, sign: string, digits: string)
    requires AllOf(spaces, Space) && (sign == "" || sign == "+" || sign == "-")
    requires digits != "" && AllOf(digits, Digit)
    ensures After(spaces + sign + digits, Space) == sign + digits
  {
    var t := sign + digits;
    assert spaces + sign + digits == spaces + t;
    assert Digit(digits[0]) && t[0] == (if sign == "" then digits[0] else sign[0]);
    AfterConcat(spaces, t, Space);
  }

  /** A number is read behind any white space, with or without a sign, if it fits a long
      and nothing follows it. */
  lemma {:induction false} ParseLongReads(spaces: string, sign: string, digits: string)
    requires AllOf(spaces, Space) && (sign == "" || sign == "+" || sign == "-")
    requires digits != "" && AllOf(digits, Digit)
    ensures var n: int := if sign == "-" then -(Number(digits) as int) else Number(digits) as int;
      ParseLong(spaces + sign + digits) == if LONG_MIN <= n <= LONG_MAX then Some(n) else None
  {
    AfterSpaces(spaces, sign, digits);
    if sign == "" {
      assert sign + digits == digits;
      UnsignedReads(digits);
    } else {
      SignedReads(sign[0], digits);
    }
  }

  lemma {:induction false} UnsignedReads(digits: string)
    requires digits != "" && AllOf(digits, Digit)
    ensures ParseSigned(digits) == if Number(digits) <= LONG_MAX then Some(Number(digits)) else None
  {
    assert Digit(digits[0]);
  }

  lemma {:induction false} SignedReads(sign: char, digits: string)
    requires (sign == '+' || sign == '-') && digits != "" && AllOf(digits, Digit)
    ensures var n: int := if sign == '-' then -(Number(digits) as int) else Number(digits) as int;
      ParseSigned([sign] + digits) == if LONG_MIN <= n <= LONG_MAX then Some(n) else None
  {
    assert ([sign] + digits)[1..] == digits;
  }

  /** What is printed as a decimal number is parsed as that number. */
  lemma {:induction false} ParseDecimal(n: nat)
    requires n <= LONG_MAX
    ensures ParseLong(Decimal(n)) == Some(n)
  {
    NumberOfDecimal(n);
    ParseLongReads("", "", Decimal(n));
    assert "" + "" + Decimal(n) == Decimal(n);
  }

  /** And nothing else is a number. */
  lemma ParseLongShape(s: string) returns (spaces: string, sign: string, digits: string)
    requires ParseLong(s).Some?
    ensures s == spaces + sign + digits && AllOf(spaces, Space) && (sign == "" || sign == "+" || sign == "-")
    ensures digits != "" && AllOf(digits, Digit)
  {
    spaces := AfterSplits(s, Space);
    var t := After(s, Space);
    if t[0] == '-' || t[0] == '+' {
      sign, digits := [t[0]], t[1..];
      assert t == sign + digits;
    } else {
      sign, digits := "", t;
      assert t == sign + digits;
    }
    Assoc(spaces, sign, digits);
  }

  /** For the methods with a cost factor it is the allowed number nearest to the one
      configured, five if there is none. */
  lemma CostNearest(config: Config, n: int)
    ensures var v := SearchLong(config, "YESCRYPT_COST_FACTOR", 5);
      3 <= n <= 11 ==> Distance(Rounds(YESCRYPT, config), v) <= Distance(n, v)
    ensures var v := SearchLong(config, "BCRYPT_MIN_ROUNDS", 5);
      4 <= n <= 31 ==> Distance(Rounds(BCRYPT, config), v) <= Distance(n, v)
    ensures Rounds(MD5, config) == 0
  {
  }

  function Distance(a: int, b: int): nat {
    if a < b then b - a else a - b
  }

  /** One more than the largest number that means "as many as possible" means "default". */
  lemma TooManyShaRounds(prefix: string)
    requires Sha(prefix)
    ensures Rounds(prefix, key => Some(Decimal(INT_MAX - 1))) == 9999999
    ensures Rounds(prefix, key => Some(Decimal(INT_MAX))) == 0
  {
    ParseDecimal(INT_MAX - 1);
    ParseDecimal(INT_MAX);
  }

  /** Every run of calls, with any configurations, leaves a known prefix. */
  lemma {:induction false} PrefixKnown(names: seq<Option<string>>)
    requires names != []
    ensures KnownPrefix(PrefixAfter(names))
  {
    if |names| > 1 { PrefixKnown(names[..|names| - 1]); }
  }

  function PrefixAfter(names: seq<Option<string>>): string {
    if names == [] then "" else NextPrefix(PrefixAfter(names[..|names| - 1]), names[|names| - 1])
  }

  /** The methods by name. */
  const METHODS := map["YESCRYPT" := "$y$", "SHA512" := "$6$", "SHA256" := "$5$", "MD5" := "$1$", "BCRYPT" := "$2b$"]

  /** The name given, in whatever case, is that of this method. */
  predicate Names(name: Option<string>, method_: string) {
    name.Some? && SameKey(name.value, method_)
  }

  predicate NamesNone(name: Option<string>) {
    forall m :: m in METHODS ==> !Names(name, m)
  }

  /** A configured method decides; without a known one the last stays, and before any was
      found it is yescrypt. */
  lemma NextPrefixIs(previous: string, name: Option<string>)
    ensures forall m :: m in METHODS && Names(name, m) ==> NextPrefix(previous, name) == METHODS[m]
    ensures NamesNone(name) ==> NextPrefix(previous, name) == if previous == "" then "$y$" else previous
  {
    assert METHODS.Keys == {"YESCRYPT", "SHA512", "SHA256", "MD5", "BCRYPT"};
    if Names(name, "SHA512") { assert Lower(name.value[3]) == Lower("SHA512"[3]); }
    if Names(name, "SHA256") { assert Lower(name.value[3]) == Lower("SHA256"[3]); }
    if Names(name, "BCRYPT") { assert Lower(name.value[3]) == Lower("BCRYPT"[3]); }
  }

  /** Over any run of calls the last method that was found is in force, however many calls
      found none since; yescrypt if none ever was. */
  lemma {:induction false} LastMethodHolds(names: seq<Option<string>>, i: nat, m: string)
    requires i < |names| && m in METHODS && Names(names[i], m)
    requires forall j :: i < j < |names| ==> NamesNone(names[j])
    ensures PrefixAfter(names) == METHODS[m]
    decreases |names|
  {
    var last := |names| - 1;
    NextPrefixIs(PrefixAfter(names[..last]), names[last]);
    if i < last { LastMethodHolds(names[..last], i, m); }
  }

  lemma {:induction false} YescryptByDefault(names: seq<Option<string>>)
    requires names != [] && forall j :: 0 <= j < |names| ==> NamesNone(names[j])
    ensures PrefixAfter(names) == "$y$"
    decreases |names|
  {
    var last := |names| - 1;
    NextPrefixIs(PrefixAfter(names[..last]), names[last]);
    if last > 0 { YescryptByDefault(names[..last]); }
  }

  // ------------------------------------------------------------------- the setting

  /** The low six bits of a byte, in the alphabet "./", 'A'-'Z', 'a'-'z', '0'-'9'. */
  function SaltChar(b: Byte): char {
    var d := b % 64;
    if d == 0 then '.'
    else if d == 1 then '/'
    else if d < 28 then ('A' as int + d - 2) as char
    else if d < 54 then ('a' as int + d - 28) as char
    else ('0' as int + d - 54) as char
  }

  function Salt(random: seq<Byte>, n: nat): (s: string)
    requires |random| == RANDOM_BYTES
    ensures |s| == n && forall i :: 0 <= i < n ==> s[i] == SaltChar(random[i % RANDOM_BYTES])
  {
    seq(n, i requires 0 <= i < n => SaltChar(random[i % RANDOM_BYTES]))
  }

  /** What is printed into the setting buffer. */
  function Setting(prefix: string, rounds: nat, random: seq<Byte>): string
    requires |random| == RANDOM_BYTES && (prefix == BCRYPT ==> rounds < 100)
  {
    if prefix == SHA512 || prefix == SHA256 then
      if rounds != 0 then prefix + "rounds=" + Decimal(rounds) + "$" + Salt(random, 16) + "$"
      else prefix + Salt(random, 16) + "$"
    else if prefix == BCRYPT then
      BCRYPT + TwoDigits(if rounds != 0 then rounds else 12) + "$" + Salt(random, 22)
    else prefix + Salt(random, 16) + "$"
  }

  lemma {:induction false} NumberOfDecimal(n: nat)
    ensures Number(Decimal(n)) == n
  {
    if n >= 10 {
      NumberOfDecimal(n / 10);
      assert Decimal(n)[..|Decimal(n)| - 1] == Decimal(n / 10);
    }
  }

  function Power10(k: nat): nat {
    if k == 0 then 1 else 10 * Power10(k - 1)
  }

  lemma {:induction false} DecimalLength(n: nat, k: nat)
    requires 0 < k && n < Power10(k)
    ensures |Decimal(n)| <= k
  {
    if n >= 10 { DecimalLength(n / 10, k - 1); }
  }

  /** Every setting the library can print fits its buffer with room to spare, so the
      overflow return cannot happen. */
  lemma SettingFits(prefix: string, rounds: nat, random: seq<Byte>)
    requires KnownPrefix(prefix) && RoundsFit(prefix, rounds) && |random| == RANDOM_BYTES
    ensures 0 < |Setting(prefix, rounds, random)| <= 35 < BUFFER_SIZE
  {
    if rounds <= 9999999 {
      assert Power10(7) == 10000000 by { assert Power10(4) == 10000; }
      DecimalLength(rounds, 7);
    }
  }

  predicate NoDollar(s: string) {
    AllOf(s, c => c != '$')
  }

  lemma {:induction false} SplitAtDollar(a: string, b: string, x: string, y: string)
    requires NoDollar(a) && NoDollar(b) && a + "$" + x == b + "$" + y
    ensures a == b && x == y
  {
    var s := a + "$" + x;
    assert s[|a|] == '$' && s[|b|] == '$';
    assert forall i :: 0 <= i < |a| ==> s[i] == a[i];
    assert forall i :: 0 <= i < |b| ==> s[i] == b[i];
    assert |a| == |b|;
    assert a == s[..|a|] == b;
    assert x == s[|a| + 1..] == y;
  }

  /** The salt characters carry the low six bits of each random byte. */
  lemma SaltDetermines(random: seq<Byte>, random': seq<Byte>, n: nat)
    requires |random| == |random'| == RANDOM_BYTES && n >= RANDOM_BYTES
    ensures Salt(random, n) == Salt(random', n) <==>
      forall i :: 0 <= i < RANDOM_BYTES ==> random[i] % 64 == random'[i] % 64
  {
    forall i | 0 <= i < n && random[i % RANDOM_BYTES] % 64 == random'[i % RANDOM_BYTES] % 64
      ensures Salt(random, n)[i] == Salt(random', n)[i]
    {
      SaltCharInjective(random[i % RANDOM_BYTES], random'[i % RANDOM_BYTES]);
    }
    if Salt(random, n) == Salt(random', n) {
      forall i | 0 <= i < RANDOM_BYTES ensures random[i] % 64 == random'[i] % 64 {
        assert Salt(random, n)[i] == Salt(random', n)[i];
        SaltCharInjective(random[i], random'[i]);
      }
    }
  }

  lemma SaltCharInjective(b: Byte, b': Byte)
    ensures SaltChar(b) == SaltChar(b') <==> b % 64 == b' % 64
    ensures SaltChar(b) != '$' && SaltChar(b) != '='
  {
  }

  const CAPITALS := "ABCDEFGHIJKLMNOPQRSTUVWXYZ"
  const SMALL := "abcdefghijklmnopqrstuvwxyz"
  const ALPHABET := "./" + CAPITALS + SMALL + "0123456789"

  /** The salt is written in that alphabet, six bits a character. */
  lemma SaltAlphabet(b: Byte)
    ensures |ALPHABET| == 64 && SaltChar(b) == ALPHABET[b % 64]
  {
    var d := b % 64;
    if d < 28 {
      assert ALPHABET[d] == ("./" + CAPITALS)[d];
    } else if d < 54 {
      assert ALPHABET[d] == SMALL[d - 28];
    } else {
      assert ALPHABET[d] == "0123456789"[d - 54];
    }
  }

  lemma SaltPlain(random: seq<Byte>, n: nat)
    requires |random| == RANDOM_BYTES
    ensures forall i :: 0 <= i < n ==> Salt(random, n)[i] != '$' && Salt(random, n)[i] != '='
  {
    forall i | 0 <= i < n ensures Salt(random, n)[i] != '$' && Salt(random, n)[i] != '=' {
      SaltCharInjective(random[i % RANDOM_BYTES], 0);
    }
  }

  /** The parts of a setting between its dollar signs. */
  function Fields(s: string): seq<string> {
    var first := Before(s, c => c == '$');
    if |first| == |s| then [first] else [first] + Fields(s[|first| + 1..])
  }

  lemma {:induction false} Assoc(a: string, b: string, c: string)
    ensures a + b + c == a + (b + c)
  {
  }

  lemma {:induction false} FirstField(first: string, rest: string)
    requires NoDollar(first)
    ensures Fields(first + "$" + rest) == [first] + Fields(rest)
  {
    var s := first + "$" + rest;
    Assoc(first, "$", rest);
    BeforeConcat(first, "$" + rest, c => c == '$');
    assert Before("$" + rest, c => c == '$') == "" && first + "" == first;
    assert s[|first| + 1..] == rest;
  }

  lemma {:induction false} LastField(last: string)
    requires NoDollar(last)
    ensures Fields(last) == [last]
  {
    assert last + "" == last;
    BeforeConcat(last, "", c => c == '$');
  }

  /** The name a method has inside a setting. */
  function Identifier(prefix: string): string
    requires KnownPrefix(prefix)
  {
    prefix[1..|prefix| - 1]
  }

  lemma IdentifierIs()
    ensures Identifier(YESCRYPT) == "y" && Identifier(SHA512) == "6" && Identifier(SHA256) == "5"
    ensures Identifier(MD5) == "1" && Identifier(BCRYPT) == "2b"
  {
  }

  lemma PrefixSplits(prefix: string)
    requires KnownPrefix(prefix)
    ensures prefix == "$" + Identifier(prefix) + "$" && NoDollar(Identifier(prefix))
  {
  }

  lemma {:induction false} SecondField(id: string, rest: string)
    requires NoDollar(id)
    ensures Fields("$" + id + "$" + rest) == ["", id] + Fields(rest)
  {
    var tail := id + "$" + rest;
    Assoc("$" + id, "$", rest);
    Assoc("$", id, "$" + rest);
    Assoc(id, "$", rest);
    assert "" + "$" == "$";
    FirstField("", tail);
    FirstField(id, rest);
    assert [""] + ([id] + Fields(rest)) == ["", id] + Fields(rest);
  }

  lemma {:induction false} IdentifierFirst(prefix: string, rest: string)
    requires KnownPrefix(prefix)
    ensures Fields(prefix + rest) == ["", Identifier(prefix)] + Fields(rest)
  {
    PrefixSplits(prefix);
    SecondField(Identifier(prefix), rest);
  }

  lemma {:induction false} TwoFields(a: string, b: string)
    requires NoDollar(a) && NoDollar(b)
    ensures Fields(a + "$" + b) == [a, b]
  {
    FirstField(a, b);
    LastField(b);
  }

  /** What stands behind the method in a setting. */
  function Rest(prefix: string, rounds: nat, random: seq<Byte>): seq<string>
    requires RoundsFit(prefix, rounds) && |random| == RANDOM_BYTES
  {
    if Sha(prefix) && rounds != 0 then ["rounds=" + Decimal(rounds), Salt(random, 16), ""]
    else if prefix == BCRYPT then [TwoDigits(rounds), Salt(random, 22)]
    else [Salt(random, 16), ""]
  }

  lemma {:induction false} PlainRest(prefix: string, salt: string)
    requires KnownPrefix(prefix) && NoDollar(salt)
    ensures Fields(prefix + salt + "$") == ["", Identifier(prefix), salt, ""]
  {
    Assoc(prefix, salt, "$");
    IdentifierFirst(prefix, salt + "$");
    TwoFields(salt, "");
    assert salt + "$" + "" == salt + "$";
  }

  lemma {:induction false} BcryptRest(cost: string, salt: string)
    requires NoDollar(cost) && NoDollar(salt)
    ensures Fields(BCRYPT + cost + "$" + salt) == ["", Identifier(BCRYPT), cost, salt]
  {
    Assoc(BCRYPT + cost, "$", salt);
    Assoc(BCRYPT, cost, "$" + salt);
    Assoc(cost, "$", salt);
    IdentifierFirst(BCRYPT, cost + "$" + salt);
    TwoFields(cost, salt);
  }

  lemma {:induction false} ShaRest(prefix: string, number: string, salt: string)
    requires Sha(prefix) && NoDollar(number) && NoDollar(salt)
    ensures Fields(prefix + "rounds=" + number + "$" + salt + "$") ==
      ["", Identifier(prefix), "rounds=" + number, salt, ""]
  {
    var cost, tail := "rounds=" + number, salt + "$";
    Assoc(prefix, "rounds=", number);
    Assoc(prefix, cost, "$");
    Assoc(prefix, cost + "$", salt);
    Assoc(prefix, cost + "$" + salt, "$");
    Assoc(cost + "$", salt, "$");
    IdentifierFirst(prefix, cost + "$" + tail);
    FirstField(cost, tail);
    TwoFields(salt, "");
    assert tail + "" == tail;
  }

  /** A setting read back: the method, the cost where one is printed, and the salt, with a
      dollar sign behind it except for bcrypt. */
  lemma SettingFields(prefix: string, rounds: nat, random: seq<Byte>)
    requires KnownPrefix(prefix) && RoundsFit(prefix, rounds) && |random| == RANDOM_BYTES
    ensures Fields(Setting(prefix, rounds, random)) == ["", Identifier(prefix)] + Rest(prefix, rounds, random)
  {
    SaltPlain(random, 16);
    SaltPlain(random, 22);
    var head, rest := ["", Identifier(prefix)], Rest(prefix, rounds, random);
    if Sha(prefix) && rounds != 0 {
      DecimalPlain(rounds);
      ShaRest(prefix, Decimal(rounds), Salt(random, 16));
      assert head + rest == ["", Identifier(prefix), rest[0], rest[1], ""];
    } else if prefix == BCRYPT {
      BcryptRest(TwoDigits(rounds), Salt(random, 22));
      assert head + rest == ["", Identifier(prefix), rest[0], rest[1]];
    } else {
      PlainRest(prefix, Salt(random, 16));
      assert head + rest == ["", Identifier(prefix), rest[0], ""];
    }
  }

  /** The printed cost of bcrypt reads back. */
  lemma NumberOfTwoDigits(n: nat)
    requires n < 100
    ensures |TwoDigits(n)| == 2 && Number(TwoDigits(n)) == n
  {
    assert TwoDigits(n)[..1] == [DigitChar(n / 10)] && Number([DigitChar(n / 10)]) == n / 10 by {
      assert [DigitChar(n / 10)][..0] == "";
    }
  }

  predicate Sha(prefix: string) { prefix == SHA256 || prefix == SHA512 }

  /** With rounds, '=' follows "rounds"; without, a salt character is there. */
  lemma ShaShape(prefix: string, rounds: nat, random: seq<Byte>)
    requires Sha(prefix) && |random| == RANDOM_BYTES
    ensures |Setting(prefix, rounds, random)| > 9
    ensures rounds != 0 <==> Setting(prefix, rounds, random)[9] == '='
  {
    SaltPlain(random, 16);
    if rounds == 0 { assert Setting(prefix, rounds, random)[9] == Salt(random, 16)[6]; }
  }

  lemma {:induction false} DecimalPlain(n: nat)
    ensures NoDollar(Decimal(n))
  {
  }

  /** Two SHA settings of the same method with the same shape. */
  lemma ShaUnambiguous(prefix: string, r: nat, r': nat, random: seq<Byte>, random': seq<Byte>)
    requires Sha(prefix) && |random| == |random'| == RANDOM_BYTES
    requires Setting(prefix, r, random) == Setting(prefix, r', random')
    ensures r == r' && Salt(random, 16) == Salt(random', 16)
  {
    ShaShape(prefix, r, random);
    ShaShape(prefix, r', random');
    var tail, tail' := Salt(random, 16) + "$", Salt(random', 16) + "$";
    if r != 0 {
      var head := prefix + "rounds=";
      assert Setting(prefix, r, random) == head + (Decimal(r) + "$" + tail);
      assert Setting(prefix, r', random') == head + (Decimal(r') + "$" + tail');
      SameHead(head, Decimal(r) + "$" + tail, Decimal(r') + "$" + tail');
      DecimalPlain(r);
      DecimalPlain(r');
      SplitAtDollar(Decimal(r), Decimal(r'), tail, tail');
      NumberOfDecimal(r);
      NumberOfDecimal(r');
    } else {
      assert Setting(prefix, r, random) == prefix + tail;
      assert Setting(prefix, r', random') == prefix + tail';
      SameHead(prefix, tail, tail');
    }
    assert Salt(random, 16) == tail[..16] == tail'[..16] == Salt(random', 16);
  }

  lemma SameHead(head: string, x: string, y: string)
    requires head + x == head + y
    ensures x == y
  {
    assert x == (head + x)[|head|..] == (head + y)[|head|..] == y;
  }

  lemma BcryptUnambiguous(r: nat, r': nat, random: seq<Byte>, random': seq<Byte>)
    requires 0 < r < 100 && 0 < r' < 100 && |random| == |random'| == RANDOM_BYTES
    requires Setting(BCRYPT, r, random) == Setting(BCRYPT, r', random')
    ensures r == r' && Salt(random, 22) == Salt(random', 22)
  {
    var s, s' := Setting(BCRYPT, r, random), Setting(BCRYPT, r', random');
    assert s[4] == DigitChar(r / 10) && s'[4] == DigitChar(r' / 10);
    assert s[5] == DigitChar(r % 10) && s'[5] == DigitChar(r' % 10);
    assert Salt(random, 22) == s[7..] == s'[7..] == Salt(random', 22);
  }

  /** The first characters tell the methods apart. */
  lemma PrefixDetermined(prefix: string, prefix': string, r: nat, r': nat, random: seq<Byte>, random': seq<Byte>)
    requires KnownPrefix(prefix) && KnownPrefix(prefix') && |random| == |random'| == RANDOM_BYTES
    requires (prefix == BCRYPT ==> r < 100) && (prefix' == BCRYPT ==> r' < 100)
    requires Setting(prefix, r, random) == Setting(prefix', r', random')
    ensures prefix == prefix'
  {
    assert Setting(prefix, r, random)[1] == prefix[1];
    assert Setting(prefix', r', random')[1] == prefix'[1];
  }

  /** Two settings are equal exactly when the method, the salt bits and, for the methods
      that print it, the cost are equal. For yescrypt the configured cost has no effect on
      the setting. */
  lemma SettingEqualIff(prefix: string, prefix': string, r: nat, r': nat, random: seq<Byte>, random': seq<Byte>)
    requires KnownPrefix(prefix) && KnownPrefix(prefix') && |random| == |random'| == RANDOM_BYTES
    requires RoundsFit(prefix, r) && RoundsFit(prefix', r')
    ensures Setting(prefix, r, random) == Setting(prefix', r', random') <==>
      && prefix == prefix'
      && (forall i :: 0 <= i < RANDOM_BYTES ==> random[i] % 64 == random'[i] % 64)
      && (r == r' || prefix == YESCRYPT)
  {
    SaltDetermines(random, random', 16);
    SaltDetermines(random, random', 22);
    if Setting(prefix, r, random) == Setting(prefix', r', random') {
      PrefixDetermined(prefix, prefix', r, r', random, random');
      if Sha(prefix) {
        ShaUnambiguous(prefix, r, r', random, random');
      } else if prefix == BCRYPT {
        BcryptUnambiguous(r, r', random, random');
      } else {
        var tail, tail' := Salt(random, 16) + "$", Salt(random', 16) + "$";
        assert Setting(prefix, r, random) == prefix + tail && Setting(prefix, r', random') == prefix + tail';
        SameHead(prefix, tail, tail');
        assert Salt(random, 16) == tail[..16] == tail'[..16] == Salt(random', 16);
      }
    }
  }
}
