/** The string operations of Go's `strings`, `strconv` and `encoding/hex` packages that the
    server relies on. A string is a sequence of code points. */
module Text {
  import opened Wrappers

  newtype byte = x: int | 0 <= x < 0x100

  const INT64_MIN: int := -0x8000_0000_0000_0000
  const INT64_MAX: int := 0x7FFF_FFFF_FFFF_FFFF

  predicate IsInt64(n: int) {
    INT64_MIN <= n <= INT64_MAX
  }

  // ---------------------------------------------------------------- trimming

  /** unicode.IsSpace: the code points with the White_Space property. */
  predicate IsSpace(c: char) {
    var n := c as int;
    || 9 <= n <= 13 || n == 0x20 || n == 0x85 || n == 0xA0 || n == 0x1680
    || 0x2000 <= n <= 0x200A || n == 0x2028 || n == 0x2029 || n == 0x202F || n == 0x205F || n == 0x3000
  }

  predicate IsQuote(c: char) {
    c == '"' || c == '\''
  }

  function TrimLeft(s: string, cut: char -> bool): string {
    if s != "" && cut(s[0]) then TrimLeft(s[1..], cut) else s
  }

  function TrimRight(s: string, cut: char -> bool): string {
    if s != "" && cut(s[|s| - 1]) then TrimRight(s[..|s| - 1], cut) else s
  }

  function Trim(s: string, cut: char -> bool): string {
    TrimRight(TrimLeft(s, cut), cut)
  }

  function TrimSpace(s: string): string {
    Trim(s, IsSpace)
  }

  /** No character that `cut` accepts stands at either end. */
  predicate CleanEnds(s: string, cut: char -> bool) {
    s == "" || (!cut(s[0]) && !cut(s[|s| - 1]))
  }

  ghost predicate AllCut(s: string, cut: char -> bool) {
    forall i :: 0 <= i < |s| ==> cut(s[i])
  }

  lemma {:induction false} TrimLeftSplits(s: string, cut: char -> bool) returns (left: string)
    ensures s == left + TrimLeft(s, cut) && AllCut(left, cut)
    ensures TrimLeft(s, cut) == "" || !cut(TrimLeft(s, cut)[0])
  {
    if s != "" && cut(s[0]) {
      var rest := TrimLeftSplits(s[1..], cut);
      left := [s[0]] + rest;
    } else {
      left := "";
    }
  }

  lemma {:induction false} TrimRightSplits(s: string, cut: char -> bool) returns (right: string)
    ensures s == TrimRight(s, cut) + right && AllCut(right, cut)
    ensures TrimRight(s, cut) == "" || !cut(TrimRight(s, cut)[|TrimRight(s, cut)| - 1])
  {
    if s != "" && cut(s[|s| - 1]) {
      var rest := TrimRightSplits(s[..|s| - 1], cut);
      right := rest + [s[|s| - 1]];
    } else {
      right := "";
    }
  }

  lemma {:induction false} TrimLeftOf(left: string, s: string, cut: char -> bool)
    requires AllCut(left, cut) && (s == "" || !cut(s[0]))
    ensures TrimLeft(left + s, cut) == s
  {
    if left == "" {
      assert left + s == s;
    } else {
      TrimLeftOf(left[1..], s, cut);
      assert (left + s)[1..] == left[1..] + s;
    }
  }

  lemma {:induction false} TrimRightOf(s: string, right: string, cut: char -> bool)
    requires AllCut(right, cut) && (s == "" || !cut(s[|s| - 1]))
    ensures TrimRight(s + right, cut) == s
    decreases |right|
  {
    if right == "" {
      assert s + right == s;
    } else {
      TrimRightOf(s, right[..|right| - 1], cut);
      assert (s + right)[..|s + right| - 1] == s + right[..|right| - 1];
    }
  }

  /** What is left between cut characters, if its own ends are clean, is the trimmed string. */
  lemma TrimUnique(left: string, t: string, right: string, cut: char -> bool)
    requires AllCut(left, cut) && AllCut(right, cut) && CleanEnds(t, cut)
    ensures Trim(left + t + right, cut) == t
  {
    if t == "" {
      TrimLeftOf(left + right, "", cut);
      assert left + t + right == left + right + "";
    } else {
      TrimLeftOf(left, t + right, cut);
      TrimRightOf(t, right, cut);
      assert left + t + right == left + (t + right);
    }
  }

  /** Trimming removes cut characters at the two ends and nothing else. */
  lemma TrimSplits(s: string, cut: char -> bool) returns (left: string, right: string)
    ensures s == left + Trim(s, cut) + right
    ensures AllCut(left, cut) && AllCut(right, cut) && CleanEnds(Trim(s, cut), cut)
  {
    left := TrimLeftSplits(s, cut);
    right := TrimRightSplits(TrimLeft(s, cut), cut);
  }

  /** Exactly the strings with clean ends are left alone. */
  lemma TrimFixpoint(s: string, cut: char -> bool)
    ensures Trim(s, cut) == s <==> CleanEnds(s, cut)
  {
    var left, right := TrimSplits(s, cut);
  }

  lemma TrimIdempotent(s: string, cut: char -> bool)
    ensures Trim(Trim(s, cut), cut) == Trim(s, cut)
  {
    var left, right := TrimSplits(s, cut);
    TrimFixpoint(Trim(s, cut), cut);
  }

  /** A prefix with a clean first character survives trimming; only the tail is trimmed. */
  lemma {:induction false} TrimKeepsPrefix(p: string, s: string, cut: char -> bool)
    requires p != "" && CleanEnds(p, cut)
    ensures Trim(p + s, cut) == p + TrimRight(s, cut)
    decreases |s|
  {
    assert TrimLeft(p + s, cut) == p + s;
    if s == "" {
      assert p + s == p;
    } else if cut(s[|s| - 1]) {
      assert (p + s)[..|p + s| - 1] == p + s[..|s| - 1];
      TrimKeepsPrefix(p, s[..|s| - 1], cut);
      assert TrimLeft(p + s[..|s| - 1], cut) == p + s[..|s| - 1];
    }
  }

  // --------------------------------------------------------------- splitting

  function IndexOf(s: string, sep: char): (i: nat)
    ensures i <= |s|
    ensures forall j :: 0 <= j < i ==> s[j] != sep
    ensures i < |s| ==> s[i] == sep
  {
    if s == "" || s[0] == sep then 0 else 1 + IndexOf(s[1..], sep)
  }

  /** strings.Split with a one-character separator. */
  function Split(s: string, sep: char): (parts: seq<string>)
    ensures |parts| > 0
    decreases |s|
  {
    var i := IndexOf(s, sep);
    if i == |s| then [s] else [s[..i]] + Split(s[i + 1..], sep)
  }

  function Join(parts: seq<string>, sep: char): string
    requires |parts| > 0
  {
    if |parts| == 1 then parts[0] else parts[0] + [sep] + Join(parts[1..], sep)
  }

  lemma IndexOfPrefix(a: string, b: string, sep: char)
    requires sep !in a
    ensures IndexOf(a + [sep] + b, sep) == |a|
  {
    var s := a + [sep] + b;
    assert s[|a|] == sep;
    assert forall j :: 0 <= j < |a| ==> s[j] == a[j];
  }

  lemma SplitPrefix(a: string, b: string, sep: char)
    requires sep !in a
    ensures Split(a + [sep] + b, sep) == [a] + Split(b, sep)
  {
    IndexOfPrefix(a, b, sep);
    var s := a + [sep] + b;
    assert s[..|a|] == a;
    assert s[|a| + 1..] == b;
  }

  /** Splitting undoes joining: the pieces come back, whatever they are. */
  lemma {:induction false} SplitJoin(parts: seq<string>, sep: char)
    requires |parts| > 0 && forall i :: 0 <= i < |parts| ==> sep !in parts[i]
    ensures Split(Join(parts, sep), sep) == parts
    decreases |parts|
  {
    if |parts| > 1 {
      SplitJoin(parts[1..], sep);
      SplitPrefix(parts[0], Join(parts[1..], sep), sep);
      assert parts == [parts[0]] + parts[1..];
    } else {
      assert parts == [parts[0]];
    }
  }

  /** Joining undoes splitting, and no piece holds the separator. */
  lemma {:induction false} JoinSplit(s: string, sep: char)
    ensures Join(Split(s, sep), sep) == s
    ensures forall i :: 0 <= i < |Split(s, sep)| ==> sep !in Split(s, sep)[i]
    decreases |s|
  {
    var i := IndexOf(s, sep);
    if i < |s| {
      JoinSplit(s[i + 1..], sep);
      var tail := Split(s[i + 1..], sep);
      var parts := Split(s, sep);
      assert parts == [s[..i]] + tail;
      assert parts[1..] == tail;
      assert s == s[..i] + [sep] + s[i + 1..];
    }
  }

  lemma JoinTwo(a: string, b: string, sep: char)
    ensures Join([a, b], sep) == a + [sep] + b
  {
    assert [a, b][1..] == [b];
  }

  lemma JoinThree(a: string, b: string, c: string, sep: char)
    ensures Join([a, b, c], sep) == a + [sep] + b + [sep] + c
  {
    assert [a, b, c][1..] == [b, c];
    JoinTwo(b, c, sep);
    assert a + [sep] + (b + [sep] + c) == a + [sep] + b + [sep] + c;
  }

  lemma SplitTwo(a: string, b: string, sep: char)
    requires sep !in a && sep !in b
    ensures Split(a + [sep] + b, sep) == [a, b]
  {
    JoinTwo(a, b, sep);
    SplitJoin([a, b], sep);
  }

  lemma SplitThree(a: string, b: string, c: string, sep: char)
    requires sep !in a && sep !in b && sep !in c
    ensures Split(a + [sep] + b + [sep] + c, sep) == [a, b, c]
  {
    JoinThree(a, b, c, sep);
    SplitJoin([a, b, c], sep);
  }

  // ------------------------------------------------------------------ digits

  function Digit(n: nat): (c: char)
    requires n < 10
    ensures '0' <= c <= '9' && c as int - '0' as int == n
  {
    ('0' as int + n) as char
  }

  function Digits(n: nat): (s: string)
    ensures |s| > 0
    ensures forall i :: 0 <= i < |s| ==> '0' <= s[i] <= '9'
  {
    if n < 10 then [Digit(n)] else Digits(n / 10) + [Digit(n % 10)]
  }

  /** fmt's %d. */
  function FormatInt(n: int): string {
    if n < 0 then "-" + Digits(-n) else Digits(n)
  }

  predicate IsDigits(s: string) {
    forall i :: 0 <= i < |s| ==> '0' <= s[i] <= '9'
  }

  function DigitsValue(s: string): nat
    requires IsDigits(s)
  {
    if s == "" then 0 else 10 * DigitsValue(s[..|s| - 1]) + (s[|s| - 1] as int - '0' as int)
  }

  /** strconv.ParseInt(s, 10, 64): an optional sign, at least one digit, nothing else, in range. */
  function ParseInt(s: string): Option<int> {
    var signed := s != "" && (s[0] == '+' || s[0] == '-');
    var digits := if signed then s[1..] else s;
    if digits == "" || !IsDigits(digits) then None
    else
      var n: int := if signed && s[0] == '-' then -(DigitsValue(digits) as int) else DigitsValue(digits);
      if IsInt64(n) then Some(n) else None
  }

  lemma {:induction false} DigitsRoundTrip(n: nat)
    ensures DigitsValue(Digits(n)) == n
  {
    if n < 10 {
      assert Digits(n)[..0] == "";
    } else {
      DigitsRoundTrip(n / 10);
      var s := Digits(n);
      assert s[..|s| - 1] == Digits(n / 10);
    }
  }

  lemma ParseSigned(digits: string)
    requires digits != "" && IsDigits(digits) && IsInt64(-(DigitsValue(digits) as int))
    ensures ParseInt("-" + digits) == Some(-(DigitsValue(digits) as int))
  {
    assert ("-" + digits)[1..] == digits;
  }

  lemma ParseUnsigned(digits: string)
    requires digits != "" && IsDigits(digits) && IsInt64(DigitsValue(digits))
    ensures ParseInt(digits) == Some(DigitsValue(digits))
  {}

  /** Parsing undoes printing on every 64-bit integer. */
  lemma ParseFormat(n: int)
    requires IsInt64(n)
    ensures ParseInt(FormatInt(n)) == Some(n)
  {
    var digits := Digits(if n < 0 then -n else n);
    assert IsDigits(digits);
    DigitsRoundTrip(if n < 0 then -n else n);
    if n < 0 {
      ParseSigned(digits);
      assert FormatInt(n) == "-" + digits;
    } else {
      ParseUnsigned(digits);
      assert FormatInt(n) == digits;
    }
  }

  predicate IsZeros(s: string) {
    forall i :: 0 <= i < |s| ==> s[i] == '0'
  }

  lemma DigitsValueSnoc(s: string, c: char)
    requires IsDigits(s) && '0' <= c <= '9'
    ensures IsDigits(s + [c]) && DigitsValue(s + [c]) == 10 * DigitsValue(s) + (c as int - '0' as int)
  {
    assert (s + [c])[..|s|] == s;
  }

  /** Leading zeros do not change a value. */
  lemma {:induction false} ZerosAreWorthless(zeros: string, n: nat)
    requires IsZeros(zeros)
    ensures IsDigits(zeros + Digits(n)) && DigitsValue(zeros + Digits(n)) == n
  {
    if n < 10 {
      ZerosHaveNoValue(zeros);
      DigitsValueSnoc(zeros, Digit(n));
    } else {
      ZerosAreWorthless(zeros, n / 10);
      DigitsValueSnoc(zeros + Digits(n / 10), Digit(n % 10));
      assert zeros + Digits(n) == zeros + Digits(n / 10) + [Digit(n % 10)];
    }
  }

  lemma {:induction false} ZerosHaveNoValue(zeros: string)
    requires IsZeros(zeros)
    ensures DigitsValue(zeros) == 0
  {
    if zeros != "" {
      ZerosHaveNoValue(zeros[..|zeros| - 1]);
    }
  }

  /** Every string of digits is the printed number after some zeros. */
  lemma {:induction false} DigitsAreZerosAndNumber(s: string) returns (zeros: string)
    requires s != "" && IsDigits(s)
    ensures IsZeros(zeros) && s == zeros + Digits(DigitsValue(s))
  {
    var init, d := s[..|s| - 1], s[|s| - 1];
    assert s == init + [d];
    if init == "" {
      zeros := "";
      assert DigitsValue(init) == 0;
      assert s == [Digit(d as int - '0' as int)];
    } else {
      var z := DigitsAreZerosAndNumber(init);
      var v := DigitsValue(init);
      if v == 0 {
        zeros := init;
        ZerosOnly(init);
        assert Digits(DigitsValue(s)) == [d];
      } else {
        zeros := z;
        var n := DigitsValue(s);
        assert n == 10 * v + (d as int - '0' as int);
        assert n / 10 == v && n % 10 == d as int - '0' as int;
        assert Digits(n) == Digits(v) + [Digit(n % 10)];
      }
    }
  }

  lemma {:induction false} ZerosOnly(s: string)
    requires IsDigits(s) && DigitsValue(s) == 0
    ensures IsZeros(s)
  {
    if s != "" {
      ZerosOnly(s[..|s| - 1]);
    }
  }

  /** A sign that goes with `n`, or none. */
  predicate SignOf(sign: string, n: int) {
    if n < 0 then sign == "-" else sign == "" || sign == "+" || (n == 0 && sign == "-")
  }

  /** `s` is a 64-bit number as printed, but for a plus sign and leading zeros. */
  ghost predicate Spells(s: string, n: int) {
    IsInt64(n) && exists sign, zeros :: SignOf(sign, n) && IsZeros(zeros) && s == sign + (zeros + Digits(Abs(n)))
  }

  function Abs(n: int): nat {
    if n < 0 then -n else n
  }

  lemma SignIsSeen(sign: string, digits: string)
    requires (sign == "" || sign == "+" || sign == "-") && digits != "" && IsDigits(digits)
    ensures var s := sign + digits;
            && (sign != "" <==> s[0] == '+' || s[0] == '-') && (sign == "-" <==> s[0] == '-')
            && s[|sign|..] == digits
  {
  }

  lemma ParseIntParts(sign: string, digits: string)
    requires (sign == "" || sign == "+" || sign == "-") && digits != "" && IsDigits(digits)
    ensures var v: int := DigitsValue(digits);
            var n := if sign == "-" then -v else v;
            ParseInt(sign + digits) == if IsInt64(n) then Some(n) else None
  {
    SignIsSeen(sign, digits);
  }

  lemma SpellingsAreParsed(s: string, n: int)
    requires Spells(s, n)
    ensures ParseInt(s) == Some(n)
  {
    var sign, zeros :| SignOf(sign, n) && IsZeros(zeros) && s == sign + (zeros + Digits(Abs(n)));
    ZerosAreWorthless(zeros, Abs(n));
    SignedDigitsAreParsed(sign, zeros + Digits(Abs(n)), n);
  }

  lemma SignedDigitsAreParsed(sign: string, digits: string, n: int)
    requires SignOf(sign, n) && IsInt64(n) && digits != "" && IsDigits(digits) && DigitsValue(digits) == Abs(n)
    ensures ParseInt(sign + digits) == Some(n)
  {
    ParseIntParts(sign, digits);
  }

  lemma ParsedIsSpelling(s: string, n: int)
    requires ParseInt(s) == Some(n)
    ensures Spells(s, n)
  {
    var signed := s != "" && (s[0] == '+' || s[0] == '-');
    var sign, digits := if signed then s[..1] else "", if signed then s[1..] else s;
    assert signed ==> sign == [s[0]];
    assert s == sign + digits;
    ParseIntParts(sign, digits);
    var zeros := DigitsAreZerosAndNumber(digits);
    assert SignOf(sign, n);
    assert DigitsValue(digits) == Abs(n);
  }

  /** ParseInt accepts exactly the spellings of 64-bit numbers. */
  lemma ParseIntSpells(s: string, n: int)
    ensures ParseInt(s) == Some(n) <==> Spells(s, n)
  {
    if ParseInt(s) == Some(n) {
      ParsedIsSpelling(s, n);
    }
    if Spells(s, n) {
      SpellingsAreParsed(s, n);
    }
  }

  // --------------------------------------------------------------------- hex

  function HexDigit(n: nat): (c: char)
    requires n < 16
    ensures c in "0123456789abcdef" && "0123456789abcdef"[n] == c
  {
    "0123456789abcdef"[n]
  }

  function HexByte(b: byte): (s: string)
    ensures |s| == 2
    ensures forall c :: c in s ==> c in "0123456789abcdef"
  {
    [HexDigit(b as int / 16), HexDigit(b as int % 16)]
  }

  /** hex.EncodeToString. */
  function Hex(bs: seq<byte>): (s: string)
    ensures |s| == 2 * |bs|
    ensures forall c :: c in s ==> c in "0123456789abcdef"
  {
    if bs == [] then "" else HexByte(bs[0]) + Hex(bs[1..])
  }

  lemma HexDigitInjective(m: nat, n: nat)
    requires m < 16 && n < 16 && HexDigit(m) == HexDigit(n)
    ensures m == n
  {
    var d := "0123456789abcdef";
    assert forall i, j :: 0 <= i < j < 16 ==> d[i] < d[j];
  }

  lemma HexByteInjective(a: byte, b: byte)
    requires HexByte(a) == HexByte(b)
    ensures a == b
  {
    assert HexByte(a)[0] == HexByte(b)[0] && HexByte(a)[1] == HexByte(b)[1];
    HexDigitInjective(a as int / 16, b as int / 16);
    HexDigitInjective(a as int % 16, b as int % 16);
  }

  lemma HexTail(a: seq<byte>)
    requires a != []
    ensures Hex(a)[..2] == HexByte(a[0]) && Hex(a)[2..] == Hex(a[1..])
  {
  }

  lemma {:induction false} HexInjective(a: seq<byte>, b: seq<byte>)
    requires Hex(a) == Hex(b)
    ensures a == b
  {
    assert |a| == |b|;
    if a != [] {
      HexTail(a);
      HexTail(b);
      HexInjective(a[1..], b[1..]);
      HexByteInjective(a[0], b[0]);
      assert a == [a[0]] + a[1..] && b == [b[0]] + b[1..];
    }
  }
}
