/** The parts of Go's `strings` and `strconv` packages that the model needs, over `string` = `seq<char>`. */
module Text {
  import opened Wrappers

  /** Go's `unicode.IsSpace`: '\t', '\n', '\v', '\f', '\r', ' ', U+0085, U+00A0 and the
      Unicode space separators. */
  predicate IsSpace(c: char) {
    || '\t' <= c <= '\r' || c == ' ' || c == '\U{85}' || c == '\U{A0}' || c == '\U{1680}'
    || '\U{2000}' <= c <= '\U{200A}' || c == '\U{2028}' || c == '\U{2029}' || c == '\U{202F}'
    || c == '\U{205F}' || c == '\U{3000}'
  }

  predicate AllSpace(s: string) {
    forall i :: 0 <= i < |s| ==> IsSpace(s[i])
  }

  function TrimLeft(s: string): (r: string)
    ensures |r| <= |s| && r == s[|s| - |r|..]
    ensures r == [] || !IsSpace(r[0])
    ensures forall i :: 0 <= i < |s| - |r| ==> IsSpace(s[i])
  {
    if s != [] && IsSpace(s[0]) then TrimLeft(s[1..]) else s
  }

  function TrimRight(s: string): (r: string)
    ensures |r| <= |s| && r == s[..|r|]
    ensures r == [] || !IsSpace(r[|r| - 1])
    ensures forall i :: |r| <= i < |s| ==> IsSpace(s[i])
  {
    if s != [] && IsSpace(s[|s| - 1]) then TrimRight(s[..|s| - 1]) else s
  }

  /** No white space at either end. */
  predicate Trimmed(s: string) {
    s != [] ==> !IsSpace(s[0]) && !IsSpace(s[|s| - 1])
  }

  /** Go's `strings.TrimSpace`: drops leading and trailing white space. */
  function TrimSpace(s: string): (r: string)
    ensures |r| <= |s|
    ensures r == [] <==> AllSpace(s)
    ensures Trimmed(r)
  {
    var l := TrimLeft(s);
    TrimRight(l)
  }

  /** `r` is the slice of `s` that starts at `i`, with white space only before and after it. */
  predicate InfixAt(s: string, r: string, i: int) {
    && 0 <= i <= |s| - |r| && r == s[i..i + |r|]
    && (forall k :: 0 <= k < i ==> IsSpace(s[k]))
    && (forall k :: i + |r| <= k < |s| ==> IsSpace(s[k]))
  }

  /** The trimmed text is the part of the original left once an all-space prefix and an
      all-space suffix are removed. */
  lemma TrimSpaceInfix(s: string)
    ensures exists i :: InfixAt(s, TrimSpace(s), i)
  {
    TrimInfixAt(s);
    assert TrimSpace(s) == TrimRight(TrimLeft(s));
  }

  lemma TrimInfixAt(s: string)
    ensures InfixAt(s, TrimRight(TrimLeft(s)), |s| - |TrimLeft(s)|)
  {
    InfixOfParts(s, TrimLeft(s), TrimRight(TrimLeft(s)));
  }

  /** A suffix `l` of `s` after white space, and a prefix `r` of `l` before white space, make
      `r` an infix of `s` with white space on both sides. */
  lemma InfixOfParts(s: string, l: string, r: string)
    requires |l| <= |s| && l == s[|s| - |l|..] && forall k :: 0 <= k < |s| - |l| ==> IsSpace(s[k])
    requires |r| <= |l| && r == l[..|r|] && forall k :: |r| <= k < |l| ==> IsSpace(l[k])
    ensures InfixAt(s, r, |s| - |l|)
  {
    var i := |s| - |l|;
    assert r == s[i..i + |r|];
    forall k | i + |r| <= k < |s|
      ensures IsSpace(s[k])
    {
      assert s[k] == l[k - i];
    }
  }

  /** Trimming what is already trimmed changes nothing. */
  lemma TrimSpaceIdempotent(s: string)
    ensures TrimSpace(TrimSpace(s)) == TrimSpace(s)
  {
    var t := TrimSpace(s);
    if t != [] {
      assert TrimLeft(t) == t;
      assert TrimRight(t) == t;
    }
  }

  /** A string without white space at either end is its own trimmed form. */
  lemma TrimSpaceOfTrimmed(s: string)
    requires s != [] && !IsSpace(s[0]) && !IsSpace(s[|s| - 1])
    ensures TrimSpace(s) == s
  {
    assert TrimLeft(s) == s;
  }

  /** Number of bytes of the UTF-8 encoding of one character. */
  function Utf8Width(c: char): (n: nat)
    ensures 1 <= n <= 4
  {
    if c as int < 0x80 then 1
    else if c as int < 0x800 then 2
    else if c as int < 0x1_0000 then 3
    else 4
  }

  /** Go's `len` on a string: the length in bytes of its UTF-8 encoding. */
  function Utf8Length(s: string): (n: nat)
    ensures |s| <= n <= 4 * |s|
  {
    if s == [] then 0 else Utf8Width(s[0]) + Utf8Length(s[1..])
  }

  /** Go's `strings.Join`. */
  function Join(parts: seq<string>, sep: string): (r: string)
    ensures parts == [] ==> r == []
    ensures parts != [] ==> parts[0] <= r
  {
    if |parts| == 0 then []
    else if |parts| == 1 then parts[0]
    else parts[0] + sep + Join(parts[1..], sep)
  }

  /** Joining one more part appends the separator and the part. */
  lemma {:induction false} JoinAppend(parts: seq<string>, x: string, sep: string)
    requires parts != []
    ensures Join(parts + [x], sep) == Join(parts, sep) + sep + x
  {
    if |parts| > 1 {
      assert (parts + [x])[1..] == parts[1..] + [x];
      JoinAppend(parts[1..], x, sep);
    }
  }

  predicate IsDigit(c: char) {
    '0' <= c <= '9'
  }

  predicate AllDigits(s: string) {
    forall i :: 0 <= i < |s| ==> IsDigit(s[i])
  }

  /** The value of a decimal digit string, most significant digit first. */
  function DigitsValue(s: string): nat
    requires AllDigits(s)
  {
    if s == [] then 0 else DigitsValue(s[..|s| - 1]) * 10 + (s[|s| - 1] as int - '0' as int)
  }

  const MinInt64: int := -0x8000_0000_0000_0000
  const MaxInt64: int := 0x7FFF_FFFF_FFFF_FFFF

  /** A sign character `strconv.Atoi` accepts in front of the digits. */
  predicate IsSign(c: char) {
    c == '+' || c == '-'
  }

  /** No white space character is a digit or a sign, and none lies above U+3000. */
  lemma SpaceIsNotDigitOrSign(c: char)
    requires IsSpace(c)
    ensures !IsDigit(c) && !IsSign(c) && c <= '\U{3000}'
  {
  }

  /** Go's `strconv.Atoi` on a 64-bit platform: an optional sign, at least one decimal digit
      and nothing else, with a value inside the range of a 64-bit `int`. */
  function Atoi(s: string): (r: Option<int>)
    ensures r.Some? ==> s != [] && MinInt64 <= r.value <= MaxInt64
    ensures r.Some? ==> !IsSpace(s[0]) && !IsSpace(s[|s| - 1])
  {
    var negative := s != [] && s[0] == '-';
    var digits := if s != [] && IsSign(s[0]) then s[1..] else s;
    if digits == [] || !AllDigits(digits) then None
    else
      var magnitude: int := DigitsValue(digits);
      var v := if negative then -magnitude else magnitude;
      if MinInt64 <= v <= MaxInt64 then Some(v) else None
  }

  /** The texts `Atoi` accepts, and the value it gives: digits alone, or a '+' or '-' sign and
      then digits, within the range of a 64-bit `int`. */
  lemma AtoiSpec(s: string)
    ensures Atoi(s).Some? <==>
              || (s != [] && AllDigits(s) && DigitsValue(s) <= MaxInt64)
              || (|s| > 1 && s[0] == '+' && AllDigits(s[1..]) && DigitsValue(s[1..]) <= MaxInt64)
              || (|s| > 1 && s[0] == '-' && AllDigits(s[1..]) && DigitsValue(s[1..]) <= -MinInt64)
    ensures Atoi(s).Some? && !IsSign(s[0]) ==> Atoi(s).value == DigitsValue(s)
    ensures Atoi(s).Some? && s[0] == '+' ==> Atoi(s).value == DigitsValue(s[1..])
    ensures Atoi(s).Some? && s[0] == '-' ==> Atoi(s).value == -(DigitsValue(s[1..]) as int)
  {
    if s != [] && AllDigits(s) {
      assert !IsSign(s[0]);
    }
  }

  /** An unsigned digit string in range reads as its value. */
  lemma AtoiOfDigits(s: string)
    requires s != [] && AllDigits(s) && DigitsValue(s) <= MaxInt64
    ensures Atoi(s) == Some(DigitsValue(s))
  {
    assert s[0] != '+' && s[0] != '-';
  }

  /** Decimal form of a natural number, the reference that `Atoi` inverts. */
  function Itoa(n: nat): (s: string)
    ensures s != [] && AllDigits(s)
  {
    if n < 10 then [('0' as int + n) as char]
    else Itoa(n / 10) + [('0' as int + n % 10) as char]
  }

  lemma {:induction false} DigitsValueOfItoa(n: nat)
    ensures DigitsValue(Itoa(n)) == n
  {
    if n >= 10 {
      var s := Itoa(n);
      assert s[..|s| - 1] == Itoa(n / 10);
      DigitsValueOfItoa(n / 10);
    }
  }

  /** `Atoi` reads back every decimal form of a value in range, with or without a sign. */
  lemma AtoiItoa(n: nat)
    ensures n <= MaxInt64 ==> Atoi(Itoa(n)) == Some(n) && Atoi("+" + Itoa(n)) == Some(n)
    ensures n <= -MinInt64 ==> Atoi("-" + Itoa(n)) == Some(-(n as int))
  {
    DigitsValueOfItoa(n);
    var s := Itoa(n);
    AtoiSpec(s);
    AtoiSpec("+" + s);
    AtoiSpec("-" + s);
    assert ("+" + s)[1..] == s && ("-" + s)[1..] == s;
  }
}
