/** The pieces of the C library the repository's text code rests on: NUL-terminated
    strings, character classes, decimal numerals, `strchr`, `strtol` and `snprintf`.
    One Dafny `char` stands for one byte. */
module CStrings {

  const NUL: char := '\0'

  datatype Option<T> = None | Some(value: T)

  function Min(a: nat, b: nat): (r: nat) {
    if a <= b then a else b
  }

  predicate IsDigit(c: char) {
    '0' <= c <= '9'
  }

  predicate IsSpace(c: char) {
    c == ' ' || '\t' <= c <= '\r'
  }

  predicate AllDigits(s: string) {
    forall i :: 0 <= i < |s| ==> IsDigit(s[i])
  }

  /** The C string that starts at the first byte of `s`. */
  function CStr(s: seq<char>): (r: string)
    ensures r <= s && NUL !in r
    ensures |r| < |s| ==> s[|r|] == NUL
  {
    if s == [] || s[0] == NUL then [] else [s[0]] + CStr(s[1..])
  }

  /** The C string is determined by the position of its terminator alone. */
  lemma {:induction false} CStrIs(t: string, rest: seq<char>)
    requires NUL !in t
    requires rest == [] || rest[0] == NUL
    ensures CStr(t + rest) == t
  {
    if t != "" {
      assert (t + rest)[1..] == t[1..] + rest;
      CStrIs(t[1..], rest);
    }
  }

  /** `strchr` as an index: the first position of `c`, or the length. */
  function IndexOf(s: string, c: char): (i: nat)
    ensures i <= |s| && c !in s[..i]
    ensures i < |s| ==> s[i] == c
  {
    if s == [] || s[0] == c then 0
    else
      var i := 1 + IndexOf(s[1..], c);
      assert s[..i] == [s[0]] + s[1..][..i - 1];
      i
  }

  lemma {:induction false} IndexOfAt(pre: string, c: char, post: string)
    requires c !in pre
    ensures IndexOf(pre + [c] + post, c) == |pre|
  {
    if pre != "" {
      assert (pre + [c] + post)[1..] == pre[1..] + [c] + post;
      IndexOfAt(pre[1..], c, post);
    }
  }

  lemma IndexOfNone(s: string, c: char)
    requires c !in s
    ensures IndexOf(s, c) == |s|
  {
  }

  // ---------------------------------------------------------------- numerals

  function DigitChar(d: nat): (c: char)
    requires d < 10
    ensures IsDigit(c) && DigitOf(c) == d
  {
    '0' + d as char
  }

  function DigitOf(c: char): (d: nat)
    requires IsDigit(c)
    ensures d < 10
  {
    c as int - '0' as int
  }

  /** What `%d` prints for a non-negative number. */
  function Decimal(n: nat): (s: string)
    ensures |s| > 0 && AllDigits(s) && Value(s) == n
  {
    if n < 10 then [DigitChar(n)]
    else
      var s := Decimal(n / 10) + [DigitChar(n % 10)];
      assert s[..|s| - 1] == Decimal(n / 10);
      s
  }

  /** The number a digit string denotes. */
  function Value(s: string): (n: nat)
    requires AllDigits(s)
  {
    if s == [] then 0 else 10 * Value(s[..|s| - 1]) + DigitOf(s[|s| - 1])
  }

  lemma ThreeDigits(n: nat)
    requires n < 1000
    ensures |Decimal(n)| <= 3 && (|Decimal(n)| == 3 <==> n >= 100)
  {
    if n >= 10 {
      assert |Decimal(n)| == |Decimal(n / 10)| + 1;
      if n / 10 >= 10 {
        assert |Decimal(n / 10)| == |Decimal(n / 10 / 10)| + 1;
        assert n / 10 / 10 < 10;
      }
    }
  }

  /** Cutting digits off the end of a numeral divides it: the value can only shrink, and a
      proper prefix of a numeral printed by `%d` never has the value of the whole, except
      the numeral of zero. */
  lemma {:induction false} PrefixValue(s: string, k: nat)
    requires AllDigits(s) && k <= |s|
    ensures Value(s[..k]) <= Value(s)
    ensures k < |s| && Value(s) > 0 ==> Value(s[..k]) < Value(s)
  {
    if k == |s| {
      assert s[..k] == s;
    } else {
      var t := s[..|s| - 1];
      assert t[..k] == s[..k];
      PrefixValue(t, k);
    }
  }

  const LONG_MAX := 0x7FFF_FFFF_FFFF_FFFF

  function LeadingSpaces(s: string): (i: nat)
    ensures i <= |s|
  {
    if s == [] || !IsSpace(s[0]) then 0 else 1 + LeadingSpaces(s[1..])
  }

  function LeadingDigits(s: string): (i: nat)
    ensures i <= |s| && AllDigits(s[..i])
    ensures AllDigits(s) ==> i == |s|
  {
    if s == [] || !IsDigit(s[0]) then 0
    else
      var i := 1 + LeadingDigits(s[1..]);
      assert s[..i] == [s[0]] + s[1..][..i - 1];
      assert AllDigits(s) ==> AllDigits(s[1..]);
      i
  }

  /** `strtol(s, &end, 10)` for a 64-bit `long`: the (clamped) value and how many characters
      `end` lies beyond `s`. */
  datatype Strtol = Strtol(value: int, used: nat)

  function ParseLong(s: string): (r: Strtol)
    ensures r.used <= |s|
  {
    var blank := LeadingSpaces(s);
    var signed := blank < |s| && (s[blank] == '-' || s[blank] == '+');
    ReadDigits(s, if signed then blank + 1 else blank, signed && s[blank] == '-')
  }

  /** The digits of `s` from `first` on. */
  function ReadDigits(s: string, first: nat, negative: bool): (r: Strtol)
    requires first <= |s|
    ensures r.used <= |s|
  {
    var n := LeadingDigits(s[first..]);
    if n == 0 then Strtol(0, 0)
    else
      var v: int := Value(s[first..][..n]);
      if negative then Strtol(if v > LONG_MAX + 1 then -LONG_MAX - 1 else -v, first + n)
      else Strtol(if v > LONG_MAX then LONG_MAX else v, first + n)
  }

  lemma ParseLongDigits(s: string)
    requires AllDigits(s) && Value(s) <= LONG_MAX
    ensures ParseLong(s) == Strtol(Value(s), |s|)
  {
    assert s == "" ==> Value(s) == 0;
    hide Value;
    if s != [] {
      assert IsDigit(s[0]);
      assert s[0..] == s && s[..|s|] == s;
    }
  }

  /** The white space of the C locale: space, and the bytes from horizontal tab to carriage return. */
  predicate IsBlank(c: char) {
    c as int in {9, 10, 11, 12, 13, 32}
  }

  predicate Blanks(s: string) {
    forall i :: 0 <= i < |s| ==> IsBlank(s[i])
  }

  lemma {:induction false} SkipsBlanks(blanks: string, rest: string)
    requires Blanks(blanks) && (rest == "" || !IsBlank(rest[0]))
    ensures LeadingSpaces(blanks + rest) == |blanks|
  {
    if blanks == "" {
      assert blanks + rest == rest;
    } else {
      assert IsBlank(blanks[0]) && (blanks + rest)[1..] == blanks[1..] + rest;
      SkipsBlanks(blanks[1..], rest);
    }
  }

  lemma {:induction false} TakesDigits(d: string, rest: string)
    requires AllDigits(d) && (rest == "" || !IsDigit(rest[0]))
    ensures LeadingDigits(d + rest) == |d|
  {
    if d == "" {
      assert d + rest == rest;
    } else {
      assert (d + rest)[1..] == d[1..] + rest;
      TakesDigits(d[1..], rest);
    }
  }

  predicate IsSign(sign: string) {
    sign == "" || sign == "+" || sign == "-"
  }

  /** The value of a signed numeral, clamped to a 64-bit `long`. */
  function Clamped(sign: string, v: int): int {
    if sign == "-" then (if v > 0x8000_0000_0000_0000 then -0x8000_0000_0000_0000 else -v)
    else if v > 0x7FFF_FFFF_FFFF_FFFF then 0x7FFF_FFFF_FFFF_FFFF
    else v
  }

  /** Reading digits depends on what follows alone. */
  lemma DigitsAfter(pre: string, text: string, sign: string)
    requires IsSign(sign)
    ensures var n := LeadingDigits(text);
      ReadDigits(pre + text, |pre|, sign == "-") ==
        if n == 0 then Strtol(0, 0) else Strtol(Clamped(sign, Value(text[..n])), |pre| + n)
  {
    hide LeadingDigits, Value;
    assert (pre + text)[|pre|..] == text;
  }

  /** After white space and a sign `strtol` depends on what follows them alone. */
  lemma ParseLongAfter(blanks: string, sign: string, text: string)
    requires Blanks(blanks) && IsSign(sign)
    requires sign == "" ==> text == "" || (!IsBlank(text[0]) && text[0] != '+' && text[0] != '-')
    ensures var n := LeadingDigits(text);
      ParseLong(blanks + (sign + text)) ==
        if n == 0 then Strtol(0, 0) else Strtol(Clamped(sign, Value(text[..n])), |blanks| + |sign| + n)
  {
    hide LeadingDigits, LeadingSpaces, Value, Blanks, ReadDigits, Clamped;
    var tail := sign + text;
    var s := blanks + tail;
    SkipsBlanks(blanks, tail);
    assert tail != "" ==> s[|blanks|] == tail[0];
    assert s == (blanks + sign) + text;
    DigitsAfter(blanks + sign, text, sign);
  }

  lemma DigitIsPlain(c: char)
    requires IsDigit(c)
    ensures !IsBlank(c) && c != '+' && c != '-'
  {
  }

  /** `strtol` reads white space, one sign and all the digits that follow. */
  lemma StrtolReads(blanks: string, sign: string, d: string, rest: string)
    requires Blanks(blanks) && IsSign(sign) && d != "" && AllDigits(d) && (rest == "" || !IsDigit(rest[0]))
    ensures ParseLong(blanks + (sign + (d + rest))) == Strtol(Clamped(sign, Value(d)), |blanks| + |sign| + |d|)
  {
    hide ParseLong, LeadingDigits, Value, Clamped, IsBlank, Blanks, IsSign;
    DigitIsPlain(d[0]);
    var text := d + rest;
    assert text[0] == d[0] && text[..|d|] == d;
    TakesDigits(d, rest);
    ParseLongAfter(blanks, sign, text);
  }

  /** Without a digit there `strtol` reads nothing. */
  lemma StrtolReadsNothing(blanks: string, sign: string, rest: string)
    requires Blanks(blanks) && IsSign(sign) && (rest == "" || !IsDigit(rest[0]))
    requires sign == "" ==> rest == "" || (!IsBlank(rest[0]) && rest[0] != '+' && rest[0] != '-')
    ensures ParseLong(blanks + (sign + rest)) == Strtol(0, 0)
  {
    hide ParseLong, LeadingDigits;
    TakesDigits("", rest);
    assert "" + rest == rest;
    ParseLongAfter(blanks, sign, rest);
  }

  /** Numerals have no leading zeros. */
  lemma {:induction false} DecimalIsShortest(n: nat)
    ensures Decimal(n)[0] == '0' ==> n == 0 && Decimal(n) == "0"
  {
    if n >= 10 {
      DecimalIsShortest(n / 10);
      assert Decimal(n)[0] == Decimal(n / 10)[0];
    }
  }

  // ---------------------------------------------------------------- snprintf

  /** A buffer with the longest prefix of `text` that leaves room for its NUL in `size` bytes at
      `off`; with no room at all nothing is written. */
  function Printed(b: seq<char>, off: nat, size: nat, text: string): (r: seq<char>)
    requires size > 0 ==> off + size <= |b|
    ensures |r| == |b|
  {
    if size == 0 then b
    else
      var k := Min(|text|, size - 1);
      b[..off] + text[..k] + [NUL] + b[off + k + 1..]
  }

  lemma PrintedAt(b: seq<char>, off: nat, size: nat, text: string, i: nat)
    requires 0 < size && off + size <= |b| && i < |b|
    ensures var k := Min(|text|, size - 1);
      Printed(b, off, size, text)[i] == if off <= i < off + k then text[i - off] else if i == off + k then NUL else b[i]
  {
  }

  /** `snprintf(buf + off, size, …)` printing `text`. */
  method Snprintf(buf: array<char>, off: nat, size: nat, text: string) returns (n: nat)
    requires size > 0 ==> off + size <= buf.Length
    modifies buf
    ensures n == |text|
    ensures buf[..] == Printed(old(buf[..]), off, size, text)
  {
    ghost var b := buf[..];
    if size > 0 {
      var k := Min(|text|, size - 1);
      forall i | 0 <= i < k {
        buf[off + i] := text[i];
      }
      buf[off + k] := NUL;
      hide Printed;
      forall i | 0 <= i < |b| ensures buf[i] == Printed(b, off, size, text)[i] {
        PrintedAt(b, off, size, text, i);
      }
    }
    n := |text|;
  }
}
