/** Decimal text of integers, as the stream operators print and read it. */
module Decimal {
  import Bits

  const INT32_MIN := -0x8000_0000
  const INT32_MAX := 0x7fff_ffff
  const UINT32_MAX := 0xffff_ffff
  const INT64_MIN := -0x8000_0000_0000_0000
  const INT64_MAX := 0x7fff_ffff_ffff_ffff
  const UINT64_MAX := 0xffff_ffff_ffff_ffff

  predicate IsDigit(c: char) { '0' <= c <= '9' }

  predicate IsSpace(c: char) { c == ' ' || '\t' <= c <= '\r' }

  function DigitChar(d: nat): (c: char)
    requires d < 10
    ensures IsDigit(c) && c as int - '0' as int == d
  {
    (d + '0' as int) as char
  }

  /** The digits of `n`, most significant first. */
  function Digits(n: nat): (s: string)
    ensures s != [] && forall i :: 0 <= i < |s| ==> IsDigit(s[i])
  {
    if n < 10 then [DigitChar(n)] else Digits(n / 10) + [DigitChar(n % 10)]
  }

  function Print(i: int): string {
    if i < 0 then "-" + Digits(-i) else Digits(i)
  }

  function SkipSpace(s: string): string {
    if s != [] && IsSpace(s[0]) then SkipSpace(s[1..]) else s
  }

  /** Reads digits onto `sofar` until the first character that is none. */
  function ReadDigits(s: string, sofar: nat := 0): nat {
    if s != [] && IsDigit(s[0]) then ReadDigits(s[1..], 10 * sofar + (s[0] as int - '0' as int)) else sofar
  }

  datatype Scanned = Scanned(negative: bool, digits: string)

  /** Leading white space and one sign. */
  function Scan(s: string): Scanned {
    var t := SkipSpace(s);
    if t != [] && t[0] == '-' then Scanned(true, t[1..])
    else if t != [] && t[0] == '+' then Scanned(false, t[1..])
    else Scanned(false, t)
  }

  /** Extraction into a signed integer: 0 when there is no digit, the nearest limit when out of range. */
  function ReadSigned(s: string, low: int, high: int): int {
    var t := Scan(s);
    var n: int := ReadDigits(t.digits);
    var i := if t.negative then -n else n;
    if i < low then low else if i > high then high else i
  }

  /** Extraction into an unsigned integer: a sign negates modulo the range, too large a number gives the
      limit. */
  function ReadUnsigned(s: string, high: nat): nat {
    var t := Scan(s);
    var n := ReadDigits(t.digits);
    if n > high then high else if t.negative then (high + 1 - n) % (high + 1) else n
  }

  lemma {:induction false} ReadDigitsAppend(s: string, c: char, sofar: nat)
    requires IsDigit(c) && forall i :: 0 <= i < |s| ==> IsDigit(s[i])
    ensures ReadDigits(s + [c], sofar) == 10 * ReadDigits(s, sofar) + (c as int - '0' as int)
    decreases s
  {
    if s == [] {
      assert s + [c] == [c];
    } else {
      assert (s + [c])[1..] == s[1..] + [c];
      ReadDigitsAppend(s[1..], c, 10 * sofar + (s[0] as int - '0' as int));
    }
  }

  lemma {:induction false} ReadDigitsInverse(n: nat)
    ensures ReadDigits(Digits(n)) == n
  {
    if n >= 10 {
      ReadDigitsInverse(n / 10);
      ReadDigitsAppend(Digits(n / 10), DigitChar(n % 10), 0);
    }
  }

  lemma ScanPrint(i: int)
    ensures Scan(Print(i)) == Scanned(i < 0, Digits(if i < 0 then -i else i))
  {
  }

  /** Printing then reading gives every integer of a range back. */
  lemma ReadSignedInverse(i: int, low: int, high: int)
    requires low <= i <= high
    ensures ReadSigned(Print(i), low, high) == i
  {
    ScanPrint(i);
    ReadDigitsInverse(if i < 0 then -i else i);
  }

  lemma ReadUnsignedInverse(n: nat, high: nat)
    requires n <= high
    ensures ReadUnsigned(Print(n), high) == n
  {
    ScanPrint(n);
    ReadDigitsInverse(n);
  }

  lemma {:induction false} DigitsInjective(m: nat, n: nat)
    requires Digits(m) == Digits(n)
    ensures m == n
  {
    ReadDigitsInverse(m);
    ReadDigitsInverse(n);
  }

  function Pow10(k: nat): (p: nat)
    ensures p > 0
  {
    if k == 0 then 1 else 10 * Pow10(k - 1)
  }

  /** Counted from the right, digit k of a number stands for tens to the k, and the first is not 0 unless it is the
      only one. */
  lemma {:induction false} DigitsMeaning(n: nat, k: nat)
    requires k < |Digits(n)|
    ensures Digits(n)[|Digits(n)| - 1 - k] as int - '0' as int == n / Pow10(k) % 10
    ensures |Digits(n)| > 1 ==> Digits(n)[0] != '0'
  {
    if n >= 10 {
      var front := Digits(n / 10);
      assert Digits(n) == front + [DigitChar(n % 10)];
      if k > 0 {
        DigitsMeaning(n / 10, k - 1);
        assert Digits(n)[|Digits(n)| - 1 - k] == front[|front| - 1 - (k - 1)];
        DivideTwice(n, Pow10(k - 1));
      }
      DigitsMeaning(n / 10, 0);
    }
  }

  lemma DivideTwice(n: nat, p: nat)
    requires p > 0
    ensures n / 10 / p == n / (10 * p)
  {
    var q, r := n / 10 / p, n / 10 % p;
    assert n / 10 == p * q + r;
    assert n == (10 * p) * q + (10 * r + n % 10);
    Bits.DivModUnique(n, 10 * p, q, 10 * r + n % 10);
  }

  /** What follows the digits, and white space before the sign, are not read. */
  predicate Blanks(s: string) {
    forall c :: c in s ==> c == ' ' || '\t' <= c <= '\r'
  }

  lemma {:induction false} SkipBlanks(space: string, s: string)
    requires Blanks(space) && s != [] && !IsSpace(s[0])
    ensures SkipSpace(space + s) == s
  {
    if space == [] {
      assert space + s == s;
    } else {
      assert (space + s)[1..] == space[1..] + s;
      assert space[0] in space && forall c :: c in space[1..] ==> c in space;
      SkipBlanks(space[1..], s);
    }
  }

  lemma {:induction false} ReadDigitsStops(digits: string, rest: string, sofar: nat)
    requires forall i :: 0 <= i < |digits| ==> IsDigit(digits[i])
    requires rest != [] ==> !IsDigit(rest[0])
    ensures ReadDigits(digits + rest, sofar) == ReadDigits(digits, sofar)
  {
    if digits == [] {
      assert digits + rest == rest;
    } else {
      assert (digits + rest)[1..] == digits[1..] + rest;
      ReadDigitsStops(digits[1..], rest, 10 * sofar + (digits[0] as int - '0' as int));
    }
  }

  lemma ScanAround(space: string, i: int, rest: string)
    requires Blanks(space) && (rest != [] ==> !IsDigit(rest[0]))
    ensures var t := Scan(space + (Print(i) + rest));
      (t.negative <==> i < 0) && ReadDigits(t.digits) == if i < 0 then -i else i
  {
    hide Digits, ReadDigits, SkipSpace;
    var n := if i < 0 then -i else i;
    var s := Print(i) + rest;
    assert s[0] == Print(i)[0] && !IsSpace(s[0]);
    SkipBlanks(space, s);
    ReadDigitsStops(Digits(n), rest, 0);
    ReadDigitsInverse(n);
    if i < 0 {
      assert s[1..] == Digits(n) + rest;
    }
  }

  /** A number in a text, after white space and before anything that is no digit, is read as the number, or as the
      nearest limit when it is out of range. */
  lemma ReadSignedExactly(space: string, i: int, rest: string, low: int, high: int)
    requires Blanks(space) && (rest != [] ==> !IsDigit(rest[0]))
    ensures ReadSigned(space + (Print(i) + rest), low, high) == if i < low then low else if i > high then high else i
  {
    ScanAround(space, i, rest);
  }

  /** Into an unsigned integer a negative number is read modulo the range, and one that is too large, with its sign
      or without, as the limit. */
  lemma ReadUnsignedExactly(space: string, i: int, rest: string, high: nat)
    requires Blanks(space) && (rest != [] ==> !IsDigit(rest[0]))
    ensures var n := ReadUnsigned(space + (Print(i) + rest), high);
      && (i > high || -i > high ==> n == high)
      && (0 <= i <= high ==> n == i)
      && (0 < -i <= high ==> n == high + 1 + i)
  {
    hide Print, Scan, ReadDigits;
    ScanAround(space, i, rest);
    if 0 < -i <= high {
      SmallRemainder(high + 1 + i, high + 1);
    }
  }

  lemma SmallRemainder(x: nat, d: nat)
    requires x < d
    ensures x % d == x
  {
  }

  /** A plus sign is read over. */
  lemma ReadPlus(space: string, n: nat, rest: string, low: int, high: nat)
    requires Blanks(space) && (rest != [] ==> !IsDigit(rest[0])) && low <= 0
    ensures ReadSigned(space + ("+" + (Digits(n) + rest)), low, high) == if n > high then high else n
    ensures ReadUnsigned(space + ("+" + (Digits(n) + rest)), high) == if n > high then high else n
  {
    hide Digits, ReadDigits, SkipSpace;
    var s := "+" + (Digits(n) + rest);
    assert s[0] == '+' && !IsSpace(s[0]) && s[1..] == Digits(n) + rest;
    SkipBlanks(space, s);
    ReadDigitsStops(Digits(n), rest, 0);
    ReadDigitsInverse(n);
  }

  /** A text that starts with neither a digit, a sign nor white space is read as 0, or the limit nearest to 0. */
  lemma ReadNothing(s: string, low: int, high: int)
    requires s == [] || (!IsDigit(s[0]) && !IsSpace(s[0]) && s[0] != '-' && s[0] != '+')
    requires low <= 0 <= high
    ensures ReadSigned(s, low, high) == 0 && ReadUnsigned(s, high) == 0
  {
  }

  /** No decimal text holds a NUL, a brace, a comma, a quote, a backslash or a parenthesis. */
  lemma PrintPlain(i: int)
    ensures Print(i) != [] && forall k :: 0 <= k < |Print(i)| ==> IsDigit(Print(i)[k]) || Print(i)[k] == '-'
  {
  }
}
