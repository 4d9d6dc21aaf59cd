/** The base-128 variable length code of 64-bit words. */
module Varint {
  import opened Wrappers
  import opened Bits

  type Byte = b: nat | b < 256

  /** The decoder never reads past these bytes. */
  ghost predicate Readable(s: seq<Byte>) {
    |s| >= 10 || exists k :: 0 <= k < |s| && s[k] < 128
  }

  /** A code word's value: seven low bits of each byte, least significant group first. */
  function Weighted(s: seq<Byte>): nat {
    if s == [] then 0 else s[0] % 128 + 128 * Weighted(s[1..])
  }

  /** The first index at or after `from` whose byte ends the code word, or 10 when none of the
      first ten bytes does. */
  ghost function Terminator(s: seq<Byte>, from: nat := 0): (n: nat)
    requires Readable(s)
    requires from <= 10 && forall k :: 0 <= k < from && k < |s| ==> s[k] >= 128
    ensures from <= n <= 10 && n <= |s|
    ensures forall k :: 0 <= k < n ==> s[k] >= 128
    ensures n < 10 ==> n < |s| && s[n] < 128
    decreases 10 - from
  {
    if from == 10 || s[from] < 128 then from else Terminator(s, from + 1)
  }

  /** The value of the first `n` bytes, in 64 bits. */
  ghost function Meaning(s: seq<Byte>, n: nat): nat
    requires n <= |s|
  {
    Weighted(s[..n]) % WORD
  }

  datatype Decoded = Decoded(value: nat, length: nat)

  /** What a decoder must return for the bytes `s`: nothing when the first ten bytes all carry the
      top bit, otherwise the code word's value in 64 bits and the code word's length. */
  ghost function Decoding(s: seq<Byte>): Option<Decoded>
    requires Readable(s)
  {
    var n := Terminator(s);
    if n == 10 then None else Some(Decoded(Meaning(s, n + 1), n + 1))
  }

  function Encoding(value: nat): (s: seq<Byte>)
    ensures s != []
  {
    if value < 128 then [value] else [value % 128 + 128] + Encoding(value / 128)
  }

  /** Writes the code word of `value` at `start` and returns the position after it. */
  method EncodeVarint(buffer: array<Byte>, start: nat, value: nat) returns (end: nat)
    requires value < WORD
    requires start + |Encoding(value)| <= buffer.Length
    modifies buffer
    ensures end == start + |Encoding(value)|
    ensures buffer[start..end] == Encoding(value)
    ensures buffer[..start] == old(buffer[..start]) && buffer[end..] == old(buffer[end..])
  {
    hide Or, And, ShiftRight;
    var rest := value;
    end := start;
    while rest >= 128
      invariant start <= end && end + |Encoding(rest)| == start + |Encoding(value)|
      invariant buffer[start..end] + Encoding(rest) == Encoding(value)
      invariant buffer[..start] == old(buffer[..start])
      invariant forall k :: end <= k < buffer.Length ==> buffer[k] == old(buffer[k])
      decreases rest
    {
      ghost var written := buffer[start..end];
      GroupByte(rest);
      buffer[end] := Or(And(rest, 127), 128);
      assert buffer[start..end + 1] == written + [rest % 128 + 128];
      assert buffer[start..end + 1] + Encoding(rest / 128) == written + Encoding(rest);
      end := end + 1;
      rest := ShiftRight(rest, 7);
    }
    ghost var written := buffer[start..end];
    buffer[end] := rest;
    assert buffer[start..end + 1] == written + [rest];
    end := end + 1;
  }

  lemma GroupByte(rest: nat)
    ensures Or(And(rest, 127), 128) == rest % 128 + 128
    ensures ShiftRight(rest, 7) == rest / 128
  {
    Pow2Word();
    AndMask(rest, 7);
    OrDisjoint(rest % 128, 1, 7);
  }

  /** Reads a code word from the bytes `s` into a word that already holds `initial`; the groups are
      OR-ed in. The returned position is the one after the code word. */
  method DecodeVarint(s: seq<Byte>, initial: nat) returns (end: Option<nat>, value: nat)
    requires Readable(s) && initial < WORD
    ensures Decoding(s) == None ==> end == None && value == Or(initial, Meaning(s, 10))
    ensures Decoding(s) != None ==>
      end == Some(Decoding(s).value.length) && value == Or(initial, Decoding(s).value.value)
  {
    hide Or, And, ShiftLeft;
    assert Or(initial, Meaning(s, 0)) == initial by { OrZero(initial); }
    value := initial;
    var shift, i := 0, 0;
    while shift < 64
      invariant 0 <= i <= Terminator(s) && shift == 7 * i
      invariant value == Or(initial, Meaning(s, i))
      decreases 70 - shift
    {
      var b := s[i];
      NextGroup(s, i, initial, value, shift);
      if And(b, 128) != 0 {
        value := Or(value, ShiftLeft(And(b, 127), shift));
      } else {
        value := Or(value, ShiftLeft(b, shift));
        return Some(i + 1), value;
      }
      i := i + 1;
      shift := shift + 7;
    }
    end := None;
  }

  lemma OrZero(x: nat)
    ensures Or(x, 0) == Or(0, x) == x
  {
  }

  lemma TopBit(b: Byte)
    ensures And(b, 128) != 0 <==> b >= 128
    ensures And(b, 127) == b % 128
  {
    Pow2Word();
    AndTop(b, 7);
    AndMask(b, 7);
  }

  lemma NextGroup(s: seq<Byte>, i: nat, initial: nat, value: nat, shift: nat)
    requires i < 10 && i < |s|
    requires value == Or(initial, Meaning(s, i)) && shift == 7 * i
    ensures Or(value, ShiftLeft(And(s[i], 127), shift)) == Or(initial, Meaning(s, i + 1))
    ensures And(s[i], 128) != 0 <==> s[i] >= 128
    ensures s[i] < 128 ==> And(s[i], 127) == s[i]
  {
    hide Or, And, ShiftLeft;
    TopBit(s[i]);
    OrAssociative(initial, Meaning(s, i), ShiftLeft(s[i] % 128, 7 * i));
    AppendGroup(s[..i], s[i]);
    assert s[..i + 1] == s[..i] + [s[i]];
  }

  lemma {:induction false} WeightedAppend(s: seq<Byte>, b: Byte)
    ensures Weighted(s + [b]) == Weighted(s) + (b % 128) * Pow2(7 * |s|)
    ensures Weighted(s) < Pow2(7 * |s|)
  {
    if s == [] {
      assert s + [b] == [b];
    } else {
      var rest := s[1..];
      WeightedAppend(rest, b);
      assert (s + [b])[1..] == rest + [b];
      Pow2Adds(7, 7 * |rest|);
      Pow2Word();
      var p := Pow2(7 * |rest|);
      assert (b % 128) * (128 * p) == 128 * ((b % 128) * p);
    }
  }

  /** OR-ing the next group in is adding it, in 64 bits. */
  lemma AppendGroup(s: seq<Byte>, b: Byte)
    requires |s| < 10
    ensures Or(Weighted(s) % WORD, ShiftLeft(b % 128, 7 * |s|)) == Weighted(s + [b]) % WORD
  {
    hide Weighted, Or, ShiftLeft, Pow2;
    WeightedAppend(s, b);
    OrGroup(Weighted(s), b % 128, 7 * |s|);
  }

  lemma OrGroup(low: nat, group: nat, k: nat)
    requires low < Pow2(k) && k <= 64
    ensures Or(low % WORD, ShiftLeft(group, k)) == (low + group * Pow2(k)) % WORD
  {
    FitsWord(low, k);
    var kept := ShiftLeftKeeps(group, k);
    OrScaled(low, group * Pow2(k), kept, k, WORD);
  }

  lemma OrScaled(low: nat, x: nat, kept: nat, k: nat, w: nat)
    requires w > 0 && x % w == kept * Pow2(k)
    requires low < Pow2(k) && x % w + Pow2(k) <= w
    ensures Or(low, x % w) == (low + x) % w
  {
    OrDisjoint(low, kept, k);
    AddNoCarry(low, x, w);
  }

  lemma FitsWord(low: nat, k: nat)
    requires low < Pow2(k) && k <= 64
    ensures low < WORD && low % WORD == low
  {
    Pow2Word();
    Pow2Adds(k, 64 - k);
    MulAtLeast(Pow2(64 - k), Pow2(k));
  }

  lemma AddNoCarry(low: nat, x: nat, w: nat)
    requires w > 0 && low + x % w < w
    ensures (low + x) % w == low + x % w
  {
    DivModUnique(low + x, w, x / w, low + x % w);
  }

  // ---- What the code promises ----

  /** The decoder fails exactly when the first ten bytes all carry the top bit; otherwise it stops at
      the first byte that does not, and returns the groups up to there as base-128 digits. */
  lemma DecodingMeaning(s: seq<Byte>)
    requires Readable(s)
    ensures Decoding(s) == None <==> |s| >= 10 && forall k :: 0 <= k < 10 ==> s[k] >= 128
    ensures Decoding(s).Some? ==>
      var d := Decoding(s).value;
      && 1 <= d.length <= 10 && d.length <= |s|
      && s[d.length - 1] < 128 && (forall k :: 0 <= k < d.length - 1 ==> s[k] >= 128)
      && d.value == DigitSum(s, d.length) % WORD
  {
    if Decoding(s).Some? {
      WeightedIsDigitSum(s, Decoding(s).value.length);
    }
  }

  /** The sum over i < n of (s[i] mod 128) * 128^i. */
  function DigitSum(s: seq<Byte>, n: nat): nat
    requires n <= |s|
  {
    if n == 0 then 0 else DigitSum(s, n - 1) + (s[n - 1] % 128) * Pow2(7 * (n - 1))
  }

  lemma {:induction false} WeightedIsDigitSum(s: seq<Byte>, n: nat)
    requires n <= |s|
    ensures Weighted(s[..n]) == DigitSum(s, n)
  {
    if n != 0 {
      WeightedIsDigitSum(s, n - 1);
      WeightedAppend(s[..n - 1], s[n - 1]);
      assert s[..n] == s[..n - 1] + [s[n - 1]];
    }
  }

  /** An encoding's digits are the value's, and only its last byte lacks the top bit. */
  lemma {:induction false} EncodingShape(v: nat)
    ensures Weighted(Encoding(v)) == v
    ensures var e := Encoding(v); e[|e| - 1] < 128 && forall i :: 0 <= i < |e| - 1 ==> e[i] >= 128
    decreases v
  {
    if v >= 128 {
      EncodingShape(v / 128);
      assert Encoding(v)[1..] == Encoding(v / 128);
    }
  }

  /** An encoding has k bytes or fewer exactly when the value fits k groups of seven bits. */
  lemma {:induction false} EncodingLength(v: nat, k: nat)
    requires k > 0
    ensures |Encoding(v)| <= k <==> v < Pow2(7 * k)
    decreases v
  {
    SevenMoreBits(k - 1);
    if v >= 128 && k > 1 {
      EncodingLength(v / 128, k - 1);
    }
  }

  lemma SevenMoreBits(j: nat)
    ensures Pow2(7 * (j + 1)) == 128 * Pow2(7 * j)
  {
    Pow2Word();
    Pow2Adds(7, 7 * j);
  }

  /** Encoding then decoding, with anything after it, gives the value back and consumes the encoding
      exactly; an encoding has one to ten bytes. */
  lemma RoundTrip(v: nat, tail: seq<Byte>)
    requires v < WORD
    ensures 1 <= |Encoding(v)| <= 10 && Readable(Encoding(v) + tail)
    ensures Decoding(Encoding(v) + tail) == Some(Decoded(v, |Encoding(v)|))
  {
    hide Weighted, Encoding, Pow2;
    var e := Encoding(v);
    var s := e + tail;
    assert |e| <= 10 by { TenGroupsSuffice(v); EncodingLength(v, 10); }
    EncodingShape(v);
    assert s[|e| - 1] < 128;
    TerminatorUnique(s, |e| - 1);
    assert s[..|e|] == e;
  }

  lemma TenGroupsSuffice(v: nat)
    requires v < WORD
    ensures v < Pow2(70)
  {
    Pow2Word();
    Pow2Adds(6, 64);
    MulAtLeast(Pow2(6), WORD);
  }

  lemma TerminatorUnique(s: seq<Byte>, n: nat)
    requires n < |s| && n < 10 && s[n] < 128
    requires forall k :: 0 <= k < n ==> s[k] >= 128
    ensures Readable(s) && Terminator(s) == n
  {
  }

  /** No accepted byte string that decodes to `v` is shorter than the encoding of `v`. */
  lemma Shortest(s: seq<Byte>)
    requires Readable(s) && Decoding(s).Some?
    ensures var d := Decoding(s).value; |Encoding(d.value)| <= d.length
  {
    var d := Decoding(s).value;
    WeightedAppend(s[..d.length], 0);
    RemainderBelow(Weighted(s[..d.length]), WORD);
    EncodingLength(d.value, d.length);
  }

  lemma RemainderBelow(x: nat, w: nat)
    requires w > 0
    ensures x % w <= x
  {
  }

  /** No encoding is a prefix of another one. */
  lemma PrefixFree(v: nat, w: nat)
    requires v < WORD && w < WORD && Encoding(v) <= Encoding(w)
    ensures v == w
  {
    var tail := Encoding(w)[|Encoding(v)|..];
    assert Encoding(w) == Encoding(v) + tail == Encoding(w) + [];
    RoundTrip(v, tail);
    RoundTrip(w, []);
  }
}
