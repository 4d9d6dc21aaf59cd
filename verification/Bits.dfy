/** Unsigned machine words as natural numbers, with the bitwise operators of the source
    defined on binary digits and the 64-bit width written out. */
module Bits {
  const WORD: nat := 0x1_0000_0000_0000_0000
  const WORD32: nat := 0x1_0000_0000

  function Pow2(k: nat): (p: nat)
    ensures p > 0
  {
    if k == 0 then 1 else 2 * Pow2(k - 1)
  }

  /** `x | y` */
  function Or(x: nat, y: nat): nat
    decreases x + y
  {
    if x == 0 then y
    else if y == 0 then x
    else 2 * Or(x / 2, y / 2) + (if x % 2 == 1 || y % 2 == 1 then 1 else 0)
  }

  /** `x & y` */
  function And(x: nat, y: nat): nat
    decreases x + y
  {
    if x == 0 || y == 0 then 0
    else 2 * And(x / 2, y / 2) + (if x % 2 == 1 && y % 2 == 1 then 1 else 0)
  }

  /** `x << k` on a 64-bit word */
  function ShiftLeft(x: nat, k: nat): nat
    decreases k
  {
    if k == 0 then x % WORD else ShiftLeft((2 * x) % WORD, k - 1)
  }

  /** `x >> k` */
  function ShiftRight(x: nat, k: nat): nat
    decreases k
  {
    if k == 0 then x else ShiftRight(x / 2, k - 1)
  }

  lemma {:induction false} OrAssociative(x: nat, y: nat, z: nat)
    ensures Or(Or(x, y), z) == Or(x, Or(y, z))
    decreases x + y + z
  {
    if x != 0 && y != 0 && z != 0 {
      OrAssociative(x / 2, y / 2, z / 2);
      assert Or(x, y) / 2 == Or(x / 2, y / 2);
      assert Or(y, z) / 2 == Or(y / 2, z / 2);
    }
  }

  /** Words with no common bit: OR is addition. */
  lemma {:induction false} OrDisjoint(low: nat, high: nat, k: nat)
    requires low < Pow2(k)
    ensures Or(low, high * Pow2(k)) == low + high * Pow2(k)
  {
    if k != 0 {
      var shifted := high * Pow2(k - 1);
      assert high * Pow2(k) == 2 * shifted;
      OrDisjoint(low / 2, high, k - 1);
      assert shifted == 0 || Or(low, 2 * shifted) == low + 2 * shifted by {
        if low != 0 && shifted != 0 {
          assert (2 * shifted) / 2 == shifted && (2 * shifted) % 2 == 0;
        }
      }
    }
  }

  lemma MulAtLeast(a: nat, m: nat)
    requires a > 0
    ensures a * m >= m
  {
    assert a * m == (a - 1) * m + m;
  }

  lemma EuclidUnique(q: nat, r: nat, q': nat, r': nat, m: nat)
    requires r < m && r' < m && q * m + r == q' * m + r'
    ensures q == q' && r == r'
  {
    if q > q' {
      assert (q - q') * m == q * m - q' * m;
      MulAtLeast(q - q', m);
    } else if q < q' {
      assert (q' - q) * m == q' * m - q * m;
      MulAtLeast(q' - q, m);
    }
  }

  lemma DivModUnique(x: nat, m: nat, q: nat, r: nat)
    requires r < m && x == q * m + r
    ensures x % m == r && x / m == q
  {
    EuclidUnique(x / m, x % m, q, r, m);
  }

  lemma ModDouble(x: nat, m: nat)
    requires m > 0
    ensures x % (2 * m) == 2 * ((x / 2) % m) + x % 2
  {
    var q, r, odd := (x / 2) / m, (x / 2) % m, x % 2;
    DoubledSum(x, q, r, odd, m);
    DivModUnique(x, 2 * m, q, 2 * r + odd);
  }

  lemma DoubledSum(x: nat, q: nat, r: nat, odd: nat, m: nat)
    requires x == 2 * (q * m + r) + odd
    ensures x == q * (2 * m) + (2 * r + odd)
  {
    assert q * (2 * m) == 2 * (q * m);
  }

  /** Masking with 2^k - 1 is the remainder. */
  lemma {:induction false} AndMask(x: nat, k: nat)
    ensures And(x, Pow2(k) - 1) == x % Pow2(k)
  {
    if k != 0 {
      var half := Pow2(k - 1);
      AndMask(x / 2, k - 1);
      ModDouble(x, half);
      AndOdd(x, half);
    }
  }

  lemma AndOdd(x: nat, half: nat)
    requires half > 0
    ensures And(x, 2 * half - 1) == 2 * And(x / 2, half - 1) + x % 2
  {
    assert (2 * half - 1) / 2 == half - 1 && (2 * half - 1) % 2 == 1;
  }

  /** Masking with the top bit of a word of k + 1 bits. */
  lemma {:induction false} AndTop(x: nat, k: nat)
    requires x < 2 * Pow2(k)
    ensures And(x, Pow2(k)) == if x >= Pow2(k) then Pow2(k) else 0
  {
    if k != 0 {
      AndTop(x / 2, k - 1);
      assert Pow2(k) / 2 == Pow2(k - 1) && Pow2(k) % 2 == 0;
    }
  }

  lemma {:induction false} Pow2Adds(j: nat, k: nat)
    ensures Pow2(j + k) == Pow2(j) * Pow2(k)
  {
    if j != 0 {
      Pow2Adds(j - 1, k);
    }
  }

  lemma Pow2Word()
    ensures Pow2(7) == 128 && Pow2(64) == WORD
  {
    assert Pow2(4) == 16;
    Pow2Adds(4, 4);
    Pow2Adds(8, 8);
    Pow2Adds(16, 16);
    Pow2Adds(32, 32);
  }

  lemma {:induction false} ShiftLeftScales(x: nat, k: nat)
    ensures ShiftLeft(x, k) == (x * Pow2(k)) % WORD
    decreases k
  {
    if k != 0 {
      var p := Pow2(k - 1);
      ShiftLeftScales((2 * x) % WORD, k - 1);
      ScaledRemainder(2 * x, p, WORD);
      assert x * Pow2(k) == 2 * x * p;
    }
  }

  lemma ScaledRemainder(x: nat, p: nat, w: nat)
    requires w > 0
    ensures ((x % w) * p) % w == (x * p) % w
  {
    var q, r := x / w, x % w;
    var q', r' := (r * p) / w, (r * p) % w;
    ScaledQuotient(x, q, r, p, q', r', w);
    DivModUnique(x * p, w, q * p + q', r');
  }

  lemma ScaledQuotient(x: nat, q: nat, r: nat, p: nat, q': nat, r': nat, w: nat)
    requires x == q * w + r && r * p == q' * w + r'
    ensures x * p == (q * p + q') * w + r'
  {
    assert x * p == (q * w) * p + r * p;
    assert (q * w) * p == (q * p) * w;
  }

  /** What a left shift keeps: the digits that still fit. */
  lemma ShiftLeftKeeps(x: nat, k: nat) returns (kept: nat)
    requires k <= 64
    ensures ShiftLeft(x, k) == (x * Pow2(k)) % WORD == kept * Pow2(k)
    ensures ShiftLeft(x, k) + Pow2(k) <= WORD
  {
    var m, p := Pow2(64 - k), Pow2(k);
    Pow2Word();
    Pow2Adds(64 - k, k);
    ScaledDivision(x, m, p);
    ShiftLeftScales(x, k);
    kept := x % m;
  }

  lemma ScaledDivision(x: nat, m: nat, p: nat)
    requires m > 0 && p > 0
    ensures m * p > 0 && (x * p) % (m * p) == (x % m) * p
    ensures (x % m) * p + p <= m * p
  {
    var q, r := x / m, x % m;
    ScaledSum(x, q, r, m, p);
    MulAtLeast(m - r, p);
    assert (m - r) * p == m * p - r * p;
    assert m * p > 0 by { MulAtLeast(m, p); }
    DivModUnique(x * p, m * p, q, r * p);
  }

  lemma ScaledSum(x: nat, q: nat, r: nat, m: nat, p: nat)
    requires x == q * m + r
    ensures x * p == q * (m * p) + r * p
  {
  }
}
