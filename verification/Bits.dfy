/** Unsigned 32-bit arithmetic: masks, ALIGN and roundUpToPageSize. A word is an int below
    MAX_WORD; the bitwise operators are defined on its binary digits. */
module Bits {
  const MAX_WORD := 0x1_0000_0000

  predicate IsWord(x: int) { 0 <= x < MAX_WORD }

  function Pow2(k: nat): (p: nat)
    ensures p > 0
  {
    if k == 0 then 1 else 2 * Pow2(k - 1)
  }

  /** x & y */
  function And(x: nat, y: nat): nat
  {
    if x == 0 || y == 0 then 0
    else 2 * And(x / 2, y / 2) + (if x % 2 == 1 && y % 2 == 1 then 1 else 0)
  }

  /** ~x */
  function Not(x: int): int
    requires IsWord(x)
    ensures IsWord(Not(x))
  {
    MAX_WORD - 1 - x
  }

  /** ALIGN(x, a) */
  function Align(x: int, a: int): int
    requires IsWord(x) && IsWord(a)
  {
    And((x + a - 1) % MAX_WORD, Not((a - 1) % MAX_WORD))
  }

  const PAGE_SIZE := 4096

  function RoundUpToPageSize(x: int): int
    requires IsWord(x)
  {
    And((x + (PAGE_SIZE - 1)) % MAX_WORD, Not(PAGE_SIZE - 1))
  }

  // ---------------------------------------------------------------- what masks compute

  lemma {:induction false} MulMonotone(p: int, q: int, a: int)
    requires a > 0 && p < q
    ensures p * a + a <= q * a
    decreases q - p
  {
    if p + 1 < q { MulMonotone(p, q - 1, a); }
    assert q * a == (q - 1) * a + a;
  }

  lemma {:induction false} MulGrows(p: int, q: int, a: nat)
    requires p <= q
    ensures p * a <= q * a
  {
    if p < q && a > 0 { MulMonotone(p, q, a); }
  }

  lemma {:induction false} RestIsUnique(x: int, a: int, q: int, r: int)
    requires a > 0 && x == q * a + r && 0 <= r < a
    ensures x % a == r && x / a == q
  {
    var q1, r1 := x / a, x % a;
    assert x == q1 * a + r1;
    if q1 > q { MulMonotone(q, q1, a); }
    if q1 < q { MulMonotone(q1, q, a); }
  }

  /** The least multiple of a that is not below x. */
  function RoundUp(x: int, a: int): (r: int)
    requires a > 0
    ensures r % a == 0 && x <= r < x + a
  {
    var q := (x + a - 1) / a;
    assert x + a - 1 == q * a + (x + a - 1) % a;
    RestIsUnique(q * a, a, q, 0);
    x + a - 1 - (x + a - 1) % a
  }

  lemma {:induction false} AndOnes(x: nat, n: nat)
    requires x < Pow2(n)
    ensures And(x, Pow2(n) - 1) == x
  {
    if n > 0 {
      AndOnes(x / 2, n - 1);
      assert (Pow2(n) - 1) / 2 == Pow2(n - 1) - 1;
    }
  }

  /** Masking with ones above position k clears the rest modulo 2^k. */
  lemma {:induction false} AndMask(x: nat, n: nat, k: nat)
    requires k <= n && x < Pow2(n)
    ensures Pow2(k) <= Pow2(n) && And(x, Pow2(n) - Pow2(k)) == x - x % Pow2(k)
  {
    if k == 0 {
      AndOnes(x, n);
    } else {
      AndMask(x / 2, n - 1, k - 1);
      HalfRest(x, Pow2(k - 1));
      var mask := Pow2(n) - Pow2(k);
      assert mask / 2 == Pow2(n - 1) - Pow2(k - 1) && mask % 2 == 0;
    }
  }

  lemma {:induction false} HalfRest(x: nat, p: nat)
    requires p > 0
    ensures x % (2 * p) == 2 * (x / 2 % p) + x % 2
  {
    var q, r := x / 2 / p, x / 2 % p;
    assert x == 2 * (q * p + r) + x % 2;
    assert x == q * (2 * p) + (2 * r + x % 2);
    RestIsUnique(x, 2 * p, q, 2 * r + x % 2);
  }

  lemma WordIsPow2()
    ensures Pow2(32) == MAX_WORD
  {
    assert Pow2(8) == 256;
    assert Pow2(16) == 0x1_0000;
    assert Pow2(24) == 0x100_0000;
  }

  lemma {:induction false} Pow2Grows(k: nat, n: nat)
    requires k <= n
    ensures Pow2(k) <= Pow2(n)
  {
    if k < n { Pow2Grows(k, n - 1); }
  }

  lemma {:induction false} MaskDown(x: int, k: nat)
    requires IsWord(x) && k < 32
    ensures IsWord(Pow2(k)) && And(x, Not(Pow2(k) - 1)) == x - x % Pow2(k)
  {
    WordIsPow2();
    Pow2Grows(k, 31);
    Pow2Step(31);
    AndMask(x, 32, k);
  }

  lemma {:induction false} AlignUnfolds(x: int, a: int, sum: int)
    requires IsWord(x) && 0 < a < MAX_WORD && IsWord(sum) && (x + a - 1 == sum || x + a - 1 == sum + MAX_WORD)
    ensures Align(x, a) == And(sum, Not(a - 1))
  {
    SmallRest(x + a - 1, sum);
    SmallRest(a - 1, a - 1);
  }

  /** ALIGN clears the rest of the sum, which may have overflowed. */
  lemma {:induction false} AlignIsDown(x: int, k: nat, sum: int)
    requires IsWord(x) && k < 32 && IsWord(sum) && 0 < Pow2(k) < MAX_WORD
    requires x + Pow2(k) - 1 == sum || x + Pow2(k) - 1 == sum + MAX_WORD
    ensures Align(x, Pow2(k)) == sum - sum % Pow2(k)
  {
    AlignUnfolds(x, Pow2(k), sum);
    MaskDown(sum, k);
  }

  lemma {:induction false} Pow2IsWord(k: nat)
    requires k < 32
    ensures 0 < Pow2(k) < MAX_WORD
  {
    WordIsPow2();
    Pow2Grows(k, 31);
    Pow2Step(31);
  }

  lemma {:induction false} AlignRounds(x: int, k: nat, a: int)
    requires IsWord(x) && k < 32 && a == Pow2(k) && 0 < a < MAX_WORD && x + a - 1 < MAX_WORD
    ensures Align(x, a) == RoundUp(x, a)
  {
    AlignIsDown(x, k, x + a - 1);
    DownIsUp(x, a);
  }

  lemma {:induction false} AlignOverflows(x: int, k: nat, a: int)
    requires IsWord(x) && k < 32 && a == Pow2(k) && 0 < a < MAX_WORD && x + a - 1 >= MAX_WORD
    ensures Align(x, a) == 0
  {
    var sum := x + a - 1 - MAX_WORD;
    AlignIsDown(x, k, sum);
    RestIsUnique(sum, a, 0, sum);
  }

  /** What ALIGN computes: it rounds up while the sum does not overflow, and yields 0 if it
      does. */
  lemma AlignComputes(x: int, k: nat)
    requires IsWord(x) && k < 32
    ensures 0 < Pow2(k) < MAX_WORD
    ensures Align(x, Pow2(k)) == if x + Pow2(k) - 1 < MAX_WORD then RoundUp(x, Pow2(k)) else 0
  {
    var a := Pow2(k);
    Pow2IsWord(k);
    if x + a - 1 < MAX_WORD { AlignRounds(x, k, a); } else { AlignOverflows(x, k, a); }
  }

  lemma Pow2Step(k: nat)
    ensures Pow2(k + 1) == 2 * Pow2(k)
  {
  }

  lemma SmallRest(x: int, r: int)
    requires IsWord(r) && (x == r || x == r + MAX_WORD)
    ensures x % MAX_WORD == r
  {
  }

  lemma DownIsUp(x: int, a: int)
    requires a > 0
    ensures RoundUp(x, a) == x + a - 1 - (x + a - 1) % a
  {
  }

  /** a is a multiple of m that is not below x, and no smaller one is. */
  ghost predicate IsLeastMultiple(a: int, x: int, m: int)
    requires m > 0
  {
    a % m == 0 && x <= a && forall b :: b % m == 0 && x <= b ==> a <= b
  }

  lemma {:induction false} RoundUpIsLeast(x: int, m: int)
    requires m > 0
    ensures IsLeastMultiple(RoundUp(x, m), x, m)
  {
    var a := RoundUp(x, m);
    forall b | b % m == 0 && x <= b
      ensures a <= b
    {
      var p, q := a / m, b / m;
      assert a == p * m + a % m && b == q * m + b % m;
      if q < p { MulMonotone(q, p, m); }
    }
  }

  /** ALIGN to a power of two is the least multiple not below its argument, if and only if
      the sum does not overflow. */
  lemma AlignIsLeastMultipleIff(x: int, k: nat)
    requires IsWord(x) && k < 32
    ensures 0 < Pow2(k) < MAX_WORD
    ensures IsLeastMultiple(Align(x, Pow2(k)), x, Pow2(k)) <==> x + Pow2(k) - 1 < MAX_WORD
  {
    AlignComputes(x, k);
    RoundUpIsLeast(x, Pow2(k));
    Pow2Grows(k, 31);
    WordIsPow2();
    assert Pow2(32) == 2 * Pow2(31);
  }

  lemma RoundUpToPageSizeIsLeastMultipleIff(x: int)
    requires IsWord(x)
    ensures RoundUpToPageSize(x) == Align(x, PAGE_SIZE)
    ensures IsLeastMultiple(RoundUpToPageSize(x), x, PAGE_SIZE) <==> x + PAGE_SIZE - 1 < MAX_WORD
  {
    assert Pow2(12) == PAGE_SIZE by { assert Pow2(6) == 64; }
    AlignIsLeastMultipleIff(x, 12);
  }
}
