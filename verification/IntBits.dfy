/**
  The bitwise operators of C on non-negative integers, binary digit by binary digit, and what they compute
  when one operand is one less than a power of two.
 */
module IntBits {
  import opened Arithmetic

  function And(a: nat, b: nat): nat {
    if a == 0 then 0 else 2 * And(a / 2, b / 2) + if a % 2 == 1 && b % 2 == 1 then 1 else 0
  }

  function Or(a: nat, b: nat): nat
    decreases a + b
  {
    if a == 0 && b == 0 then 0 else 2 * Or(a / 2, b / 2) + if a % 2 == 1 || b % 2 == 1 then 1 else 0
  }

  /** a & ~b */
  function AndNot(a: nat, b: nat): nat {
    if a == 0 then 0 else 2 * AndNot(a / 2, b / 2) + if a % 2 == 1 && b % 2 == 0 then 1 else 0
  }

  function ShiftRight(a: nat, k: nat): nat {
    if k == 0 then a else ShiftRight(a / 2, k - 1)
  }

  function Pow2(k: nat): (p: nat)
    ensures p >= 1
  {
    if k == 0 then 1 else 2 * Pow2(k - 1)
  }

  /** One more digit at the low end of both the number and the power of two. */
  lemma HalfDivMod(n: nat, m: nat)
    requires m >= 1
    ensures n / (2 * m) == n / 2 / m && n % (2 * m) == 2 * (n / 2 % m) + n % 2
  {
    var q, r := n / 2 / m, n / 2 % m;
    assert n / 2 == m * q + r;
    assert n == 2 * m * q + (2 * r + n % 2);
    DivModOfSum(2 * m, q, 2 * r + n % 2);
  }

  /** The operators on the lowest digit, which a mask of digits 1 has. */
  lemma MaskStep(n: nat, m: nat)
    requires m >= 1
    ensures And(n, 2 * m - 1) == 2 * And(n / 2, m - 1) + n % 2
    ensures AndNot(n, 2 * m - 1) == 2 * AndNot(n / 2, m - 1)
    ensures Or(n, 2 * m - 1) == 2 * Or(n / 2, m - 1) + 1
  {
    assert (2 * m - 1) / 2 == m - 1 && (2 * m - 1) % 2 == 1;
  }

  /** m - 1 acts on n as the mask below a power of two m. */
  ghost predicate Masks(n: nat, m: nat)
    requires m >= 1
  {
    And(n, m - 1) == n % m && AndNot(n, m - 1) == n - n % m && Or(n, m - 1) == n - n % m + (m - 1)
  }

  lemma MasksStep(n: nat, m: nat)
    requires m >= 1 && Masks(n / 2, m)
    ensures Masks(n, 2 * m)
  {
    hide And, AndNot, Or;
    MaskStep(n, m);
    HalfDivMod(n, m);
  }

  /** Masking with the low k bits splits a number into remainder and multiple of 2 to the k. */
  lemma {:induction false} LowBits(n: nat, k: nat)
    ensures And(n, Pow2(k) - 1) == n % Pow2(k)
    ensures AndNot(n, Pow2(k) - 1) == n - n % Pow2(k)
    ensures Or(n, Pow2(k) - 1) == n - n % Pow2(k) + (Pow2(k) - 1)
    ensures ShiftRight(n, k) == n / Pow2(k)
    decreases k
  {
    hide And, AndNot, Or;
    if k == 0 {
      NoBits(n);
    } else {
      LowBits(n / 2, k - 1);
      MasksStep(n, Pow2(k - 1));
      HalfDivMod(n, Pow2(k - 1));
    }
  }

  lemma {:induction false} NoBits(n: nat)
    ensures And(n, 0) == 0 && AndNot(n, 0) == n && Or(n, 0) == n
  {
    if n > 0 {
      NoBits(n / 2);
    }
  }

  /** Binary digit i of n. */
  function Digit(n: nat, i: nat): nat { n / Pow2(i) % 2 }

  lemma DigitOfHalf(n: nat, i: nat)
    ensures Digit(n, 0) == n % 2 && Digit(n, i + 1) == Digit(n / 2, i)
  {
    HalfDivMod(n, Pow2(i));
  }

  /** The operators work on each digit by itself. */
  lemma {:induction false} DigitsOfOperators(a: nat, b: nat, i: nat)
    ensures Digit(And(a, b), i) == 1 <==> Digit(a, i) == 1 && Digit(b, i) == 1
    ensures Digit(Or(a, b), i) == 1 <==> Digit(a, i) == 1 || Digit(b, i) == 1
    ensures Digit(AndNot(a, b), i) == 1 <==> Digit(a, i) == 1 && Digit(b, i) == 0
    decreases i
  {
    hide Digit;
    HalfOfOperators(a, b);
    if i == 0 {
      DigitOfHalf(a, 0);
      DigitOfHalf(b, 0);
      DigitOfHalf(And(a, b), 0);
      DigitOfHalf(Or(a, b), 0);
      DigitOfHalf(AndNot(a, b), 0);
    } else {
      DigitOfHalf(a, i - 1);
      DigitOfHalf(b, i - 1);
      DigitOfHalf(And(a, b), i - 1);
      DigitOfHalf(Or(a, b), i - 1);
      DigitOfHalf(AndNot(a, b), i - 1);
      DigitsOfOperators(a / 2, b / 2, i - 1);
    }
  }

  lemma HalfOfOperators(a: nat, b: nat)
    ensures And(a, b) / 2 == And(a / 2, b / 2) && And(a, b) % 2 == if a % 2 == 1 && b % 2 == 1 then 1 else 0
    ensures Or(a, b) / 2 == Or(a / 2, b / 2) && Or(a, b) % 2 == if a % 2 == 1 || b % 2 == 1 then 1 else 0
    ensures AndNot(a, b) / 2 == AndNot(a / 2, b / 2) && AndNot(a, b) % 2 == if a % 2 == 1 && b % 2 == 0 then 1 else 0
  {
  }

  /** IM_MEMALIGN: (n + (a - 1)) & ~(a - 1). */
  function MemAlign(n: nat, a: nat): nat
    requires a >= 1
  {
    AndNot(n + (a - 1), a - 1)
  }

  ghost predicate IsPowerOfTwo(a: nat) { exists k: nat :: a == Pow2(k) }

  lemma MemAlignIsRounding(n: nat, a: nat)
    requires IsPowerOfTwo(a)
    ensures a >= 1 && MemAlign(n, a) == n + (a - 1) - (n + (a - 1)) % a
  {
    hide AndNot;
    var k: nat :| a == Pow2(k);
    LowBits(n + (a - 1), k);
  }

  lemma MemAlignBounds(n: nat, a: nat)
    requires IsPowerOfTwo(a)
    ensures a >= 1 && MemAlign(n, a) % a == 0
    ensures n <= MemAlign(n, a) < n + a
  {
    hide MemAlign, IsPowerOfTwo;
    MemAlignIsRounding(n, a);
    LastMultiple(n + (a - 1), 0, a);
  }

  /** For a power of two that is the least multiple that is not smaller. */
  lemma MemAlignIsLeastMultiple(n: nat, a: nat)
    requires IsPowerOfTwo(a)
    ensures a >= 1 && MemAlign(n, a) % a == 0
    ensures n <= MemAlign(n, a) < n + a
    ensures forall m: nat :: n <= m && m % a == 0 ==> MemAlign(n, a) <= m
  {
    hide MemAlign, IsPowerOfTwo;
    MemAlignBounds(n, a);
    forall m: nat | n <= m && m % a == 0 ensures MemAlign(n, a) <= m {
      if m < MemAlign(n, a) {
        NextMultiple(m, MemAlign(n, a), a);
      }
    }
  }

  /** a & ~(a - 1) is the lowest digit 1 of a. */
  lemma {:induction false} LowestOne(a: nat)
    requires a >= 1
    ensures 1 <= AndNot(a, a - 1) <= a && IsPowerOfTwo(AndNot(a, a - 1))
  {
    if a % 2 == 1 {
      assert (a - 1) / 2 == a / 2;
      AndNotItself(a / 2);
      assert AndNot(a, a - 1) == Pow2(0);
    } else {
      assert (a - 1) / 2 == a / 2 - 1;
      LowestOne(a / 2);
      var k: nat :| AndNot(a / 2, a / 2 - 1) == Pow2(k);
      assert AndNot(a, a - 1) == Pow2(k + 1);
    }
  }

  lemma {:induction false} AndNotItself(a: nat)
    ensures AndNot(a, a) == 0
  {
    if a > 0 {
      AndNotItself(a / 2);
    }
  }

  /** The macro rounds to multiples exactly for powers of two. */
  lemma MemAlignRoundsIff(a: nat)
    requires a >= 1
    ensures (forall n: nat :: MemAlign(n, a) % a == 0) <==> IsPowerOfTwo(a)
  {
    hide IsPowerOfTwo, AndNot;
    if IsPowerOfTwo(a) {
      forall n: nat ensures MemAlign(n, a) % a == 0 {
        MemAlignBounds(n, a);
      }
    } else {
      LowestOne(a);
      assert MemAlign(1, a) == AndNot(a, a - 1) < a;
      if MemAlign(1, a) % a == 0 {
        AtLeastOneMultiple(MemAlign(1, a), a);
      }
    }
  }
}
