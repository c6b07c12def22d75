/**
  Bits packed into 32-bit words: setting a range of bits one word at a time.
 */
module BitArrays {
  import opened IntBits

  /** What the bitwise operations on positions compute: offset, word, last position of the word, start of the next. */
  lemma PositionArithmetic(n: nat)
    ensures And(n, 31) == n % 32 && ShiftRight(n, 5) == n / 32
    ensures Or(n, 31) == n / 32 * 32 + 31
    ensures AndNot(n + 32, 31) == (n + 32) / 32 * 32
    ensures n < AndNot(n + 32, 31) && AndNot(n + 32, 31) % 32 == 0
  {
    hide And, Or, AndNot, ShiftRight, Pow2;
    ThirtyTwo();
    LowBits(n, 5);
    LowBits(n + 32, 5);
    WordBounds(n);
    WordBounds(n + 32);
  }

  lemma ThirtyTwo()
    ensures Pow2(5) == 32
  {
  }

  lemma WordBounds(n: nat)
    ensures n - n % 32 == n / 32 * 32 && n < n - n % 32 + 32 && (n - n % 32) % 32 == 0
  {
  }

  function Mask(k: int): bv32
    requires 0 <= k < 32
  {
    (1 as bv32) << k
  }

  /** 1, 2, 4, ... */
  function Weight(k: nat): bv32 {
    if k == 0 then 1 else 2 * Weight(k - 1)
  }

  /** Bit k of a word is the one of weight 2 to the k. */
  lemma {:induction false} MaskIsWeight(k: int)
    requires 0 <= k < 32
    ensures Mask(k) == Weight(k)
    decreases k
  {
    if k > 0 {
      MaskIsWeight(k - 1);
      MaskDoubles(k - 1);
    }
  }

  lemma MaskDoubles(k: int)
    requires 0 <= k < 31
    ensures Mask(k + 1) == 2 * Mask(k)
  {
  }

  predicate Meets(word: bv32, mask: bv32) { word & mask != 0 }

  predicate Bit(word: bv32, k: int)
    requires 0 <= k < 32
  {
    Meets(word, Mask(k))
  }

  /** Bit n of the array, counted from the least significant bit of the first word. */
  predicate TestBit(arr: seq<bv32>, n: int)
    requires 0 <= n < 32 * |arr|
  {
    Bit(arr[n / 32], n % 32)
  }

  /** The 64-bit number with the lowest `bits` bits set, cut to 32 bits. */
  function LowMask(bits: int): bv32
    requires 0 <= bits <= 32
  {
    ((((1 as bv64) << bits) - 1) & 0xffff_ffff) as bv32
  }

  // ----- bitwise operations, bit by bit

  function OrWord(v: bv32, w: bv32): bv32 { v | w }

  function AndNotWord(v: bv32, w: bv32): bv32 { v & !w }

  lemma MeetsMeans(v: bv32, m: bv32)
    ensures Meets(v, m) == (v & m != 0)
  {
  }

  lemma OrUnderMask(v: bv32, w: bv32, m: bv32)
    ensures OrWord(v, w) & m == OrWord(v & m, w & m)
  {
  }

  lemma AndNotUnderMask(v: bv32, w: bv32, m: bv32)
    ensures AndNotWord(v, w) & m == AndNotWord(v & m, w & m)
  {
  }

  lemma OrIsZero(v: bv32, w: bv32)
    ensures OrWord(v, w) == 0 <==> v == 0 && w == 0
  {
  }

  lemma AndNotZero(v: bv32, m: bv32)
    ensures AndNotWord(v, 0) == v && AndNotWord(v & m, m) == 0
  {
  }

  lemma MeetsOr(v: bv32, w: bv32, m: bv32)
    ensures Meets(OrWord(v, w), m) <==> Meets(v, m) || Meets(w, m)
  {
    hide Meets, OrWord;
    MeetsMeans(v, m);
    MeetsMeans(w, m);
    MeetsMeans(OrWord(v, w), m);
    OrUnderMask(v, w, m);
    OrIsZero(v & m, w & m);
  }

  /** All bits of m are set in w, or none is. */
  predicate Decides(w: bv32, m: bv32) { w & m == 0 || w & m == m }

  lemma MeetsAndNot(v: bv32, w: bv32, m: bv32)
    requires Decides(w, m)
    ensures Meets(AndNotWord(v, w), m) <==> Meets(v, m) && !Meets(w, m)
  {
    hide Meets, AndNotWord;
    MeetsMeans(v, m);
    MeetsMeans(w, m);
    MeetsMeans(AndNotWord(v, w), m);
    AndNotUnderMask(v, w, m);
    AndNotZero(v & m, m);
    AndNotZero(v, m);
  }

  /** One bit more. */
  lemma LowMaskStep(bits: int)
    requires 0 <= bits < 32
    ensures LowMask(bits + 1) == OrWord(LowMask(bits), Mask(bits))
    ensures !Meets(LowMask(bits), Mask(bits)) && Meets(Mask(bits), Mask(bits))
  {
  }

  lemma {:induction false} LowMaskHas(bits: int, k: int)
    requires 0 <= k < bits <= 32
    ensures Bit(LowMask(bits), k)
    decreases bits
  {
    hide LowMask, Mask, OrWord, Meets;
    LowMaskStep(bits - 1);
    MeetsOr(LowMask(bits - 1), Mask(bits - 1), Mask(k));
    if k < bits - 1 {
      LowMaskHas(bits - 1, k);
    }
  }

  lemma {:induction false} LowMaskLacks(bits: int, k: int)
    requires 0 <= bits <= k < 32
    ensures !Bit(LowMask(bits), k)
    decreases k - bits
  {
    hide LowMask, Mask, OrWord, Meets;
    LowMaskStep(bits);
    if bits < k {
      LowMaskLacks(bits + 1, k);
      MeetsOr(LowMask(bits), Mask(bits), Mask(k));
    }
  }

  lemma LowMaskBits(bits: int, k: int)
    requires 0 <= bits <= 32 && 0 <= k < 32
    ensures Bit(LowMask(bits), k) <==> k < bits
  {
    hide LowMask, Mask, Meets;
    if k < bits {
      LowMaskHas(bits, k);
    } else {
      LowMaskLacks(bits, k);
    }
  }

  lemma OneBit(w: bv32, k: int)
    requires 0 <= k < 32
    ensures Decides(w, Mask(k))
  {
  }

  lemma BitOfAndNot(v: bv32, w: bv32, k: int)
    requires 0 <= k < 32
    ensures Bit(AndNotWord(v, w), k) <==> Bit(v, k) && !Bit(w, k)
  {
    hide Mask, Meets, AndNotWord, Decides;
    OneBit(w, k);
    MeetsAndNot(v, w, Mask(k));
  }

  /** The word with the bits from a up to b set, by the mask that is computed for one word. */
  function SetBits(word: bv32, a: int, b: int): bv32
    requires 0 <= a <= 32 && 0 <= b <= 32
  {
    OrWord(word, AndNotWord(LowMask(b), LowMask(a)))
  }

  lemma SetBitsSets(word: bv32, a: int, b: int, k: int)
    requires 0 <= a <= 32 && 0 <= b <= 32 && 0 <= k < 32
    ensures Bit(SetBits(word, a, b), k) <==> Bit(word, k) || a <= k < b
  {
    hide LowMask, Mask, Meets, OrWord, AndNotWord;
    MeetsOr(word, AndNotWord(LowMask(b), LowMask(a)), Mask(k));
    BitOfAndNot(LowMask(b), LowMask(a), k);
    LowMaskBits(a, k);
    LowMaskBits(b, k);
  }

  /** Whether bit n is set. */
  method TestBitAt(arr: array<bv32>, n: nat) returns (b: bool)
    requires n < 32 * arr.Length
    ensures b == TestBit(arr[..], n)
  {
    hide And, ShiftRight, Mask, Meets;
    PositionArithmetic(n);
    var mask := Mask(And(n, 31));
    b := Meets(arr[ShiftRight(n, 5)], mask);
  }

  /** Bit n is the one of weight 2 to the n % 32 in word n / 32. */
  lemma TestBitMeans(arr: seq<bv32>, n: nat)
    requires n < 32 * |arr|
    ensures TestBit(arr, n) <==> arr[n / 32] & Weight(n % 32) != 0
  {
    hide Mask, Weight;
    MaskIsWeight(n % 32);
  }

  /** The bits that are set in `before`, and those from n up to end. */
  ghost predicate IsSetUpTo(after: seq<bv32>, before: seq<bv32>, n: int, end: int) {
    && |after| == |before|
    && forall i :: 0 <= i < 32 * |after| ==> (TestBit(after, i) <==> TestBit(before, i) || n <= i < end)
  }

  lemma SetWord(now: seq<bv32>, before: seq<bv32>, start: int, n: int, end: int)
    requires IsSetUpTo(now, before, start, n) && 0 <= start <= n < end <= 32 * |now|
    requires n == start || n % 32 == 0
    ensures var next := (n + 32) / 32 * 32;
            var b := (if end - 1 > n / 32 * 32 + 31 then 31 else (end - 1) % 32) + 1;
            && 0 <= b <= 32
            && IsSetUpTo(now[n / 32 := SetBits(now[n / 32], n % 32, b)], before, start,
                         if next < end then next else end)
  {
    hide Bit, LowMask, SetBits;
    var next := (n + 32) / 32 * 32;
    var b := (if end - 1 > n / 32 * 32 + 31 then 31 else (end - 1) % 32) + 1;
    var after := now[n / 32 := SetBits(now[n / 32], n % 32, b)];
    forall i | 0 <= i < 32 * |after|
      ensures TestBit(after, i) <==> TestBit(before, i) || start <= i < (if next < end then next else end)
    {
      assert TestBit(now, i) <==> TestBit(before, i) || start <= i < n;
      assert i == 32 * (i / 32) + i % 32 && n == 32 * (n / 32) + n % 32 && next == 32 * (n / 32) + 32;
      if i / 32 == n / 32 {
        SetBitsSets(now[n / 32], n % 32, b, i % 32);
        assert n % 32 <= i % 32 < b <==> n <= i < (if next < end then next else end);
      } else {
        assert TestBit(after, i) <==> TestBit(now, i);
      }
    }
  }

  /** The bounds of the mask for the word of position n, as the source computes them. */
  function Low(n: nat): nat { And(n, 31) }

  function High(n: nat, n2: nat): nat { (if n2 > Or(n, 31) then 31 else And(n2, 31)) + 1 }

  lemma SetWordBits(now: seq<bv32>, before: seq<bv32>, start: int, n: nat, n2: nat)
    requires IsSetUpTo(now, before, start, n) && start <= n <= n2 < 32 * |now| && 0 <= start
    requires n == start || n % 32 == 0
    ensures ShiftRight(n, 5) < |now| && Low(n) <= 32 && High(n, n2) <= 32
    ensures var next := AndNot(n + 32, 31);
            && n < next && next % 32 == 0
            && IsSetUpTo(now[ShiftRight(n, 5) := SetBits(now[ShiftRight(n, 5)], Low(n), High(n, n2))], before, start,
                         if next <= n2 then next else n2 + 1)
  {
    hide And, Or, AndNot, ShiftRight, IsSetUpTo, SetBits;
    SetWord(now, before, start, n, n2 + 1);
    PositionArithmetic(n);
    PositionArithmetic(n2);
  }

  /** Sets the bits from n0 up to end0 and no others. */
  method SetBitRange(arr: array<bv32>, n0: int, end0: int)
    requires n0 < end0 ==> 0 <= n0 && end0 <= 32 * arr.Length
    modifies arr
    ensures forall i :: 0 <= i < 32 * arr.Length ==>
              (TestBit(arr[..], i) <==> TestBit(old(arr[..]), i) || n0 <= i < end0)
  {
    hide Bit, LowMask, SetBits, IsSetUpTo, TestBit, And, Or, AndNot, ShiftRight;
    var n, n2 := n0, end0 - 1;
    ghost var before := arr[..];
    NothingSetYet(before, n0);
    while n <= n2
      invariant n0 <= n && (n == n0 || n % 32 == 0)
      invariant IsSetUpTo(arr[..], before, n0, if n <= n2 then n else n2 + 1)
      decreases n2 - n
    {
      SetWordBits(arr[..], before, n0, n, n2);
      var aMod := And(n, 31);
      var bMod := (if n2 > Or(n, 31) then 31 else And(n2, 31)) + 1;
      ghost var now := arr[..];
      var i := ShiftRight(n, 5);
      arr[i] := SetBits(arr[i], aMod, bMod);
      assert arr[..] == now[i := SetBits(now[i], aMod, bMod)];
      n := AndNot(n + 32, 31);
    }
    SetUpToEnd(arr[..], before, n0, end0);
  }

  lemma NothingSetYet(before: seq<bv32>, n: int)
    ensures forall end :: end <= n ==> IsSetUpTo(before, before, n, end)
  {
  }

  lemma SetUpToEnd(after: seq<bv32>, before: seq<bv32>, n: int, end: int)
    requires IsSetUpTo(after, before, n, end)
    ensures |after| == |before|
    ensures forall i :: 0 <= i < 32 * |after| ==> (TestBit(after, i) <==> TestBit(before, i) || n <= i < end)
  {
  }
}
