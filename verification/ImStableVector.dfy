/**
  A vector in blocks of equal size: growing allocates further blocks and never moves an element.
 */
module ImStableVectors {
  import opened Arithmetic
  import opened IntBits

  /** The aligned capacity as a number of blocks. */
  lemma MemAlignBlocks(n: nat, a: nat)
    requires IsPowerOfTwo(a)
    ensures a >= 1 && n <= MemAlign(n, a) < n + a && MemAlign(n, a) == a * (MemAlign(n, a) / a)
  {
    hide MemAlign, IsPowerOfTwo;
    MemAlignBounds(n, a);
    MultipleIsTimes(MemAlign(n, a), a);
  }

  /** Block and position of element i are in range, and different for different elements. */
  lemma SlotInRange(i: int, blockSize: int, count: int)
    requires 1 <= blockSize && 0 <= count && 0 <= i < blockSize * count
    ensures 0 <= i / blockSize < count && 0 <= i % blockSize < blockSize
    ensures i == blockSize * (i / blockSize) + i % blockSize
  {
  }

  class ImStableVector<T(0)> {
    const blockSize: nat  // a power of two
    var size: int
    var capacity: int
    var blocks: seq<array<T>>

    ghost predicate Valid()
      reads this
    {
      && IsPowerOfTwo(blockSize) && 1 <= blockSize && 0 <= size <= capacity && capacity == blockSize * |blocks|
      && (forall b :: 0 <= b < |blocks| ==> blocks[b].Length == blockSize)
      && forall b, c :: 0 <= b < c < |blocks| ==> blocks[b] != blocks[c]
    }

    /** Where element i is stored. */
    ghost function Slot(i: int): (array<T>, int)
      requires Valid() && 0 <= i < size
      reads this
    {
      SlotInRange(i, blockSize, |blocks|);
      (blocks[i / blockSize], i % blockSize)
    }

    ghost function At(i: int): T
      requires Valid() && 0 <= i < size
      reads this, blocks
    {
      SlotInRange(i, blockSize, |blocks|);
      blocks[i / blockSize][i % blockSize]
    }

    constructor (blockSize: nat)
      requires IsPowerOfTwo(blockSize)
      ensures Valid() && size == 0 && blocks == [] && this.blockSize == blockSize
    {
      this.blockSize := blockSize;
      size, capacity, blocks := 0, 0, [];
    }

    /** Makes room for newCap elements by adding blocks; the existing blocks stay where and what they are. */
    method Reserve(newCap: int)
      requires Valid() && 0 <= newCap
      modifies `capacity, `blocks
      ensures Valid() && old(blocks) <= blocks && newCap <= capacity
      ensures forall b :: old(|blocks|) <= b < |blocks| ==> fresh(blocks[b])
      ensures newCap <= old(capacity) ==> blocks == old(blocks)
      ensures newCap > old(capacity) ==> capacity < newCap + blockSize
    {
      var newCap' := MemAlign(newCap, blockSize);
      MemAlignBlocks(newCap, blockSize);
      DivOfMultiple(blockSize, |blocks|);
      var oldCount := capacity / blockSize;
      var newCount := newCap' / blockSize;
      if newCount <= oldCount {
        if newCount < oldCount { TimesLess(blockSize, newCount, oldCount); }
        return;
      }
      TimesLess(blockSize, oldCount, newCount);
      var n := oldCount;
      while n < newCount
        invariant oldCount <= n <= newCount && |blocks| == n
        invariant old(blocks) <= blocks
        invariant forall b :: 0 <= b < |blocks| ==> blocks[b].Length == blockSize
        invariant forall b, c :: 0 <= b < c < |blocks| ==> blocks[b] != blocks[c]
        invariant forall b :: old(|blocks|) <= b < |blocks| ==> fresh(blocks[b])
        modifies `blocks
      {
        var block := new T[blockSize];
        blocks := blocks + [block];
        n := n + 1;
      }
      capacity := newCap';
    }

    /** Changes the size; the elements that remain keep their slots and values. */
    method Resize(newSize: int)
      requires Valid() && 0 <= newSize
      modifies `size, `capacity, `blocks
      ensures Valid() && size == newSize && old(blocks) <= blocks
      ensures newSize <= old(capacity) ==> blocks == old(blocks)
      ensures newSize > old(capacity) ==> capacity < newSize + blockSize
      ensures forall b :: old(|blocks|) <= b < |blocks| ==> fresh(blocks[b])
      ensures forall i :: 0 <= i < newSize && i < old(size) ==> Slot(i) == old(Slot(i)) && At(i) == old(At(i))
    {
      if newSize > capacity {
        Reserve(newSize);
      }
      size := newSize;
      forall i | 0 <= i < newSize && i < old(size) ensures Slot(i) == old(Slot(i)) && At(i) == old(At(i)) {
        SlotInRange(i, blockSize, old(|blocks|));
      }
    }

    /** Reserves room for one more block. */
    method AddBlock()
      requires Valid()
      modifies `capacity, `blocks
      ensures Valid() && old(blocks) <= blocks && |blocks| == old(|blocks|) + 1 && capacity == old(capacity) + blockSize
      ensures forall b :: old(|blocks|) <= b < |blocks| ==> fresh(blocks[b])
    {
      TimesNext(blockSize, |blocks|);
      Reserve(capacity + blockSize);
      OnlyMultiple(blockSize, old(|blocks|) + 1, |blocks|);
    }

    /** Appends an element; the others keep their slots and values. */
    method PushBack(v: T)
      requires Valid()
      modifies this, blocks
      ensures Valid() && size == old(size) + 1 && At(old(size)) == v && old(blocks) <= blocks
      ensures |blocks| == old(|blocks|) + if old(size) == old(capacity) then 1 else 0
      ensures forall b :: old(|blocks|) <= b < |blocks| ==> fresh(blocks[b])
      ensures forall i :: 0 <= i < old(size) ==> Slot(i) == old(Slot(i)) && At(i) == old(At(i))
    {
      var i := size;
      if size == capacity {
        AddBlock();
      }
      SlotInRange(i, blockSize, |blocks|);
      blocks[i / blockSize][i % blockSize] := v;
      size := size + 1;
      forall j | 0 <= j < old(size) ensures Slot(j) == old(Slot(j)) && At(j) == old(At(j)) {
        SlotInRange(j, blockSize, old(|blocks|));
        DifferentSlots(i, j, blockSize);
      }
    }

    /** Writes one element; the others keep their values. */
    method Set(i: int, v: T)
      requires Valid() && 0 <= i < size
      modifies blocks
      ensures Valid()
      ensures forall j :: 0 <= j < size ==> At(j) == if j == i then v else old(At(j))
    {
      SlotInRange(i, blockSize, |blocks|);
      blocks[i / blockSize][i % blockSize] := v;
      forall j | 0 <= j < size ensures At(j) == if j == i then v else old(At(j)) {
        SlotInRange(j, blockSize, |blocks|);
        if j != i {
          DifferentSlots(i, j, blockSize);
        }
      }
    }

    method Get(i: int) returns (v: T)
      requires Valid() && 0 <= i < size
      ensures v == At(i)
    {
      SlotInRange(i, blockSize, |blocks|);
      v := blocks[i / blockSize][i % blockSize];
    }

    /** Elements lie one after the other in each block, and the blocks are filled in order. */
    lemma SlotsAreInOrder(i: int)
      requires Valid() && 0 <= i < size
      ensures i < blockSize ==> Slot(i) == (blocks[0], i)
      ensures i + blockSize < size ==>
                exists b :: 0 <= b < |blocks| - 1 && Slot(i) == (blocks[b], Slot(i).1) && Slot(i + blockSize) == (blocks[b + 1], Slot(i).1)
    {
      SlotInRange(i, blockSize, |blocks|);
      if i < blockSize {
        OnlySlot(i, 0, i, blockSize);
      }
      if i + blockSize < size {
        SlotInRange(i + blockSize, blockSize, |blocks|);
        TimesNext(blockSize, i / blockSize);
        OnlySlot(i + blockSize, i / blockSize + 1, i % blockSize, blockSize);
        var b := i / blockSize;
        assert Slot(i) == (blocks[b], Slot(i).1) && Slot(i + blockSize) == (blocks[b + 1], Slot(i).1);
      }
    }

    lemma SlotsAreDistinct(i: int, j: int)
      requires Valid() && 0 <= i < j < size
      ensures Slot(i) != Slot(j)
    {
      SlotInRange(i, blockSize, |blocks|);
      SlotInRange(j, blockSize, |blocks|);
      DifferentSlots(i, j, blockSize);
    }
  }

  lemma OnlySlot(i: int, b: int, k: int, blockSize: int)
    requires 0 <= k < blockSize && i == blockSize * b + k
    ensures i / blockSize == b && i % blockSize == k
  {
    DivModOfSum(blockSize, b, k);
  }

  lemma DifferentSlots(i: int, j: int, blockSize: int)
    requires 1 <= blockSize && i != j
    ensures i / blockSize != j / blockSize || i % blockSize != j % blockSize
  {
  }
}
