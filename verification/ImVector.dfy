/**
  The growing array under most containers: `size` elements at the front of a buffer of `capacity`,
  changed in place. Each method is proved against the sequence that `Contents` denotes; positions are
  offsets where the source passes pointers into the buffer.
 */
module ImVectors {

  /** The least capacity that holds sz elements and is half as large again, or 8 at first. */
  function GrowCapacity(capacity: nat, sz: int): (newCapacity: int)
    ensures newCapacity >= sz
    ensures if capacity == 0 then newCapacity >= 8 else 2 * newCapacity >= 3 * capacity - 1
    ensures newCapacity > sz ==> if capacity == 0 then newCapacity == 8 else 2 * newCapacity <= 3 * capacity
  {
    var grown := if capacity != 0 then capacity + capacity / 2 else 8;
    if grown > sz then grown else sz
  }

  class ImVector<T(0)> {
    var size: int
    var capacity: int
    var data: array?<T>
    ghost var copied: nat  // elements moved by reallocation so far

    ghost predicate Valid()
      reads this
    {
      && 0 <= size <= capacity
      && (data == null <==> capacity == 0)
      && (data != null ==> data.Length == capacity)
    }

    ghost function Contents(): (s: seq<T>)
      requires Valid()
      reads this, data
      ensures |s| == size
    {
      if data == null then [] else data[..size]
    }

    constructor ()
      ensures Valid() && Contents() == [] && capacity == 0 && copied == 0 && GrownByPushes()
    {
      size, capacity, data := 0, 0, null;
      copied := 0;
    }

    /** Makes room for `newCapacity` elements; the contents stay, the buffer may move. */
    method Reserve(newCapacity: int)
      requires Valid()
      modifies `capacity, `data, `copied
      ensures Valid() && Contents() == old(Contents())
      ensures capacity == if newCapacity > old(capacity) then newCapacity else old(capacity)
      ensures copied == old(copied) + if data == old(data) then 0 else size
      ensures if newCapacity > old(capacity) then fresh(data) else data == old(data)
    {
      if newCapacity <= capacity {
        return;
      }
      var newData := new T[newCapacity];
      if data != null {
        for i := 0 to size
          invariant newData[..i] == data[..i]
          modifies newData
        {
          newData[i] := data[i];
        }
      }
      copied := copied + size;
      data := newData;
      capacity := newCapacity;
    }

    /** Sets the size; new elements at the end are unspecified. */
    method Resize(newSize: int)
      requires Valid() && newSize >= 0
      modifies this
      ensures Valid() && size == newSize
      ensures newSize <= old(size) ==> Contents() == old(Contents())[..newSize]
      ensures newSize > old(size) ==> old(Contents()) <= Contents()
      ensures if newSize > old(capacity) then fresh(data) else data == old(data)
      ensures capacity == if newSize > old(capacity) then GrowCapacity(old(capacity), newSize) else old(capacity)
      ensures copied == old(copied) + if data == old(data) then 0 else old(size)
    {
      if newSize > capacity {
        Reserve(GrowCapacity(capacity, newSize));
      }
      ghost var before := Contents();
      size := newSize;
      assert newSize > |before| ==> Contents()[..|before|] == before;
    }

    /** Sets the size; new elements at the end are copies of v. */
    method ResizeFill(newSize: int, v: T)
      requires Valid() && newSize >= 0
      modifies this, data
      ensures Valid() && if newSize > old(capacity) then fresh(data) else data == old(data)
      ensures copied == old(copied) + if data == old(data) then 0 else old(size)
      ensures Contents() == if newSize <= old(size) then old(Contents())[..newSize]
                            else old(Contents()) + seq(newSize - old(size), _ => v)
      ensures capacity == if newSize > old(capacity) then GrowCapacity(old(capacity), newSize) else old(capacity)
    {
      ghost var before := Contents();
      if newSize > capacity {
        Reserve(GrowCapacity(capacity, newSize));
      }
      if newSize > size {
        for n := size to newSize
          invariant data != null && data.Length == capacity >= newSize
          invariant data[..size] == before
          invariant forall k :: size <= k < n ==> data[k] == v
          modifies data
        {
          data[n] := v;
        }
      }
      size := newSize;
    }

    /** Gives up the buffer. */
    method Clear()
      modifies `size, `capacity, `data
      ensures Valid() && Contents() == [] && capacity == 0
    {
      size, capacity, data := 0, 0, null;
    }

    method Shrink(newSize: int)
      requires Valid() && 0 <= newSize <= size
      modifies `size
      ensures Valid() && Contents() == old(Contents())[..newSize]
    {
      size := newSize;
    }

    method PushBack(v: T)
      requires Valid()
      modifies this, data
      ensures Valid() && Contents() == old(Contents()) + [v]
      ensures capacity == if old(size) == old(capacity) then GrowCapacity(old(capacity), old(size) + 1) else old(capacity)
      ensures copied == old(copied) + if data == old(data) then 0 else old(size)
      ensures old(GrownByPushes()) ==> GrownByPushes()
      ensures if old(size) == old(capacity) then fresh(data) else data == old(data)
    {
      if size == capacity {
        Reserve(GrowCapacity(capacity, size + 1));
      }
      data[size] := v;
      size := size + 1;
    }

    method PopBack()
      requires Valid() && size > 0
      modifies `size
      ensures Valid() && Contents() == old(Contents())[..old(size) - 1]
    {
      size := size - 1;
    }

    /** Moves the elements from off on up by one; there must be room for one more. */
    method ShiftUp(off: int)
      requires Valid() && 0 <= off <= size < capacity
      modifies data
      ensures data[..off] == old(data[..off]) && data[off + 1..size + 1] == old(data[off..size])
    {
      forall k | off < k <= size { data[k] := data[k - 1]; }
    }

    /** Inserts v at offset off; the elements from there on move up by one. */
    method Insert(off: int, v: T)
      requires Valid() && 0 <= off <= size
      modifies this, data
      ensures Valid() && Contents() == old(Contents())[..off] + [v] + old(Contents())[off..]
      ensures if old(size) == old(capacity) then fresh(data) else data == old(data)
      ensures capacity == if old(size) == old(capacity) then GrowCapacity(old(capacity), old(size) + 1) else old(capacity)
      ensures copied == old(copied) + if data == old(data) then 0 else old(size)
    {
      hide GrowCapacity;
      if size == capacity {
        Reserve(GrowCapacity(capacity, size + 1));
      }
      ghost var before := Contents();
      assert data[..off] == before[..off] && data[off..size] == before[off..];
      if off < size {
        ShiftUp(off);
      }
      data[off] := v;
      size := size + 1;
      assert data[..size] == data[..off] + [data[off]] + data[off + 1..size];
    }

    method PushFront(v: T)
      requires Valid()
      modifies this, data
      ensures Valid() && Contents() == [v] + old(Contents())
      ensures if old(size) == old(capacity) then fresh(data) else data == old(data)
      ensures capacity == if old(size) == old(capacity) then GrowCapacity(old(capacity), old(size) + 1) else old(capacity)
      ensures copied == old(copied) + if data == old(data) then 0 else old(size)
    {
      if size == 0 {
        PushBack(v);
      } else {
        Insert(0, v);
      }
    }

    /** Removes the elements from off up to last; the later ones move down. */
    method EraseRange(off: int, last: int)
      requires Valid() && 0 <= off < size && off <= last <= size
      modifies `size, data
      ensures Valid() && Contents() == old(Contents())[..off] + old(Contents())[last..]
    {
      var count := last - off;
      forall k | off <= k < size - count { data[k] := data[k + count]; }
      size := size - count;
    }

    method Erase(off: int)
      requires Valid() && 0 <= off < size
      modifies `size, data
      ensures Valid() && Contents() == old(Contents())[..off] + old(Contents())[off + 1..]
    {
      forall k | off <= k < size - 1 { data[k] := data[k + 1]; }
      size := size - 1;
    }

    /** Removes the element at off by putting the last one in its place. */
    method EraseUnsorted(off: int)
      requires Valid() && 0 <= off < size
      modifies `size, data
      ensures Valid() && Contents() == LastMovedTo(old(Contents()), off)
      ensures LastTookPlace(old(Contents()), Contents(), off)
    {
      if off < size - 1 {
        data[off] := data[size - 1];
      }
      size := size - 1;
    }

    // ----- amortized cost

    /** Capacity and copies are what pushing `size` elements onto an empty vector leads to. */
    ghost predicate GrownByPushes()
      reads this
    {
      size >= 0 && PushCost(size) == Cost(capacity, copied)
    }
  }

  /** Offset of the first element equal to v, or the size if there is none. */
  method Find<T(0,==)>(vec: ImVector<T>, v: T) returns (off: int)
    requires vec.Valid()
    ensures 0 <= off <= vec.size
    ensures v !in vec.Contents()[..off]
    ensures off < vec.size ==> vec.Contents()[off] == v
  {
    off := 0;
    while off < vec.size
      invariant 0 <= off <= vec.size && v !in vec.Contents()[..off]
    {
      if vec.data[off] == v {
        break;
      }
      off := off + 1;
    }
  }

  /** v occurs first at off. */
  ghost predicate FirstAt<T>(s: seq<T>, v: T, off: int) {
    0 <= off < |s| && s[off] == v && forall k :: 0 <= k < off ==> s[k] != v
  }

  lemma FoundIsFirst<T>(s: seq<T>, v: T, off: int)
    requires 0 <= off < |s| && s[off] == v && v !in s[..off]
    ensures FirstAt(s, v, off) && forall off' :: FirstAt(s, v, off') ==> off' == off
  {
    forall k | 0 <= k < off ensures s[k] != v {
      assert s[k] in s[..off];
    }
  }

  /** s without the first occurrence of v. */
  function WithoutFirst<T(==)>(s: seq<T>, v: T): seq<T> {
    if s == [] then [] else if s[0] == v then s[1..] else [s[0]] + WithoutFirst(s[1..], v)
  }

  lemma {:induction false} WithoutFirstAt<T>(s: seq<T>, v: T, off: nat)
    requires off < |s| && s[off] == v && v !in s[..off]
    ensures WithoutFirst(s, v) == s[..off] + s[off + 1..]
  {
    if off > 0 {
      assert s[0] == s[..off][0];
      assert s[1..][..off - 1] == s[..off][1..];
      WithoutFirstAt(s[1..], v, off - 1);
      assert [s[0]] + (s[1..][..off - 1] + s[1..][off..]) == s[..off] + s[off + 1..];
    }
  }

  lemma {:induction false} WithoutFirstAbsent<T>(s: seq<T>, v: T)
    requires v !in s
    ensures WithoutFirst(s, v) == s
  {
    if s != [] {
      WithoutFirstAbsent(s[1..], v);
    }
  }

  /** Removing the first occurrence of v takes one v out of the elements, if there is one. */
  lemma {:induction false} WithoutFirstRemovesOne<T>(s: seq<T>, v: T)
    ensures multiset(WithoutFirst(s, v)) == multiset(s) - multiset{v}
  {
    if s != [] {
      assert s == [s[0]] + s[1..];
      if s[0] != v {
        WithoutFirstRemovesOne(s[1..], v);
        RemoveFromRest(multiset(s[1..]), s[0], v);
      }
    }
  }

  lemma RemoveFromRest<T>(rest: multiset<T>, first: T, v: T)
    requires first != v
    ensures multiset{first} + (rest - multiset{v}) == multiset{first} + rest - multiset{v}
  {
  }

  method FindErase<T(0,==)>(vec: ImVector<T>, v: T) returns (found: bool)
    requires vec.Valid()
    modifies vec`size, vec.data
    ensures vec.Valid() && found == (v in old(vec.Contents()))
    ensures vec.Contents() == WithoutFirst(old(vec.Contents()), v)
    ensures forall off :: FirstAt(old(vec.Contents()), v, off) ==>
              vec.Contents() == old(vec.Contents())[..off] + old(vec.Contents())[off + 1..]
    ensures !found ==> vec.Contents() == old(vec.Contents())
  {
    ghost var s := vec.Contents();
    var off := Find(vec, v);
    if off < vec.size {
      WithoutFirstAt(s, v, off);
      FoundIsFirst(s, v, off);
      vec.Erase(off);
      return true;
    }
    assert s[..off] == s;
    WithoutFirstAbsent(s, v);
    return false;
  }

  /** s without its element at off, whose place the last one takes. */
  function LastMovedTo<T>(s: seq<T>, off: int): seq<T>
    requires 0 <= off < |s|
  {
    s[off := s[|s| - 1]][..|s| - 1]
  }

  /** t is s shorter by one: only the element at off is another, the last one of s, unless that was at off. */
  ghost predicate LastTookPlace<T>(s: seq<T>, t: seq<T>, off: int) {
    && 0 <= off < |s| && |t| == |s| - 1
    && (forall k :: 0 <= k < |t| && k != off ==> t[k] == s[k])
    && (off < |t| ==> t[off] == s[|s| - 1])
  }

  lemma LastMovedRemovesOne<T>(s: seq<T>, off: nat)
    requires off < |s|
    ensures multiset(LastMovedTo(s, off)) == multiset(s) - multiset{s[off]}
  {
    var t := LastMovedTo(s, off);
    SetThenShrink(s, off);
    UpdateMultiset(s, off, s[|s| - 1]);
    RemoveAgain(multiset(t), multiset(s), s[|s| - 1], s[off]);
  }

  lemma SetThenShrink<T>(s: seq<T>, off: nat)
    requires off < |s|
    ensures multiset(s[off := s[|s| - 1]]) == multiset(LastMovedTo(s, off)) + multiset{s[|s| - 1]}
  {
    var t := s[off := s[|s| - 1]];
    assert t == t[..|s| - 1] + [s[|s| - 1]];
  }

  lemma UpdateMultiset<T>(s: seq<T>, off: nat, v: T)
    requires off < |s|
    ensures multiset(s[off := v]) + multiset{s[off]} == multiset(s) + multiset{v}
    ensures s[off] in multiset(s)
  {
    var t := s[off := v];
    assert s == s[..off] + [s[off]] + s[off + 1..];
    assert t == s[..off] + [v] + s[off + 1..];
  }

  lemma RemoveAgain<T>(a: multiset<T>, b: multiset<T>, v: T, w: T)
    requires a + multiset{v} + multiset{w} == b + multiset{v} && w in b
    ensures a == b - multiset{w}
  {
    forall x ensures a[x] == (b - multiset{w})[x] {
      assert (a + multiset{v} + multiset{w})[x] == (b + multiset{v})[x];
    }
  }

  method FindEraseUnsorted<T(0,==)>(vec: ImVector<T>, v: T) returns (found: bool)
    requires vec.Valid()
    modifies vec`size, vec.data
    ensures vec.Valid() && found == (v in old(vec.Contents()))
    ensures multiset(vec.Contents()) == multiset(old(vec.Contents())) - multiset{v}
    ensures forall off :: FirstAt(old(vec.Contents()), v, off) ==> LastTookPlace(old(vec.Contents()), vec.Contents(), off)
    ensures !found ==> vec.Contents() == old(vec.Contents())
  {
    hide LastMovedTo;
    ghost var s := vec.Contents();
    var off := Find(vec, v);
    if off < vec.size {
      assert s[off] == v;
      LastMovedRemovesOne(s, off);
      FoundIsFirst(s, v, off);
      vec.EraseUnsorted(off);
      return true;
    }
    AbsentAll(s, v, off);
    return false;
  }

  lemma AbsentAll<T>(s: seq<T>, v: T, off: int)
    requires off == |s| && v !in s[..off]
    ensures v !in s && multiset(s) == multiset(s) - multiset{v}
  {
  }

  // ----- amortized cost of push_back

  datatype Cost = Cost(capacity: int, copied: int)

  /** Capacity, and elements copied so far, after pushing n elements onto an empty vector. */
  function PushCost(n: nat): Cost {
    if n == 0 then Cost(0, 0)
    else
      var c := PushCost(n - 1);
      if c.capacity == n - 1 then Cost(GrowCapacity(c.capacity, n), c.copied + (n - 1)) else c
  }

  lemma {:induction false} PushCostInvariant(n: nat)
    requires n > 0
    ensures var c := PushCost(n);
            && 8 <= c.capacity && n <= c.capacity
            && 7 * c.copied <= 16 * (c.capacity - 8)
            && (c.capacity > 8 ==> 2 * c.capacity <= 3 * (n - 1))
  {
    if n > 1 {
      PushCostInvariant(n - 1);
    }
  }

  /** n pushes onto an empty vector copy fewer than 4 n elements in all. */
  lemma PushesAreAmortized(n: nat)
    requires n > 0
    ensures 0 <= PushCost(n).copied < 4 * n
  {
    PushCostInvariant(n);
    CopiedIsNonNegative(n);
  }

  lemma {:induction false} CopiedIsNonNegative(n: nat)
    ensures 0 <= PushCost(n).copied
  {
    if n > 0 {
      CopiedIsNonNegative(n - 1);
    }
  }

  /** A vector that has only been pushed to has copied fewer than four elements for each it holds. */
  lemma PushedVectorCopiesFew<T(0)>(vec: ImVector<T>)
    requires vec.Valid() && vec.GrownByPushes() && vec.size > 0
    ensures vec.copied < 4 * vec.size
  {
    PushesAreAmortized(vec.size);
  }
}
