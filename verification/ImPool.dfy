/**
  Keyed storage in one buffer: dead slots hold the index of the next dead slot, so that the free list
  takes no space of its own, and a map leads from keys to indices, with -1 for removed keys.
 */
module ImPools {
  import opened ImVectors

  // A slot of the buffer. The source overlays the index of the next free slot on a dead object.
  datatype Slot<T> = Live(value: T) | Dead(next: int)

  /** The free list runs from freeIdx through all dead slots, each once, and ends at the buffer's size. */
  ghost predicate IsChain<T>(buf: seq<Slot<T>>, freeIdx: int, chain: seq<int>) {
    && freeIdx == ChainAt(buf, chain, 0)
    && (forall i :: 0 <= i < |chain| ==> 0 <= chain[i] < |buf|)
    && (forall i {:trigger buf[chain[i]]} :: 0 <= i < |chain| ==> buf[chain[i]] == Dead(ChainAt(buf, chain, i + 1)))
    && (forall i, j :: 0 <= i < j < |chain| ==> chain[i] != chain[j])
    && forall n :: 0 <= n < |buf| && buf[n].Dead? ==> n in chain
  }

  ghost function ChainAt<T>(buf: seq<Slot<T>>, chain: seq<int>, i: nat): int {
    if i < |chain| then chain[i] else |buf|
  }

  ghost predicate IsLive<K>(index: map<K, int>, key: K) {
    key in index && index[key] != -1
  }

  /** Live keys and live slots correspond one to one; owner is the map from slots to keys. */
  ghost predicate KeysMatchSlots<K, T>(buf: seq<Slot<T>>, index: map<K, int>, owner: map<int, K>) {
    && (forall n :: n in owner <==> 0 <= n < |buf| && buf[n].Live?)
    && KeysMatchOwners(index, owner)
  }

  ghost predicate KeysMatchOwners<K>(index: map<K, int>, owner: map<int, K>) {
    && (forall n :: n in owner ==> IsLive(index, owner[n]) && index[owner[n]] == n)
    && (forall k :: k in index && IsLive(index, k) ==> index[k] in owner && owner[index[k]] == k)
  }

  ghost function LiveKeys<K>(index: map<K, int>): set<K> {
    set k | k in index && IsLive(index, k)
  }

  /** The map that keys and slots stand for. */
  ghost function ObjectsOf<K, T>(buf: seq<Slot<T>>, index: map<K, int>): map<K, T>
    requires forall k :: k in index && IsLive(index, k) ==> 0 <= index[k] < |buf| && buf[index[k]].Live?
  {
    map k | k in LiveKeys(index) :: buf[index[k]].value
  }

  /** Where each key's object is. */
  ghost function IndicesOf<K>(index: map<K, int>): map<K, int> {
    map k | k in LiveKeys(index) :: index[k]
  }

  // ----- the free list

  lemma ChainStart<T>(buf: seq<Slot<T>>, freeIdx: int, chain: seq<int>)
    requires IsChain(buf, freeIdx, chain)
    ensures 0 <= freeIdx <= |buf| && (freeIdx == |buf| <==> chain == [])
    ensures freeIdx < |buf| ==> buf[freeIdx].Dead?
  {
  }

  lemma ChainGrow<T>(buf: seq<Slot<T>>, chain: seq<int>, v: T)
    requires IsChain(buf, |buf|, chain)
    ensures chain == [] && IsChain(buf + [Live(v)], |buf| + 1, [])
  {
  }

  lemma ChainPop<T>(buf: seq<Slot<T>>, freeIdx: int, chain: seq<int>, v: T)
    requires IsChain(buf, freeIdx, chain) && 0 <= freeIdx < |buf|
    ensures chain != [] && chain[0] == freeIdx && buf[freeIdx].Dead?
    ensures IsChain(buf[freeIdx := Live(v)], buf[freeIdx].next, chain[1..])
  {
  }

  lemma ChainPush<T>(buf: seq<Slot<T>>, freeIdx: int, chain: seq<int>, idx: int)
    requires IsChain(buf, freeIdx, chain) && 0 <= idx < |buf| && buf[idx].Live?
    ensures IsChain(buf[idx := Dead(freeIdx)], idx, [idx] + chain)
  {
  }

  lemma ChainWrite<T>(buf: seq<Slot<T>>, freeIdx: int, chain: seq<int>, idx: int, v: T)
    requires IsChain(buf, freeIdx, chain) && 0 <= idx < |buf| && buf[idx].Live?
    ensures IsChain(buf[idx := Live(v)], freeIdx, chain)
  {
  }

  /** Where the links lead from slot i after the given number of steps. */
  function Follow<T>(buf: seq<Slot<T>>, i: int, steps: nat): int
    decreases steps
  {
    if steps == 0 then i
    else if 0 <= i < |buf| && buf[i].Dead? then Follow(buf, buf[i].next, steps - 1) else -1
  }

  /** Following the links from freeIdx visits the chain in order and ends at the buffer's size. */
  lemma {:induction false} FollowChain<T>(buf: seq<Slot<T>>, freeIdx: int, chain: seq<int>, from: nat, steps: nat)
    requires IsChain(buf, freeIdx, chain) && from + steps <= |chain|
    ensures Follow(buf, ChainAt(buf, chain, from), steps) == ChainAt(buf, chain, from + steps)
    decreases steps
  {
    if steps > 0 {
      assert buf[chain[from]] == Dead(ChainAt(buf, chain, from + 1));
      FollowChain(buf, freeIdx, chain, from + 1, steps - 1);
    }
  }

  // ----- keys and slots

  lemma MatchAdd<K, T>(buf: seq<Slot<T>>, buf': seq<Slot<T>>, index: map<K, int>, owner: map<int, K>, key: K, idx: int)
    requires KeysMatchSlots(buf, index, owner) && !IsLive(index, key)
    requires SlotAdded(buf, buf', idx)
    ensures KeysMatchSlots(buf', index[key := idx], owner[idx := key])
    ensures IndicesOf(index[key := idx]) == IndicesOf(index)[key := idx]
    ensures LiveKeys(index[key := idx]) == LiveKeys(index) + {key} && key !in LiveKeys(index)
    ensures ObjectsOf(buf', index[key := idx]) == ObjectsOf(buf, index)[key := buf'[idx].value]
  {
    LiveKeysAdd(index, key, idx);
    OwnersAdd(index, owner, key, idx);
    ObjectsAdd(buf, buf', index, owner, key, idx);
  }

  lemma ObjectsAdd<K, T>(buf: seq<Slot<T>>, buf': seq<Slot<T>>, index: map<K, int>, owner: map<int, K>, key: K, idx: int)
    requires KeysMatchSlots(buf, index, owner) && KeysMatchSlots(buf', index[key := idx], owner[idx := key])
    requires !IsLive(index, key) && SlotAdded(buf, buf', idx)
    ensures ObjectsOf(buf', index[key := idx]) == ObjectsOf(buf, index)[key := buf'[idx].value]
  {
    LiveKeysAdd(index, key, idx);
    forall k | k in LiveKeys(index)
      ensures 0 <= index[k] < |buf| && buf[index[k]].Live? && buf'[index[k]] == buf[index[k]]
    {
      LiveSlot(buf, index, owner, k);
    }
  }

  /** Slot idx is taken into use; the others stay. */
  ghost predicate SlotAdded<T>(buf: seq<Slot<T>>, buf': seq<Slot<T>>, idx: int) {
    && 0 <= idx < |buf'| && buf'[idx].Live? && (idx < |buf| ==> buf[idx].Dead?)
    && |buf'| == (if idx < |buf| then |buf| else idx + 1) && idx <= |buf|
    && forall n :: 0 <= n < |buf| && n != idx ==> buf'[n] == buf[n]
  }

  lemma LiveKeysAdd<K>(index: map<K, int>, key: K, idx: int)
    requires !IsLive(index, key) && idx != -1
    ensures LiveKeys(index[key := idx]) == LiveKeys(index) + {key} && key !in LiveKeys(index)
    ensures IndicesOf(index[key := idx]) == IndicesOf(index)[key := idx]
  {
  }

  lemma OwnersAdd<K>(index: map<K, int>, owner: map<int, K>, key: K, idx: int)
    requires KeysMatchOwners(index, owner) && !IsLive(index, key) && idx !in owner && idx != -1
    ensures KeysMatchOwners(index[key := idx], owner[idx := key])
  {
  }

  lemma LiveSlot<K, T>(buf: seq<Slot<T>>, index: map<K, int>, owner: map<int, K>, key: K)
    requires KeysMatchSlots(buf, index, owner) && key in LiveKeys(index)
    ensures 0 <= index[key] < |buf| && buf[index[key]].Live?
  {
  }

  lemma EntryIsLive<K>(index: map<K, int>, key: K)
    requires key in index
    ensures IsLive(index, key) <==> index[key] != -1
  {
  }

  lemma LiveKeyIndex<K>(index: map<K, int>, key: K)
    requires IsLive(index, key)
    ensures key in IndicesOf(index) && IndicesOf(index)[key] == index[key]
  {
  }

  lemma MatchAbsent<K, T>(buf: seq<Slot<T>>, index: map<K, int>, owner: map<int, K>, key: K)
    requires KeysMatchSlots(buf, index, owner)
    ensures key in ObjectsOf(buf, index) <==> IsLive(index, key)
  {
  }

  /** An entry with -1 is as good as none. */
  lemma MatchMinusOne<K, T>(buf: seq<Slot<T>>, index: map<K, int>, owner: map<int, K>, key: K)
    requires KeysMatchSlots(buf, index, owner) && key !in index
    ensures KeysMatchSlots(buf, index[key := -1], owner)
    ensures LiveKeys(index[key := -1]) == LiveKeys(index) && IndicesOf(index[key := -1]) == IndicesOf(index)
    ensures ObjectsOf(buf, index[key := -1]) == ObjectsOf(buf, index)
  {
  }

  lemma MatchRemove<K, T>(buf: seq<Slot<T>>, index: map<K, int>, owner: map<int, K>, key: K, next: int)
    requires KeysMatchSlots(buf, index, owner) && IsLive(index, key)
    ensures 0 <= index[key] < |buf| && buf[index[key]].Live?
    ensures KeysMatchSlots(buf[index[key] := Dead(next)], index[key := -1], owner - {index[key]})
    ensures LiveKeys(index[key := -1]) == LiveKeys(index) - {key} && key in LiveKeys(index)
    ensures IndicesOf(index[key := -1]) == IndicesOf(index) - {key}
    ensures ObjectsOf(buf[index[key] := Dead(next)], index[key := -1]) == ObjectsOf(buf, index) - {key}
  {
  }

  class ImPool<K(==), T> {
    const init: T  // what a new object is constructed to
    const buf: ImVector<Slot<T>>
    var index: map<K, int>
    var freeIdx: int
    var aliveCount: int

    ghost var chain: seq<int>    // the dead slots in the order of the free list
    ghost var owner: map<int, K> // the key of each live slot

    ghost predicate Valid()
      reads this, buf, buf.data
    {
      && buf.Valid() && IsChain(Slots(), freeIdx, chain) && KeysMatchSlots(Slots(), index, owner)
      && buf.size == aliveCount + |chain| && aliveCount == |LiveKeys(index)|
    }

    ghost function Slots(): seq<Slot<T>>
      requires buf.Valid()
      reads this, buf, buf.data
    {
      buf.Contents()
    }

    ghost function Objects(): map<K, T>
      requires Valid()
      reads this, buf, buf.data
    {
      ObjectsOf(Slots(), index)
    }

    ghost function Indices(): map<K, int>
      reads this
    {
      IndicesOf(index)
    }

    constructor (init: T)
      ensures Valid() && Objects() == map[] && buf.size == 0 && this.init == init && fresh(buf)
    {
      this.init := init;
      buf := new ImVector();
      index, freeIdx, aliveCount := map[], 0, 0;
      chain, owner := [], map[];
    }

    /** The index of the key's object, or -1 if there is none. */
    method GetByKey(key: K) returns (idx: int)
      requires Valid()
      ensures if key in Objects() then idx == Indices()[key] && 0 <= idx < buf.size && Slots()[idx] == Live(Objects()[key])
              else idx == -1
    {
      idx := if key in index then index[key] else -1;
    }

    /** Gives the key an entry in the map, -1 if it has none yet. */
    method EnsureEntry(key: K)
      requires Valid()
      modifies `index
      ensures Valid() && key in index && Objects() == old(Objects()) && Indices() == old(Indices())
    {
      hide IsChain, KeysMatchSlots, ObjectsOf, IndicesOf, LiveKeys;
      if key !in index {
        MatchMinusOne(Slots(), index, owner, key);
        index := index[key := -1];
      }
    }

    /** The index of the key's object, which is created if there is none. */
    method GetOrAddByKey(key: K) returns (idx: int)
      requires Valid()
      modifies this, buf, buf.data
      ensures Valid() && (buf.data == old(buf.data) || fresh(buf.data))
      ensures key in old(Objects()) ==> Objects() == old(Objects()) && Indices() == old(Indices())
      ensures key !in old(Objects()) ==>
                && Objects() == old(Objects())[key := init]
                && Indices() == old(Indices())[key := old(freeIdx)]
      ensures key in Indices() && idx == Indices()[key]
      ensures chain == if key in old(Objects()) || old(chain) == [] then old(chain) else old(chain)[1..]
    {
      hide IsChain, KeysMatchSlots, ObjectsOf, IndicesOf, SlotAdded, IsLive, LiveKeys;
      EnsureEntry(key);
      MatchAbsent(Slots(), index, owner, key);
      EntryIsLive(index, key);
      if index[key] != -1 {
        LiveKeyIndex(index, key);
        return index[key];
      }
      ghost var before, index0, owner0 := Slots(), index, owner;
      index := index[key := freeIdx];
      idx := Add();
      MatchAdd(before, Slots(), index0, owner0, key, idx);
      EntryIsLive(index, key);
      LiveKeyIndex(index, key);
      owner := owner[idx := key];
    }

    /** Constructs an object in the first free slot, or in a new one if there is none. */
    method Add() returns (idx: int)
      requires buf.Valid() && IsChain(Slots(), freeIdx, chain) && buf.size == aliveCount + |chain|
      modifies buf, buf.data, `freeIdx, `aliveCount, `chain
      ensures buf.Valid() && (buf.data == old(buf.data) || fresh(buf.data))
      ensures chain == if old(chain) == [] then [] else old(chain)[1..]
      ensures IsChain(Slots(), freeIdx, chain) && buf.size == aliveCount + |chain| && aliveCount == old(aliveCount) + 1
      ensures idx == old(freeIdx) && SlotAdded(old(Slots()), Slots(), idx) && Slots()[idx] == Live(init)
    {
      idx := freeIdx;
      ChainStart(Slots(), freeIdx, chain);
      ghost var before := Slots();
      if idx == buf.size {
        ChainGrow(before, chain, init);
        buf.Resize(buf.size + 1);
        freeIdx := freeIdx + 1;
        buf.data[idx] := Live(init);
        assert Slots() == before + [Live(init)];
      } else {
        ChainPop(before, freeIdx, chain, init);
        freeIdx := buf.data[idx].next;
        buf.data[idx] := Live(init);
        assert Slots() == before[idx := Live(init)];
        chain := chain[1..];
      }
      aliveCount := aliveCount + 1;
    }

    /** Destroys the key's object; its slot becomes the first free one. */
    method Remove(key: K, idx: int)
      requires Valid() && key in Indices() && idx == Indices()[key]
      modifies this, buf.data
      ensures Valid() && freeIdx == idx && chain == [idx] + old(chain)
      ensures Objects() == old(Objects()) - {key} && Indices() == old(Indices()) - {key}
    {
      hide IsChain, KeysMatchSlots, ObjectsOf;
      ghost var before := Slots();
      MatchRemove(before, index, owner, key, freeIdx);
      ChainPush(before, freeIdx, chain, idx);
      buf.data[idx] := Dead(freeIdx);
      assert Slots() == before[idx := Dead(freeIdx)];
      freeIdx := idx;
      index := index[key := -1];
      aliveCount := aliveCount - 1;
      chain := [idx] + chain;
      owner := owner - {idx};
    }

    /** Writes to the key's object through its index. */
    method Write(ghost key: K, idx: int, value: T)
      requires Valid() && key in Indices() && idx == Indices()[key]
      modifies buf.data
      ensures Valid() && Objects() == old(Objects())[key := value] && Indices() == old(Indices())
    {
      hide IsChain;
      ghost var before := Slots();
      LiveSlot(before, index, owner, key);
      ChainWrite(before, freeIdx, chain, idx, value);
      buf.data[idx] := Live(value);
      assert Slots() == before[idx := Live(value)];
    }

    method Clear()
      requires Valid()
      modifies this, buf
      ensures Valid() && Objects() == map[] && buf.size == 0
    {
      buf.Clear();
      index, freeIdx, aliveCount := map[], 0, 0;
      chain, owner := [], map[];
    }

    /** Every slot is either some key's or on the free list, and the free list has an end. */
    lemma SlotsArePartitioned()
      requires Valid()
      ensures forall k, l :: k in Indices() && l in Indices() && k != l ==> Indices()[k] != Indices()[l]
      ensures forall n :: 0 <= n < buf.size ==> (n in Indices().Values <==> n !in chain)
      ensures Follow(Slots(), freeIdx, |chain|) == buf.size && |chain| == buf.size - |Objects()|
    {
      FollowChain(Slots(), freeIdx, chain, 0, |chain|);
      assert Objects().Keys == LiveKeys(index);
      forall n | 0 <= n < buf.size ensures n in Indices().Values <==> n !in chain {
        if n in chain {
          var i :| 0 <= i < |chain| && chain[i] == n;
          assert Slots()[chain[i]].Dead?;
        } else {
          assert owner[n] in Indices() && Indices()[owner[n]] == n;
        }
      }
    }
  }
}
