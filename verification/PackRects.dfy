/**
  Packing an array of rectangles: sort by height, place one by one, restore the order, set the flags.
 */
module PackRects {
  import opened Skyline
  import opened FloorScan
  import opened Permutations
  import opened Search
  import opened PackerRuns
  import opened RectPacker

  // The maximum supported coordinate value; marks a rectangle that was not placed.
  const MAXVAL: int := 0x7fff_ffff

  lemma MaxvalIsLargest()
    ensures Int32(MAXVAL) && !Int32(MAXVAL + 1)
  {
  }

  datatype Rect = Rect(id: int, w: int, h: int, x: int, y: int, wasPacked: int)

  /** Higher first, then wider first. */
  function RectHeightCompare(p: Rect, q: Rect): int {
    if p.h > q.h then -1
    else if p.h < q.h then 1
    else if p.w > q.w then -1
    else if p.w < q.w then 1 else 0
  }

  function RectOriginalOrder(p: Rect, q: Rect): int {
    if p.wasPacked < q.wasPacked then -1 else if p.wasPacked > q.wasPacked then 1 else 0
  }

  /**
    The comparators meet the contract of a sort: swapping the arguments swaps the sign, and the order is
    transitive. Taller comes first, then wider; only equal sizes compare equal.
   */
  lemma ComparatorsAreConsistent(p: Rect, q: Rect, r: Rect)
    ensures RectHeightCompare(p, q) == -RectHeightCompare(q, p)
    ensures RectHeightCompare(p, q) == 0 <==> p.w == q.w && p.h == q.h
    ensures RectHeightCompare(p, q) < 0 ==> p.h >= q.h && (p.h == q.h ==> p.w > q.w)
    ensures RectHeightCompare(p, q) < 0 && RectHeightCompare(q, r) <= 0 ==> RectHeightCompare(p, r) < 0
    ensures RectOriginalOrder(p, q) == -RectOriginalOrder(q, p)
    ensures RectOriginalOrder(p, q) < 0 <==> p.wasPacked < q.wasPacked
  {
  }

  function HeightOrder(p: Rect, q: Rect): bool { RectHeightCompare(p, q) <= 0 }

  function OriginalOrder(p: Rect, q: Rect): bool { RectOriginalOrder(p, q) <= 0 }

  /**
    Any sort that keeps the elements and orders them is as good as this one: callers know no more of it
    than the three postconditions, in particular nothing about the order of equal elements.
   */
  method Sort(a: array<Rect>, le: (Rect, Rect) -> bool) returns (ghost perm: seq<int>)
    requires TotalPreorder(le)
    modifies a
    ensures IsPermutation(perm, a.Length)
    ensures a[..] == Rearranged(old(a[..]), perm)
    ensures SortedBy(a[..], le)
  {
    ghost var s := a[..];
    perm := seq(a.Length, i => i);
    var i := 0;
    while i < a.Length
      invariant 0 <= i <= a.Length
      invariant IsArrangement(a[..], s, perm)
      invariant SortedBy(a[..i], le)
    {
      perm := Insert(a, i, le, s, perm);
      i := i + 1;
    }
    assert a[..i] == a[..];
  }

  ghost predicate IsArrangement(t: seq<Rect>, s: seq<Rect>, perm: seq<int>) {
    && IsPermutation(perm, |s|) && t == Rearranged(s, perm)
  }

  /** All pairs of t but those with index `gap` are in order. */
  ghost predicate SortedBut(t: seq<Rect>, le: (Rect, Rect) -> bool, gap: nat) {
    forall k, m :: 0 <= k < m < |t| && k != gap && m != gap ==> le(t[k], t[m])
  }

  /** Moves a[i] left to its place among the sorted a[..i]. */
  method Insert(a: array<Rect>, i: nat, le: (Rect, Rect) -> bool, ghost s: seq<Rect>, ghost perm0: seq<int>)
    returns (ghost perm: seq<int>)
    requires TotalPreorder(le) && i < a.Length
    requires IsArrangement(a[..], s, perm0) && SortedBy(a[..i], le)
    modifies a
    ensures IsArrangement(a[..], s, perm) && SortedBy(a[..i + 1], le)
  {
    hide TotalPreorder, IsArrangement, SortedBy, SortedBut;
    perm := perm0;
    var j := i;
    StartSortedBut(a[..i + 1], le, i);
    assert a[..i + 1][..i] == a[..i];
    while j > 0 && !le(a[j - 1], a[j])
      invariant 0 <= j <= i
      invariant IsArrangement(a[..], s, perm)
      invariant SortedBut(a[..i + 1], le, j) && forall m :: j < m <= i ==> le(a[j], a[m])
    {
      ghost var t := a[..];
      SwapArrangement(t, s, perm, j);
      SwapSortedBut(t[..i + 1], le, j);
      a[j - 1], a[j] := a[j], a[j - 1];
      perm := perm[j - 1 := perm[j]][j := perm[j - 1]];
      assert a[..] == t[j - 1 := t[j]][j := t[j - 1]];
      assert a[..i + 1] == t[..i + 1][j - 1 := t[j]][j := t[j - 1]];
      j := j - 1;
    }
    CloseGap(a[..i + 1], le, j);
  }

  lemma StartSortedBut(t: seq<Rect>, le: (Rect, Rect) -> bool, i: nat)
    requires |t| == i + 1
    ensures SortedBy(t[..i], le) ==> SortedBut(t, le, i)
  {
  }

  lemma SwapArrangement(t: seq<Rect>, s: seq<Rect>, perm: seq<int>, j: nat)
    requires IsArrangement(t, s, perm) && 0 < j < |t|
    ensures |perm| == |t|
    ensures IsArrangement(t[j - 1 := t[j]][j := t[j - 1]], s, perm[j - 1 := perm[j]][j := perm[j - 1]])
  {
  }

  lemma SwapSortedBut(t: seq<Rect>, le: (Rect, Rect) -> bool, j: nat)
    requires TotalPreorder(le) && SortedBut(t, le, j) && 0 < j < |t| && !le(t[j - 1], t[j])
    requires forall m :: j < m < |t| ==> le(t[j], t[m])
    ensures var t' := t[j - 1 := t[j]][j := t[j - 1]];
            SortedBut(t', le, j - 1) && forall m :: j - 1 < m < |t| ==> le(t'[j - 1], t'[m])
  {
  }

  lemma CloseGap(t: seq<Rect>, le: (Rect, Rect) -> bool, j: nat)
    requires TotalPreorder(le) && SortedBut(t, le, j) && j < |t| && (j > 0 ==> le(t[j - 1], t[j]))
    requires forall m :: j < m < |t| ==> le(t[j], t[m])
    ensures SortedBy(t, le)
  {
  }

  // ----- what a call does, on values

  function PlaceOf(r: Rect): Event { Place(r.w, r.h) }

  ghost function Places(s: seq<Rect>): (es: seq<Event>)
    ensures |es| == |s| && forall k :: 0 <= k < |s| ==> es[k] == PlaceOf(s[k])
  {
    seq(|s|, k requires 0 <= k < |s| => PlaceOf(s[k]))
  }

  /** The rectangle with the position that the answer stands for. */
  function Located(r: Rect, o: Outcome): Rect {
    match o
    case NoSpaceNeeded => r.(x := 0, y := 0)
    case Packed(x, y) => r.(x := x, y := y)
    case Rejected => r.(x := MAXVAL, y := MAXVAL)
  }

  /** The rectangle as it is returned: `wasPacked` is 0 exactly if it was rejected. */
  function Returned(r: Rect, o: Outcome): Rect {
    Located(r, o).(wasPacked := if o == Rejected then 0 else 1)
  }

  predicate AllPacked(s: seq<Rect>) {
    forall i :: 0 <= i < |s| ==> s[i].wasPacked != 0
  }

  ghost predicate NonNegative(s: seq<Rect>) {
    forall i :: 0 <= i < |s| ==> 0 <= s[i].w && 0 <= s[i].h
  }

  /**
    A call that takes `input` to `output`: the rectangles are placed in the order `order`, which sorts
    them by height, with the answers `os`; each result is at the index of its rectangle.
   */
  ghost predicate PackedAs(st: State, st': State, input: seq<Rect>, order: seq<int>, os: seq<Outcome>,
                           output: seq<Rect>, status: int)
  {
    && WellFormed(st) && |output| == |input|
    && IsPermutation(order, |input|)
    && SortedBy(Rearranged(input, order), HeightOrder)
    && Runs(st, Places(Rearranged(input, order)), os)
    && st' == Final(st, Places(Rearranged(input, order)), os)
    && (forall j :: 0 <= j < |order| ==> output[order[j]] == Returned(input[order[j]], os[j]))
    && status == (if AllPacked(output) then 1 else 0)
  }

  // ----- the call

  /** Remembers each rectangle's index in `wasPacked`. */
  method Tag(rects: array<Rect>)
    modifies rects
    ensures forall i :: 0 <= i < rects.Length ==> rects[i] == old(rects[i]).(wasPacked := i)
  {
    for i := 0 to rects.Length
      invariant forall k :: 0 <= k < i ==> rects[k] == old(rects[k]).(wasPacked := k)
      invariant forall k :: i <= k < rects.Length ==> rects[k] == old(rects[k])
    {
      rects[i] := rects[i].(wasPacked := i);
    }
  }

  /** Places one rectangle. */
  method PlaceRect(c: Context, r: Rect) returns (r': Rect, ghost o: Outcome)
    requires c.Valid() && 0 <= r.w && 0 <= r.h
    modifies c, c.pool
    ensures c.Valid() && c.pool == old(c.pool) && r' == Located(r, o)
    ensures Legal(old(c.Abstract()), PlaceOf(r), o) && c.Abstract() == After(old(c.Abstract()), PlaceOf(r), o)
    ensures c.events == old(c.events) + [PlaceOf(r)] && c.outcomes == old(c.outcomes) + [o]
  {
    if r.w == 0 || r.h == 0 {
      c.SkipEmpty(r.w, r.h);
      r', o := r.(x := 0, y := 0), NoSpaceNeeded;
    } else {
      var fr := c.PackRectangle(r.w, r.h);
      o := Answer(fr);
      if fr.prevLink != NoLink {
        r' := r.(x := fr.x, y := fr.y);
      } else {
        r' := r.(x := MAXVAL, y := MAXVAL);
      }
    }
  }

  /** Places the rectangles in the order of the array. */
  method PlaceAll(c: Context, rects: array<Rect>) returns (ghost os: seq<Outcome>)
    requires c.Valid() && NonNegative(rects[..])
    modifies c, c.pool, rects
    ensures c.Valid() && c.pool == old(c.pool)
    ensures var es := Places(old(rects[..]));
            && Runs(old(c.Abstract()), es, os) && c.Abstract() == Final(old(c.Abstract()), es, os)
            && c.events == old(c.events) + es && c.outcomes == old(c.outcomes) + os
    ensures IsLocated(old(rects[..]), os, rects[..])
  {
    hide Legal, After, IsSkyline, GroundIsLast, History, WellFormed, RunsTo, LocatedUpTo, PlaceOf, Located;
    hide Shows, Linked, Separate, Holds;
    ghost var st, s, es0, os0 := c.Abstract(), rects[..], c.events, c.outcomes;
    ghost var es := Places(s);
    os := [];
    RunsToStart(st, es, s);
    for i := 0 to rects.Length
      invariant c.Valid() && c.pool == old(c.pool)
      invariant RunsTo(st, es, i, os, c.Abstract())
      invariant c.events == es0 + es[..i] && c.outcomes == os0 + os
      invariant LocatedUpTo(rects[..], s, os, i)
    {
      PlaceIsNext(rects[..], s, os, i);
      ghost var cur := c.Abstract();
      var r, o := PlaceRect(c, rects[i]);
      RunsToStep(st, es, i, os, cur, o);
      ghost var before := rects[..];
      LocatedStep(before, s, os, i, o);
      rects[i] := r;
      assert rects[..] == before[i := r];
      os := os + [o];
    }
    RunsToEnd(st, es, os, c.Abstract());
    LocatedAll(rects[..], s, os);
    hide IsLocated;
  }

  /** cur is reached from st by the first i events with the answers os. */
  ghost predicate RunsTo(st: State, es: seq<Event>, i: nat, os: seq<Outcome>, cur: State) {
    i <= |es| && |os| == i && WellFormed(st) && Runs(st, es[..i], os) && cur == Final(st, es[..i], os)
  }

  lemma RunsToStart(st: State, es: seq<Event>, s: seq<Rect>)
    requires WellFormed(st)
    ensures RunsTo(st, es, 0, [], st) && LocatedUpTo(s, s, [], 0)
  {
  }

  lemma RunsToStep(st: State, es: seq<Event>, i: nat, os: seq<Outcome>, cur: State, o: Outcome)
    requires RunsTo(st, es, i, os, cur) && i < |es| && Legal(cur, es[i], o)
    ensures RunsTo(st, es, i + 1, os + [o], After(cur, es[i], o))
  {
    hide Legal, After, IsSkyline, GroundIsLast;
    RunsAppend(st, es[..i], os, es[i], o);
    assert es[..i + 1] == es[..i] + [es[i]];
  }

  lemma RunsToEnd(st: State, es: seq<Event>, os: seq<Outcome>, cur: State)
    requires RunsTo(st, es, |es|, os, cur)
    ensures WellFormed(st) && Runs(st, es, os) && cur == Final(st, es, os) && |os| == |es|
    ensures es[..|es|] == es
  {
    assert es[..|es|] == es;
  }

  /** The first i rectangles have got the positions that their answers stand for; the others are untouched. */
  ghost predicate LocatedUpTo(t: seq<Rect>, s: seq<Rect>, os: seq<Outcome>, i: nat) {
    && |t| == |s| && i == |os| <= |s|
    && (forall k :: 0 <= k < i ==> t[k] == Located(s[k], os[k]))
    && forall k :: i <= k < |s| ==> t[k] == s[k]
  }

  lemma PlaceIsNext(t: seq<Rect>, s: seq<Rect>, os: seq<Outcome>, i: nat)
    requires LocatedUpTo(t, s, os, i) && NonNegative(s) && i < |t|
    ensures t[i] == s[i] && 0 <= t[i].w && 0 <= t[i].h && Places(s)[i] == PlaceOf(t[i])
  {
  }

  lemma LocatedStep(t: seq<Rect>, s: seq<Rect>, os: seq<Outcome>, i: nat, o: Outcome)
    requires LocatedUpTo(t, s, os, i) && i < |t|
    ensures LocatedUpTo(t[i := Located(t[i], o)], s, os + [o], i + 1)
  {
  }

  lemma LocatedAll(t: seq<Rect>, s: seq<Rect>, os: seq<Outcome>)
    requires LocatedUpTo(t, s, os, |s|)
    ensures IsLocated(s, os, t)
  {
  }

  /** Sets the flags and tells whether every rectangle has been placed. */
  method Flag(rects: array<Rect>) returns (allPacked: int)
    modifies rects
    ensures forall i :: 0 <= i < rects.Length ==> rects[i] == Flagged(old(rects[i]))
    ensures allPacked == if AllPacked(rects[..]) then 1 else 0
  {
    allPacked := 1;
    for i := 0 to rects.Length
      invariant forall k :: 0 <= k < i ==> rects[k] == Flagged(old(rects[k]))
      invariant forall k :: i <= k < rects.Length ==> rects[k] == old(rects[k])
      invariant allPacked == if AllPacked(rects[..i]) then 1 else 0
    {
      ghost var before := rects[..];
      rects[i] := rects[i].(wasPacked := if !(rects[i].x == MAXVAL && rects[i].y == MAXVAL) then 1 else 0);
      if rects[i].wasPacked == 0 {
        allPacked := 0;
      }
      assert rects[..i + 1][..i] == before[..i] && rects[..i + 1][i] == rects[i];
    }
    assert rects[..rects.Length] == rects[..];
  }

  lemma OrdersAreTotal()
    ensures TotalPreorder(HeightOrder) && TotalPreorder(OriginalOrder)
  {
  }

  ghost function Tagged(s: seq<Rect>): (t: seq<Rect>)
    ensures |t| == |s| && forall i :: 0 <= i < |s| ==> t[i] == s[i].(wasPacked := i)
  {
    seq(|s|, i requires 0 <= i < |s| => s[i].(wasPacked := i))
  }

  /** The sort and the placements look at widths and heights only. */
  lemma TagsDoNotMatter(input: seq<Rect>, order: seq<int>)
    requires IsPermutation(order, |input|) && SortedBy(Rearranged(Tagged(input), order), HeightOrder)
    ensures SortedBy(Rearranged(input, order), HeightOrder)
    ensures Places(Rearranged(Tagged(input), order)) == Places(Rearranged(input, order))
  {
  }

  /** Sorting by the remembered index puts each rectangle back where it came from. */
  lemma UnsortRestoresOrder(order: seq<int>, placed: seq<Rect>, back: seq<int>)
    requires IsPermutation(order, |placed|) && IsPermutation(back, |placed|)
    requires forall j :: 0 <= j < |placed| ==> placed[j].wasPacked == order[j]
    requires SortedBy(Rearranged(placed, back), OriginalOrder)
    ensures forall j :: 0 <= j < |placed| ==> Rearranged(placed, back)[order[j]] == placed[j]
  {
    var t := Rearranged(placed, back);
    var index := Rearranged(order, back);
    ComposedPermutation(order, back, |placed|);
    forall i, j | 0 <= i < j < |index| ensures index[i] <= index[j] {
      assert OriginalOrder(t[i], t[j]);
    }
    SortedPermutationIsIdentity(index, |placed|);
    forall j | 0 <= j < |placed| ensures back[order[j]] == j {
      var k := back[order[j]];
      assert index[order[j]] == order[k] == order[j];
      assert !(k < j) && !(j < k);
    }
  }

  lemma PackedIsNotMax(st: State, es: seq<Event>, os: seq<Outcome>)
    requires WellFormed(st) && Runs(st, es, os)
    ensures forall j :: 0 <= j < |es| && es[j].Place? && os[j].Packed? ==> os[j].y < MAXVAL
  {
    hide Disjoint, At, IsSkyline, Legal;
    RunIsSafe(st, es, os);
    forall j | 0 <= j < |es| && es[j].Place? && os[j].Packed? ensures os[j].y < MAXVAL {
      assert IsPlaced(es, os, j);
      assert Inside(BoxOf(es[j], os[j]), Final(st, es, os).width, Final(st, es, os).height);
    }
  }

  /** t is the input sorted by height, with each rectangle tagged by the index it came from. */
  ghost predicate IsSortedByHeight(input: seq<Rect>, order: seq<int>, t: seq<Rect>) {
    IsPermutation(order, |input|) && t == Rearranged(Tagged(input), order) && SortedBy(t, HeightOrder)
  }

  method SortByHeight(rects: array<Rect>) returns (ghost order: seq<int>)
    modifies rects
    ensures IsSortedByHeight(old(rects[..]), order, rects[..])
  {
    ghost var input := rects[..];
    OrdersAreTotal();
    Tag(rects);
    assert rects[..] == Tagged(input);
    order := Sort(rects, HeightOrder);
  }

  ghost predicate IsLocated(s: seq<Rect>, os: seq<Outcome>, t: seq<Rect>) {
    |s| == |os| == |t| && forall j :: 0 <= j < |t| ==> t[j] == Located(s[j], os[j])
  }

  function Flagged(r: Rect): Rect {
    r.(wasPacked := if r.x == MAXVAL && r.y == MAXVAL then 0 else 1)
  }

  /** output is `placed` in the order of the tags with the flags set, and status tells whether all are. */
  ghost predicate IsUnsorted(placed: seq<Rect>, back: seq<int>, output: seq<Rect>, status: int) {
    && IsPermutation(back, |placed|) && SortedBy(Rearranged(placed, back), OriginalOrder)
    && |output| == |placed|
    && (forall i :: 0 <= i < |output| ==> output[i] == Flagged(Rearranged(placed, back)[i]))
    && status == (if AllPacked(output) then 1 else 0)
  }

  method Unsort(rects: array<Rect>) returns (allPacked: int, ghost back: seq<int>)
    modifies rects
    ensures IsUnsorted(old(rects[..]), back, rects[..], allPacked)
  {
    OrdersAreTotal();
    hide TotalPreorder, SortedBy, IsPermutation, OriginalOrder, Flagged, AllPacked;
    back := Sort(rects, OriginalOrder);
    ghost var unsorted := rects[..];
    allPacked := Flag(rects);
    ghost var output := rects[..];
    assert forall i :: 0 <= i < |output| ==> output[i] == Flagged(unsorted[i]);
  }

  lemma CallIsPackedAs(st: State, st': State, input: seq<Rect>, order: seq<int>, sorted: seq<Rect>, os: seq<Outcome>,
                       placed: seq<Rect>, back: seq<int>, output: seq<Rect>, status: int)
    requires WellFormed(st) && IsSortedByHeight(input, order, sorted)
    requires Runs(st, Places(sorted), os) && st' == Final(st, Places(sorted), os)
    requires IsLocated(sorted, os, placed) && IsUnsorted(placed, back, output, status)
    ensures PackedAs(st, st', input, order, os, output, status)
    ensures Places(sorted) == Places(Rearranged(input, order))
  {
    hide Legal, After, IsSkyline, SortedBy, WellFormed;
    TagsDoNotMatter(input, order);
    UnsortRestoresOrder(order, placed, back);
    PackedIsNotMax(st, Places(sorted), os);
    forall j | 0 <= j < |order| ensures output[order[j]] == Returned(input[order[j]], os[j]) {
      assert Rearranged(placed, back)[order[j]] == placed[j];
      assert Places(sorted)[j].Place?;
    }
  }

  /** Assigns locations to the rectangles of the array and reports whether all of them fitted. */
  method PackRects(c: Context, rects: array<Rect>) returns (allPacked: int, ghost order: seq<int>, ghost os: seq<Outcome>)
    requires c.Valid() && NonNegative(rects[..])
    modifies c, c.pool, rects
    ensures c.Valid() && c.pool == old(c.pool)
    ensures PackedAs(old(c.Abstract()), c.Abstract(), old(rects[..]), order, os, rects[..], allPacked)
    ensures c.events == old(c.events) + Places(Rearranged(old(rects[..]), order))
    ensures c.outcomes == old(c.outcomes) + os
  {
    hide Legal, After, IsSkyline, GroundIsLast, History, WellFormed, PackedAs, IsSortedByHeight, IsLocated, IsUnsorted;
    ghost var st, input := c.Abstract(), rects[..];
    order := SortByHeight(rects);
    ghost var sorted := rects[..];
    SortKeepsSizes(input, order, sorted);
    os := PlaceAll(c, rects);
    ghost var placed := rects[..];
    ghost var back;
    allPacked, back := Unsort(rects);
    CallIsPackedAs(st, c.Abstract(), input, order, sorted, os, placed, back, rects[..], allPacked);
  }

  lemma SortKeepsSizes(input: seq<Rect>, order: seq<int>, sorted: seq<Rect>)
    requires NonNegative(input) && IsSortedByHeight(input, order, sorted)
    ensures NonNegative(sorted) && |sorted| == |input|
  {
  }
}
