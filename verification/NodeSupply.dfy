/**
  Does the packer run out of nodes? The header promises that without the out-of-memory mode the
  rounding of widths prevents it. These lemmas say exactly for which storage that is so.
 */
module NodeSupply {
  import opened Arithmetic
  import opened Skyline
  import opened Search
  import opened Splice
  import opened PackerRuns

  lemma {:induction false} StartsAreSpread(s: seq<Seg>, step: int, i: nat)
    requires Increasing(s) && i < |s| && s[0].x >= 0 && step >= 1
    requires forall j :: 0 <= j <= i ==> s[j].x % step == 0
    ensures i * step <= s[i].x
  {
    if i > 0 {
      StartsAreSpread(s, step, i - 1);
      NextMultiple(s[i - 1].x, s[i].x, step);
    }
  }

  // ----- as many nodes as columns

  /** With as many nodes as columns nothing is rounded and there is always a free node, in every reachable state. */
  lemma EnoughForColumns(st: State)
    requires WellFormed(st) && st.numNodes >= st.width
    ensures st.align == 1 && FreeNodes(st) >= 1
  {
    QuantizedAlignIsCeiling(st.width, st.numNodes);
    StartsAreSpread(st.sky, 1, |st.sky| - 1);
    if QuantizedAlign(st.width, st.numNodes) >= 2 {
      TimesMonotone(st.numNodes, 1, QuantizedAlign(st.width, st.numNodes) - 1);
    }
  }

  // ----- widths that are multiples of the quantization

  /**
    All segments start at multiples of `step`, and if the bin width is no such multiple, the last one, which
    covers the strip right of the last multiple, is at height 0.
   */
  ghost predicate StartsAtMultiples(s: seq<Seg>, width: int, step: int)
    requires step >= 1
  {
    && |s| >= 2
    && (forall i :: 0 <= i < |s| - 1 ==> s[i].x % step == 0)
    && (width % step != 0 ==> s[|s| - 2].y == 0)
  }

  /** The event keeps to the quantized widths. */
  ghost predicate KeepsToMultiples(e: Event, step: int)
    requires step >= 1
  {
    e.Place? ==> e.w % step == 0
  }

  lemma SelectedAtMultiple(st: State, w: int, h: int, x: int, y: int, step: int)
    requires WellFormed(st) && w >= 1 && h >= 1 && Legal(st, Place(w, h), Packed(x, y))
    requires step == QuantizedAlign(st.width, st.numNodes) && step >= 1
    requires StartsAtMultiples(st.sky, st.width, step) && w % step == 0
    ensures x % step == 0
  {
    hide Floor;
    AlignedIsExact(st, w, step);
    if LeftAligned(st.sky, w, x) {
      var i :| 0 <= i < |st.sky| && st.sky[i].x == x;
      assert i < |st.sky| - 1;
    } else {
      assert RightAligned(st.sky, w, x);
      var i :| 0 <= i < |st.sky| && st.sky[i].x == x + w;
      if i < |st.sky| - 1 || st.width % step == 0 {
        MultiplesAdd(st.sky[i].x, w, step);
      } else if x % step != 0 {
        NotBesideStrip(st, w, h, x, y, step);
      }
    }
  }

  lemma AlignedIsExact(st: State, w: int, step: int)
    requires WellFormed(st) && step == QuantizedAlign(st.width, st.numNodes) && step >= 1 && w % step == 0
    ensures RoundUp(w, st.align) == w
  {
    if st.align == 1 {
      RoundUpBounds(w, 1);
    } else {
      RoundUpOfMultiple(w, step);
    }
  }

  /**
    No box is placed at the right edge of the bin off the multiples: moved left to the last multiple it
    would rest on the same floor and waste no more.
   */
  lemma NotBesideStrip(st: State, w: int, h: int, x: int, y: int, step: int)
    requires WellFormed(st) && w >= 1 && h >= 1 && Legal(st, Place(w, h), Packed(x, y))
    requires step >= 1 && RoundUp(w, st.align) == w && w % step == 0 && x + w == st.width && 0 <= x
    requires StartsAtMultiples(st.sky, st.width, step)
    ensures x % step == 0
  {
    hide Floor, FloorWaste, Legal, StartsAtMultiples;
    PackedRests(st, w, h, x, y);
    if x % step != 0 {
      var x' := x - x % step;
      SameRemainder(x, w, step);
      LastMultiple(x, 0, step);
      assert Feasible(st.sky, w, x');
      StripIsPoor(st.sky, st.width, st.height, w, x, step);
      PlacementIsOptimal(st, w, h, x, y);
    }
  }

  lemma PackedLands(st: State, w: int, h: int, x: int, y: int)
    requires WellFormed(st) && w >= 1 && h >= 1 && Legal(st, Place(w, h), Packed(x, y))
    ensures Selects(st, w, h, x) && Lands(st, w, h, x, y)
  {
    hide Selects, Lands;
  }

  lemma PackedRests(st: State, w: int, h: int, x: int, y: int)
    requires WellFormed(st) && w >= 1 && h >= 1 && Legal(st, Place(w, h), Packed(x, y))
    ensures y == Floor(st.sky, RoundUp(w, st.align), x) && BinWidth(st.sky) == st.width
  {
    hide Floor;
  }

  lemma StripIsPoor(s: seq<Seg>, binWidth: int, binHeight: int, w: int, x: int, step: int)
    requires IsSkyline(s, binWidth, binHeight) && w >= 1 && step >= 1 && 0 <= x && x + w == binWidth
    requires StartsAtMultiples(s, binWidth, step) && x % step != 0 && binWidth % step == x % step
    ensures var x' := x - x % step;
            Floor(s, w, x') <= Floor(s, w, x)
            && (Floor(s, w, x') == Floor(s, w, x) ==> FloorWaste(s, w, x') <= FloorWaste(s, w, x))
  {
    hide Floor, FloorWaste;
    var x', i, j := x - x % step, SegmentOf(s, x), |s| - 2;
    LastMultiple(x, s[i].x, step);
    LastMultiple(binWidth, s[j].x, step);
    assert s[j].x < s[j + 1].x;
    SlideFloor(s, w, i, j, x, x');
    SlideArea(s, w, i, j, x, x');
    SameSign(x' - x, s[j].y - s[i].y);
    if Floor(s, w, x') == Floor(s, w, x) {
      AreaOrdersWaste(s, w, x', x);
    }
  }

  lemma RoundUpOfMultiple(w: int, step: int)
    requires step >= 1 && w % step == 0
    ensures RoundUp(w, step) == w
  {
    assert w + step - 1 == step * (w / step) + (step - 1);
    DivModOfSum(step, w / step, step - 1);
  }

  lemma PutAtMultiples(s: seq<Seg>, binWidth: int, binHeight: int, p: nat, x: int, y: int, w: int, step: int)
    requires CanPut(s, binWidth, binHeight, p, x, y, w) && step >= 1
    requires StartsAtMultiples(s, binWidth, step) && x % step == 0 && w % step == 0
    requires 0 <= x && p == SegmentOf(s, x) && KeepsGround(s, x)
    ensures StartsAtMultiples(Put(s, p, x, y, w), binWidth, step)
  {
    hide Cut, SegmentOf;
    var q := Kept(s, p, x);
    var k := Cut(s, q, x + w);
    var t := Put(s, p, x, y, w);
    MultiplesAdd(x, w, step);
    CutBounds(s, binWidth, binHeight, p, x, y, w);
    forall i | 0 <= i < |t| - 1 ensures t[i].x % step == 0 {
      if i < q {
        assert t[i] == s[i];
      } else if i >= q + 2 {
        assert t[i] == s[i - q - 1 + k];
      }
    }
    if binWidth % step != 0 {
      assert x + w < binWidth;
      assert k < |s| - 1;
      assert t[|t| - 2].y == s[|s| - 2].y;
    }
  }

  lemma {:induction false} RunStartsAtMultiples(st: State, es: seq<Event>, os: seq<Outcome>, step: int)
    requires WellFormed(st) && Runs(st, es, os)
    requires step == QuantizedAlign(st.width, st.numNodes) && step >= 1 && StartsAtMultiples(st.sky, st.width, step)
    requires forall i :: 0 <= i < |es| ==> KeepsToMultiples(es[i], step)
    ensures StartsAtMultiples(Final(st, es, os).sky, st.width, step)
    decreases |es|
  {
    hide After, StartsAtMultiples, Legal;
    if es != [] {
      assert KeepsToMultiples(es[0], step);
      StepStartsAtMultiples(st, es[0], os[0], step);
      RunStartsAtMultiples(After(st, es[0], os[0]), es[1..], os[1..], step);
    }
  }

  lemma StepStartsAtMultiples(st: State, e: Event, o: Outcome, step: int)
    requires WellFormed(st) && Legal(st, e, o)
    requires step == QuantizedAlign(st.width, st.numNodes) && step >= 1 && StartsAtMultiples(st.sky, st.width, step)
    requires KeepsToMultiples(e, step)
    ensures var st' := After(st, e, o);
            StartsAtMultiples(st'.sky, st.width, step) && st'.width == st.width && st'.numNodes == st.numNodes
  {
    hide Put, StartsAtMultiples, Selects, Lands, MayReject, IsSkyline, GroundIsLast, QuantizedAlign;
    if e.Place? && o.Packed? {
      PlacedAtMultiples(st, e.w, e.h, o.x, o.y, step);
    }
  }

  lemma PlacedAtMultiples(st: State, w: int, h: int, x: int, y: int, step: int)
    requires WellFormed(st) && w >= 1 && h >= 1 && Legal(st, Place(w, h), Packed(x, y))
    requires step == QuantizedAlign(st.width, st.numNodes) && step >= 1 && StartsAtMultiples(st.sky, st.width, step)
    requires w % step == 0
    ensures 0 <= x && SegmentOf(st.sky, x) + 1 < |st.sky|
    ensures StartsAtMultiples(Put(st.sky, SegmentOf(st.sky, x), x, y + h, w), st.width, step)
  {
    hide Put, StartsAtMultiples, Legal, Selects, Lands, CanPut, KeepsGround, SegmentOf, GroundIsLast, QuantizedAlign;
    SelectedAtMultiple(st, w, h, x, y, step);
    PackedLands(st, w, h, x, y);
    LandingCanPut(st, w, h, x, y);
    SelectionKeepsGround(st, w, h, x);
    PutAtMultiples(st.sky, st.width, st.height, SegmentOf(st.sky, x), x, y + h, w, step);
  }

  lemma MultiplesLeaveFreeNode(st: State, step: int)
    requires WellFormed(st) && step == QuantizedAlign(st.width, st.numNodes) && step >= 1
    requires StartsAtMultiples(st.sky, st.width, step)
    ensures FreeNodes(st) >= 1
  {
    QuantizedAlignIsCeiling(st.width, st.numNodes);
    var last := |st.sky| - 2;
    StartsAreSpread(st.sky, step, last);
    assert st.sky[last].x < st.sky[last + 1].x;
    if st.numNodes <= last {
      TimesMonotone(step, st.numNodes, last);
    }
  }

  /** The promise holds for every run whose widths are multiples of the quantization, under both heuristics. */
  lemma EnoughForMultiples(width: int, height: int, numNodes: int, es: seq<Event>, os: seq<Outcome>)
    requires 1 <= width && 0 <= height < SENTINEL_Y && 1 <= numNodes
    requires Runs(Init(width, height, numNodes), es, os)
    requires forall i :: 0 <= i < |es| && es[i].Place? ==> es[i].w % Init(width, height, numNodes).align == 0
    ensures FreeNodes(Final(Init(width, height, numNodes), es, os)) >= 1
  {
    var step := QuantizedAlign(width, numNodes);
    QuantizedAlignIsPositive(width, numNodes);
    RunStartsAtMultiples(Init(width, height, numNodes), es, os, step);
    MultiplesLeaveFreeNode(Final(Init(width, height, numNodes), es, os), step);
  }

  // ----- exactly when a box is turned away for lack of a node

  /** The search selects a position with room for the box, and only the empty free list makes the packer refuse. */
  ghost predicate TurnsAway(st: State, w: int, h: int)
    requires WellFormed(st)
  {
    && w >= 1 && h >= 1 && FreeNodes(st) == 0
    && exists x :: Selects(st, w, h, x) && Rest(st, w, x) + h <= st.height
  }

  lemma TurnsAwayMeans(st: State, w: int, h: int)
    requires WellFormed(st)
    ensures TurnsAway(st, w, h) <==> w >= 1 && h >= 1 && FreeNodes(st) == 0 && FitsSomewhere(st, w, h)
    ensures TurnsAway(st, w, h) ==> Legal(st, Place(w, h), Rejected)
  {
    hide Selects, Rest, FitsSomewhere, IsSkyline, GroundIsLast;
    if w >= 1 && h >= 1 {
      SelectsIfFits(st, w, h);
    }
  }

  /** Some run of a fresh packer, of whatever sizes and heuristics, ends in a state that turns away some box. */
  ghost predicate CanTurnAway(width: int, height: int, numNodes: int, allowed: bool)
    requires 1 <= width && 0 <= height < SENTINEL_Y && 1 <= numNodes
  {
    exists es: seq<Event>, os: seq<Outcome>, w, h ::
      && Runs(Init(width, height, numNodes), es, os)
      && (forall i :: 0 <= i < |es| ==> KeepsRounding(es[i], allowed))
      && TurnsAway(Final(Init(width, height, numNodes), es, os), w, h)
  }

  /** The skyline after k unit squares in a row. */
  function Row(k: nat, width: int): seq<Seg> {
    seq(k, i => Seg(i, 1)) + [Seg(k, 0), Seg(width, SENTINEL_Y)]
  }

  ghost predicate IsRowState(st: State, k: nat) {
    && WellFormed(st) && st.height >= 1
    && st.align == QuantizedAlign(st.width, st.numNodes)
    && k <= st.numNodes < st.width
    && st.sky == Row(k, st.width)
  }

  lemma RoomForRow(width: int, numNodes: int)
    requires 1 <= numNodes < width
    ensures var a := QuantizedAlign(width, numNodes);
            2 <= a && numNodes - 1 + a <= width
  {
    hide QuantizedAlign;
    var n, a := numNodes, QuantizedAlign(width, numNodes);
    QuantizedAlignIsCeiling(width, n);
    if a <= 1 {
      TimesMonotone(n, a, 1);
    } else {
      TimesMonotone(n - 1, 0, a - 2);
      assert (n - 1) * (a - 2) == n * (a - 1) - n - a + 2;
    }
  }

  lemma NextUnitSquare(st: State, k: nat)
    requires IsRowState(st, k) && k < st.numNodes
    ensures Legal(st, Place(1, 1), Packed(k, 0))
    ensures var st' := After(st, Place(1, 1), Packed(k, 0));
            IsRowState(st', k + 1) && st' == st.(sky := Row(k + 1, st.width))
  {
    hide Put, Floor, Row, Cut;
    NextUnitSquareLands(st, k);
    NextRow(st.sky, k, st.width);
  }

  lemma NextUnitSquareLands(st: State, k: nat)
    requires IsRowState(st, k) && k < st.numNodes
    ensures Selects(st, 1, 1, k) && Lands(st, 1, 1, k, 0)
    ensures k + 1 < st.width
  {
    hide Floor, Row, ScannedWaste, IsBottomLeft, IsBestFit, IsSkyline;
    RoomForRow(st.width, st.numNodes);
    RoundUpOfOne(st.align);
    RowSize(k, st.width);
    RowFloor(st.sky, k, st.width, st.align);
    RowSelects(st.sky, st.width, st.height, k, st.align);
  }

  lemma RowSize(k: nat, width: int)
    ensures |Row(k, width)| == k + 2
    ensures BinWidth(Row(k, width)) == width
  {
  }

  lemma NextRow(s: seq<Seg>, k: nat, width: int)
    requires s == Row(k, width) && Increasing(s) && k + 1 < width
    ensures SegmentOf(s, k) == k && Put(s, k, k, 1, 1) == Row(k + 1, width)
  {
    hide Cut, SegmentOf, Increasing;
    assert s[k] == Seg(k, 0) && s[k + 1] == Seg(width, SENTINEL_Y) && |s| == k + 2;
    SegmentOfUnique(s, k, k);
    assert Cut(s, k, k + 1) == k;
    var t := Put(s, k, k, 1, 1);
    assert t == s[..k] + [Seg(k, 1), Seg(k + 1, 0)] + s[k + 1..];
    forall i | 0 <= i < k + 3 ensures |t| == k + 3 && t[i] == Row(k + 1, width)[i] {
    }
  }

  lemma RoundUpOfOne(a: int)
    requires a >= 1
    ensures RoundUp(1, a) == a
  {
  }

  lemma RowAt(s: seq<Seg>, k: nat, width: int, c: int)
    requires s == Row(k, width) && 0 <= c < width && k < width
    ensures At(s, c) == if c < k then 1 else 0
  {
    AtSegment(s, Min(c, k), c);
  }

  lemma RowFloor(s: seq<Seg>, k: nat, width: int, a: int)
    requires s == Row(k, width) && 1 <= a && k + a <= width
    ensures Floor(s, a, k) == 0
  {
    forall c | k <= c < k + a ensures At(s, c) <= 0 {
      RowAt(s, k, width, c);
    }
    MaxOverAtMost(s, k, k + a, 0);
  }

  /** Nothing left of the ground is as low as the ground, and nothing on the ground wastes anything. */
  lemma RowIsLowest(s: seq<Seg>, k: nat, width: int, a: int, x: int)
    requires s == Row(k, width) && k < width && 1 <= a && 0 <= x && x + a <= width
    ensures x < k ==> Floor(s, a, x) > 0
    ensures x >= k ==> FloorWaste(s, a, x) == 0
  {
    if x < k {
      RowAt(s, k, width, x);
      MaxOverIsMax(s, x, x + a);
    } else {
      assert s[k].x == k && s[k + 1].x == width;
      MaxOverExtend(s, k, x, x, x + a);
      AreaExtend(s, k, x, x, x + a);
      WasteIsBoxLessArea(s, Floor(s, a, x), x, x + a);
    }
  }

  /** Under both heuristics the next square goes to the start of the ground. */
  lemma RowSelects(s: seq<Seg>, binWidth: int, binHeight: int, k: nat, a: int)
    requires s == Row(k, binWidth) && IsSkyline(s, binWidth, binHeight) && GroundIsLast(s)
    requires 1 <= a && k + a <= binWidth && 1 <= binHeight
    ensures IsBottomLeft(s, a, k) && IsBestFit(s, a, 1, binHeight, k)
  {
    hide Floor, FloorWaste, ScannedWaste;
    assert s[k].x == k;
    RowFloor(s, k, binWidth, a);
    GroundIsLastMakesScansExact(s, binWidth, binHeight, a);
    RowIsLowest(s, k, binWidth, a, k);
    assert Candidate(s, a, k);
    forall x | Candidate(s, a, x)
      ensures Precedes3(0, 0, k, Floor(s, a, x), ScannedWaste(s, a, x), x)
      ensures Precedes(0, k, Floor(s, a, x), x)
    {
      RowIsLowest(s, k, binWidth, a, x);
      FloorIsNotNegative(s, a, x);
    }
    forall x | LeftAligned(s, a, x) ensures Precedes(0, k, Floor(s, a, x), x) {
      assert Candidate(s, a, x);
    }
  }

  lemma FloorIsNotNegative(s: seq<Seg>, width: int, x: int)
    requires s != []
    ensures Floor(s, width, x) >= 0
  {
  }

  /** Under either heuristic unit squares in a row use up all nodes, although widths are rounded. */
  lemma {:induction false} RowRun(st: State, k: nat) returns (es: seq<Event>, os: seq<Outcome>)
    requires IsRowState(st, k)
    ensures Runs(st, es, os) && Final(st, es, os) == st.(sky := Row(st.numNodes, st.width))
    ensures FreeNodes(Final(st, es, os)) == 0
    ensures forall i :: 0 <= i < |es| ==> es[i].Place?
    decreases st.numNodes - k
  {
    hide Row, After, Legal, IsSkyline, GroundIsLast;
    RowSize(st.numNodes, st.width);
    if k == st.numNodes {
      es, os := [], [];
    } else {
      NextUnitSquare(st, k);
      es, os := RowRun(After(st, Place(1, 1), Packed(k, 0)), k + 1);
      es, os := [Place(1, 1)] + es, [Packed(k, 0)] + os;
    }
  }

  /** Another unit square fits behind the row or on top of it. */
  lemma RowLeavesRoom(st: State, k: nat)
    requires WellFormed(st) && st.sky == Row(k, st.width) && st.height >= 1
    requires k + st.align <= st.width || (st.height >= 2 && st.align <= st.width)
    ensures FitsSomewhere(st, 1, 1)
  {
    hide Floor, Row;
    RoundUpOfOne(st.align);
    RowSize(k, st.width);
    RowIsInBin(st.sky, k, st.width);
    var x := if k + st.align <= st.width then k else 0;
    if x == k {
      RowFloor(st.sky, k, st.width, st.align);
    } else {
      RowIsLow(st.sky, k, st.width, st.align);
    }
    assert Feasible(st.sky, RoundUp(1, st.align), x) && Rest(st, 1, x) + 1 <= st.height;
  }

  lemma RowIsInBin(s: seq<Seg>, k: nat, width: int)
    requires s == Row(k, width) && Increasing(s)
    ensures k < width
  {
    assert s[k].x < s[k + 1].x;
  }

  lemma RowIsLow(s: seq<Seg>, k: nat, width: int, a: int)
    requires s == Row(k, width) && k < width && a <= width
    ensures Floor(s, a, 0) <= 1
  {
    forall c | 0 <= c < a ensures At(s, c) <= 1 {
      RowAt(s, k, width, c);
    }
    MaxOverAtMost(s, 0, a, 1);
  }

  /** When a state without a free node has room for a box at all. */
  lemma RoomWithoutNodes(st: State, w: int, h: int)
    requires WellFormed(st) && w >= 1 && h >= 1 && FreeNodes(st) == 0 && FitsSomewhere(st, w, h)
    ensures st.numNodes < st.width
    ensures st.height >= 2 || (st.height == 1 && st.numNodes + st.align <= st.width)
  {
    hide QuantizedAlign, Floor;
    if st.numNodes >= st.width {
      EnoughForColumns(st);
    }
    var aligned := RoundUp(w, st.align);
    var x :| Feasible(st.sky, aligned, x) && Rest(st, w, x) + h <= st.height;
    RoundUpIsLeastMultiple(w, st.align);
    AtLeastOneMultiple(aligned, st.align);
    if st.height <= 1 {
      GroundIsFarRight(st.sky, st.width, st.height, aligned, x);
    }
  }

  /** A box on the ground is right of all raised segments, each of which takes at least one column. */
  lemma GroundIsFarRight(s: seq<Seg>, binWidth: int, binHeight: int, width: int, x: int)
    requires IsSkyline(s, binWidth, binHeight) && GroundIsLast(s) && width >= 1
    requires Feasible(s, width, x) && Floor(s, width, x) <= 0
    ensures |s| - 2 <= x
  {
    var i := SegmentOf(s, x);
    AtSegment(s, i, x);
    MaxOverIsMax(s, x, x + width);
    StartsAreSpread(s, 1, i);
  }

  lemma {:induction false} RunKeepsRounding(st: State, es: seq<Event>, os: seq<Outcome>)
    requires WellFormed(st) && Runs(st, es, os) && st.align == QuantizedAlign(st.width, st.numNodes)
    requires forall i :: 0 <= i < |es| ==> KeepsRounding(es[i], false)
    ensures Final(st, es, os).align == st.align
    decreases |es|
  {
    hide Put, Legal, IsSkyline, GroundIsLast;
    if es != [] {
      assert KeepsRounding(es[0], false);
      AfterKeepsBin(st, es[0], os[0]);
      RunKeepsRounding(After(st, es[0], os[0]), es[1..], os[1..]);
    }
  }

  /**
    A packer with fewer nodes than columns can turn away a box that fits, although widths are rounded, in
    every bin of height at least 2; in a bin of height 1 if the row of squares that uses up the nodes leaves
    one rounded column. In any bin it can if the rounding may be switched off.
   */
  lemma CanTurnAwayIff(width: int, height: int, numNodes: int, allowed: bool)
    requires 1 <= width && 0 <= height < SENTINEL_Y && 1 <= numNodes
    ensures CanTurnAway(width, height, numNodes, allowed) <==>
              && numNodes < width
              && (height >= 2 || (height == 1 && (allowed || numNodes + QuantizedAlign(width, numNodes) <= width)))
  {
    hide Runs, Final, TurnsAway, QuantizedAlign, WellFormed;
    var init := Init(width, height, numNodes);
    if numNodes < width && (height >= 2 || (height == 1 && (allowed || numNodes + QuantizedAlign(width, numNodes) <= width))) {
      TurnAwayRun(init, allowed);
    }
    if CanTurnAway(width, height, numNodes, allowed) {
      var es: seq<Event>, os: seq<Outcome>, w, h :|
        && Runs(init, es, os)
        && (forall i :: 0 <= i < |es| ==> KeepsRounding(es[i], allowed))
        && TurnsAway(Final(init, es, os), w, h);
      TurnsAwayMeans(Final(init, es, os), w, h);
      RoomWithoutNodes(Final(init, es, os), w, h);
      if !allowed {
        RunKeepsRounding(init, es, os);
      }
    }
  }

  lemma EmptyRow(init: State)
    requires 1 <= init.width && 1 <= init.height < SENTINEL_Y && 1 <= init.numNodes < init.width
    requires init == Init(init.width, init.height, init.numNodes)
    ensures IsRowState(init, 0)
  {
    assert init.sky == Row(0, init.width);
  }

  lemma TurnAwayRun(init: State, allowed: bool)
    requires 1 <= init.width && 1 <= init.height < SENTINEL_Y && 1 <= init.numNodes < init.width
    requires init == Init(init.width, init.height, init.numNodes)
    requires allowed || init.height >= 2 || init.numNodes + QuantizedAlign(init.width, init.numNodes) <= init.width
    ensures CanTurnAway(init.width, init.height, init.numNodes, allowed)
  {
    hide IsSkyline, GroundIsLast, TurnsAway, FitsSomewhere, Runs, Final, QuantizedAlign, Row;
    EmptyRow(init);
    var es, os := RowRun(init, 0);
    var fin := Final(init, es, os);
    RoomForRow(init.width, init.numNodes);
    if allowed {
      RunsAppend(init, es, os, SetAllowOutOfMem(true), NoSpaceNeeded);
      es, os := es + [SetAllowOutOfMem(true)], os + [NoSpaceNeeded];
      fin := fin.(align := 1);
    }
    RowLeavesRoom(fin, init.numNodes);
    TurnsAwayMeans(fin, 1, 1);
  }

  /** With which storage no run ever finds the free list empty, needed or not. */
  lemma FreeListCanEmptyIff(width: int, height: int, numNodes: int)
    requires 1 <= width && 1 <= height < SENTINEL_Y && 1 <= numNodes
    ensures (exists es: seq<Event>, os: seq<Outcome> :: Runs(Init(width, height, numNodes), es, os)
              && FreeNodes(Final(Init(width, height, numNodes), es, os)) == 0) <==> numNodes < width
  {
    hide Final, IsSkyline, GroundIsLast;
    var st := Init(width, height, numNodes);
    if numNodes >= width {
      forall es: seq<Event>, os: seq<Outcome> | Runs(st, es, os) ensures FreeNodes(Final(st, es, os)) >= 1 {
        EnoughForColumns(Final(st, es, os));
      }
    } else {
      EmptyRow(st);
      var es, os := RowRun(st, 0);
    }
  }
}
