/**
  Which bins and which storage make the packer raise columns beside a box: only best-fit with rounded widths
  does so, and these lemmas say exactly when some run does.
 */
module SnugRuns {
  import opened Arithmetic
  import opened Skyline
  import opened Search
  import opened Splice
  import opened PackerRuns
  import opened NodeSupply
  import opened RunTotals

  // ----- what is around a box beside which columns are raised

  /**
    The box starts inside segment p and ends before the next one, but its rounded right edge is the end of
    segment q further right, which is higher.
   */
  ghost predicate IsLoose(s: seq<Seg>, p: nat, q: nat, x: int, w: int, aligned: int) {
    && p < q && q + 1 < |s|
    && s[p].x < x && x + w < s[p + 1].x < s[p].x + aligned
    && s[p + 1].x <= s[q].x && x + aligned == s[q + 1].x
    && 0 < s[p].y < s[q].y
  }

  lemma NotLeftAligned(s: seq<Seg>, width: int, p: nat, x: int)
    requires Increasing(s) && p + 1 < |s| && s[p].x < x < s[p + 1].x
    ensures !LeftAligned(s, width, x)
  {
    forall i | 0 <= i < |s| ensures s[i].x != x {
      if i < p {
        assert s[i].x < s[p].x;
      } else if i > p + 1 {
        assert s[p + 1].x < s[i].x;
      }
    }
  }

  /** One column to the left a box is no worse if its right end leaves a segment no higher than the left end enters. */
  lemma OneLeft(s: seq<Seg>, width: int, p: nat, q: nat, x: int)
    requires Increasing(s) && width >= 1 && SameSegments(s, width, p, q, x, x - 1) && s[q].y <= s[p].y
    ensures Floor(s, width, x - 1) < Floor(s, width, x)
            || (Floor(s, width, x - 1) == Floor(s, width, x) && FloorWaste(s, width, x - 1) <= FloorWaste(s, width, x))
  {
    hide Floor, FloorWaste;
    SlideFloor(s, width, p, q, x, x - 1);
    SlideArea(s, width, p, q, x, x - 1);
    if Floor(s, width, x - 1) == Floor(s, width, x) {
      AreaOrdersWaste(s, width, x - 1, x);
    }
  }

  lemma LooseStep(st: State, w: int, h: int, x: int, y: int) returns (p: nat, q: nat)
    requires WellFormed(st) && w >= 1 && h >= 1 && Legal(st, Place(w, h), Packed(x, y))
    requires !SnugStep(st, Place(w, h), Packed(x, y))
    ensures p + 1 < |st.sky| && p == SegmentOf(st.sky, x)
    ensures st.bestFit && 0 <= x && IsLoose(st.sky, p, q, x, w, RoundUp(w, st.align)) && st.sky[q].y <= y
  {
    hide Floor, FloorWaste, SegmentOf, IsBestFit, IsBottomLeft;
    var s, aligned := st.sky, RoundUp(w, st.align);
    p := SegmentOf(s, x);
    PackedLands(st, w, h, x, y);
    LandingCanPut(st, w, h, x, y);
    NotLeftAligned(s, aligned, p, x);
    SelectedIsRightAligned(st, w, h, x);
    var t :| 0 <= t < |s| && s[t].x == x + aligned;
    RoundUpBounds(w, st.align);
    assert p < t;
    q := t - 1;
    PackedRests(st, w, h, x, y);
    LooseIsHigher(st, w, h, x, y, p, q);
    LooseReachesOut(st, w, h, x, y, p, q);
  }

  lemma SelectedIsRightAligned(st: State, w: int, h: int, x: int)
    requires WellFormed(st) && Selects(st, w, h, x) && !LeftAligned(st.sky, RoundUp(w, st.align), x)
    ensures st.bestFit && RightAligned(st.sky, RoundUp(w, st.align), x)
  {
    hide LeftAligned, RightAligned;
  }

  lemma LooseIsHigher(st: State, w: int, h: int, x: int, y: int, p: nat, q: nat)
    requires WellFormed(st) && st.bestFit && w >= 1 && h >= 1 && Legal(st, Place(w, h), Packed(x, y))
    requires p <= q && q + 1 < |st.sky| && st.sky[p].x < x < st.sky[p + 1].x
    requires x + RoundUp(w, st.align) == st.sky[q + 1].x
    ensures st.sky[p].y < st.sky[q].y <= y
  {
    hide Floor, FloorWaste, Legal;
    var s, aligned := st.sky, RoundUp(w, st.align);
    RoundUpBounds(w, st.align);
    PackedRests(st, w, h, x, y);
    PlacementIsOptimal(st, w, h, x, y);
    assert s[q].x <= x + aligned - 1 by {
      if q == p { } else { assert s[q].x < s[q + 1].x; }
    }
    FloorIsNotLower(s, aligned, x, x + aligned - 1);
    AtSegment(s, q, x + aligned - 1);
    if s[q].y <= s[p].y {
      assert s[0].x <= s[p].x;
      assert Feasible(s, aligned, x - 1);
      OneLeft(s, aligned, p, q, x);
    }
  }

  lemma FloorIsNotLower(s: seq<Seg>, width: int, x: int, c: int)
    requires s != [] && x <= c < x + width
    ensures At(s, c) <= Floor(s, width, x)
  {
    MaxOverIsMax(s, x, x + width);
  }

  /** Over a single segment a box rests on it and wastes nothing. */
  lemma OverOneSegment(s: seq<Seg>, i: nat, width: int, x: int)
    requires i + 1 < |s| && Increasing(s) && width >= 1 && s[i].x <= x && x + width <= s[i + 1].x && 0 <= s[i].y
    ensures Floor(s, width, x) == s[i].y && FloorWaste(s, width, x) == 0
  {
    MaxOverExtend(s, i, x, x, x + width);
    WasteOverSegment(s, i, s[i].y, x, x + width);
  }

  /** Put at the start of segment p the box would not fit in over that segment alone. */
  lemma LooseReachesOut(st: State, w: int, h: int, x: int, y: int, p: nat, q: nat)
    requires WellFormed(st) && st.bestFit && w >= 1 && h >= 1 && Legal(st, Place(w, h), Packed(x, y))
    requires p < q && q + 1 < |st.sky| && st.sky[p].x < x < st.sky[p + 1].x && st.sky[p].y < y
    requires x + RoundUp(w, st.align) == st.sky[q + 1].x
    ensures st.sky[p + 1].x < st.sky[p].x + RoundUp(w, st.align)
    ensures 0 < st.sky[p].y && st.sky[p + 1].x <= st.sky[q].x
  {
    hide Floor, FloorWaste, Legal;
    var s, aligned := st.sky, RoundUp(w, st.align);
    RoundUpBounds(w, st.align);
    PlacementIsOptimal(st, w, h, x, y);
    assert 0 <= s[p].x;
    if s[p].x + aligned <= s[p + 1].x {
      assert s[p + 1].x <= BinWidth(s) && Feasible(s, aligned, s[p].x);
      OverOneSegment(s, p, aligned, s[p].x);
    }
  }

  // ----- what that says about the bin and the storage

  lemma LooseNeeds(st: State, w: int, h: int, x: int, y: int)
    requires WellFormed(st) && w >= 1 && h >= 1 && Legal(st, Place(w, h), Packed(x, y))
    requires !SnugStep(st, Place(w, h), Packed(x, y))
    ensures 3 <= st.numNodes && 3 * st.numNodes < st.width && 3 <= st.height
    ensures st.align == QuantizedAlign(st.width, st.numNodes)
  {
    hide QuantizedAlign, RoundUp, Legal, SnugStep, Increasing;
    var p, q := LooseStep(st, w, h, x, y);
    RoundUpBounds(w, st.align);
    PackedFits(st, w, h, x, y);
    QuantizedAlignIsCeiling(st.width, st.numNodes);
    assert st.align >= 4;
    TimesMonotone(st.numNodes, 3, st.align - 1);
    LooseNeedsThreeNodes(st, w, p, q, x);
  }

  lemma PackedFits(st: State, w: int, h: int, x: int, y: int)
    requires WellFormed(st) && w >= 1 && h >= 1 && Legal(st, Place(w, h), Packed(x, y))
    ensures y + h <= st.height && FreeNodes(st) > 0
  {
    hide Floor;
  }

  lemma LooseNeedsThreeNodes(st: State, w: int, p: nat, q: nat, x: int)
    requires WellFormed(st) && w >= 1 && 0 < FreeNodes(st)
    requires st.align == QuantizedAlign(st.width, st.numNodes)
    requires IsLoose(st.sky, p, q, x, w, RoundUp(w, st.align))
    ensures 3 <= st.numNodes
  {
    hide QuantizedAlign, RoundUp;
    var aligned := RoundUp(w, st.align);
    RoundUpIsMultiple(w, st.align);
    QuantizedAlignIsCeiling(st.width, st.numNodes);
    if st.numNodes <= 2 && aligned > st.align {
      NextMultiple(st.align, aligned, st.align);
    }
  }

  // ----- a rising boundary needs room for a rounded box

  /** Where the skyline rises, the higher segment with its width rounded up would lie in the bin. */
  ghost predicate RisesFit(s: seq<Seg>, width: int, step: int)
    requires step >= 1
  {
    forall i :: 0 < i < |s| - 1 && s[i - 1].y < s[i].y ==> s[i].x + RoundUp(s[i + 1].x - s[i].x, step) <= width
  }

  lemma RiseFits(s: seq<Seg>, width: int, step: int, i: int, right: int)
    requires step >= 1 && RisesFit(s, width, step) && 0 < i < |s| - 1 && s[i - 1].y < s[i].y
    requires right <= s[i + 1].x
    ensures s[i].x + RoundUp(right - s[i].x, step) <= width
  {
    RoundUpIsMultiple(s[i + 1].x - s[i].x, step);
    RoundUpAtMost(right - s[i].x, step, RoundUp(s[i + 1].x - s[i].x, step));
  }

  /** The segments after a placement: those left of the box, the box, the last covered one, and the others. */
  lemma PutSegments(s: seq<Seg>, binWidth: int, binHeight: int, p: nat, x: int, y: int, w: int)
    requires CanPut(s, binWidth, binHeight, p, x, y, w)
    ensures var q, k, t := Kept(s, p, x), Cut(s, Kept(s, p, x), x + w), Put(s, p, x, y, w);
            && |t| == q + 1 + |s| - k && q < |s| && s[q].x >= x
            && t[q] == Seg(x, y) && t[q + 1] == Seg(RaisedTo(s, p, x, w), s[k].y)
            && (forall i :: 0 <= i < q ==> t[i] == s[i])
            && forall i :: q + 2 <= i < |t| ==> t[i] == s[i - q - 1 + k]
  {
    CutBounds(s, binWidth, binHeight, p, x, y, w);
  }

  lemma PutRisesFit(s: seq<Seg>, binWidth: int, binHeight: int, p: nat, x: int, y: int, w: int, aligned: int, step: int)
    requires CanPut(s, binWidth, binHeight, p, x, y, w) && step >= 1 && RisesFit(s, binWidth, step)
    requires aligned % step == 0 && x + aligned <= binWidth && RaisedTo(s, p, x, w) <= x + aligned
    requires forall c :: x <= c < x + aligned ==> At(s, c) < y
    ensures RisesFit(Put(s, p, x, y, w), binWidth, step)
  {
    hide Put, Cut, At, RoundUp, RaisedTo, IsSkyline;
    var t := Put(s, p, x, y, w);
    forall i | 0 < i < |t| - 1 && t[i - 1].y < t[i].y
      ensures t[i].x + RoundUp(t[i + 1].x - t[i].x, step) <= binWidth
    {
      PutRiseFits(s, binWidth, binHeight, p, x, y, w, aligned, step, i);
    }
  }

  lemma PutRiseFits(s: seq<Seg>, binWidth: int, binHeight: int, p: nat, x: int, y: int, w: int, aligned: int, step: int,
                    i: int)
    requires CanPut(s, binWidth, binHeight, p, x, y, w) && step >= 1 && RisesFit(s, binWidth, step)
    requires aligned % step == 0 && x + aligned <= binWidth && RaisedTo(s, p, x, w) <= x + aligned
    requires forall c :: x <= c < x + aligned ==> At(s, c) < y
    requires var t := Put(s, p, x, y, w); 0 < i < |t| - 1 && t[i - 1].y < t[i].y
    ensures var t := Put(s, p, x, y, w); t[i].x + RoundUp(t[i + 1].x - t[i].x, step) <= binWidth
  {
    hide Cut, RisesFit, RoundUp, At, Put, RaisedTo, Increasing;
    var q := Kept(s, p, x);
    var k := Cut(s, q, x + w);
    var t := Put(s, p, x, y, w);
    PutSegments(s, binWidth, binHeight, p, x, y, w);
    if i < q {
      RiseFits(s, binWidth, step, i, t[i + 1].x);
    } else if i == q {
      RoundUpAtMost(t[i + 1].x - x, step, aligned);
    } else if i == q + 1 {
      RiseBehindBox(s, binWidth, binHeight, p, x, y, w, aligned, k);
      RiseFits(s, binWidth, step, k, t[i + 1].x);
    } else {
      var j := i - q - 1 + k;
      assert t[i] == s[j] && t[i + 1] == s[j + 1] && t[i - 1].y == s[j - 1].y;
      RiseFits(s, binWidth, step, j, t[i + 1].x);
    }
  }

  /** If the skyline rises right of the raised columns, it did so before. */
  lemma RiseBehindBox(s: seq<Seg>, binWidth: int, binHeight: int, p: nat, x: int, y: int, w: int, aligned: int, k: nat)
    requires CanPut(s, binWidth, binHeight, p, x, y, w) && k == Cut(s, Kept(s, p, x), x + w) && k < |s| - 1
    requires RaisedTo(s, p, x, w) <= x + aligned && y < s[k].y
    requires forall c :: x <= c < x + aligned ==> At(s, c) < y
    ensures k > 0 && s[k - 1].y < s[k].y && s[k].x == RaisedTo(s, p, x, w)
  {
    hide Cut, At;
    CutBounds(s, binWidth, binHeight, p, x, y, w);
    if s[k].x < x + aligned {
      var c := Max(s[k].x, x);
      AtSegment(s, k, c);
    } else {
      assert s[0].x < s[k].x;
      AtSegment(s, k - 1, s[k].x - 1);
    }
  }

  lemma PackedRisesFit(st: State, w: int, h: int, x: int, y: int)
    requires WellFormed(st) && w >= 1 && h >= 1 && Legal(st, Place(w, h), Packed(x, y))
    requires RisesFit(st.sky, st.width, st.align)
    ensures 0 <= x && SegmentOf(st.sky, x) + 1 < |st.sky|
    ensures RisesFit(Put(st.sky, SegmentOf(st.sky, x), x, y + h, w), st.width, st.align)
  {
    hide Put, RisesFit, Legal, Floor, At;
    PackedLands(st, w, h, x, y);
    LandingCanPut(st, w, h, x, y);
    var p, aligned := SegmentOf(st.sky, x), RoundUp(w, st.align);
    RoundUpIsMultiple(w, st.align);
    if !SnugStep(st, Place(w, h), Packed(x, y)) {
      var p', q := LooseStep(st, w, h, x, y);
      assert st.sky[q].x < st.sky[q + 1].x;
    }
    assert RaisedTo(st.sky, p, x, w) <= x + aligned;
    forall c | x <= c < x + aligned ensures At(st.sky, c) < y + h {
      FloorIsNotLower(st.sky, aligned, x, c);
    }
    PutRisesFit(st.sky, st.width, st.height, p, x, y + h, w, aligned, st.align);
  }

  /** A bin ten columns wide is too narrow for three segments and two rises that have room. */
  lemma TenColumnsAreSnug(st: State, w: int, h: int, x: int, y: int)
    requires WellFormed(st) && w >= 1 && h >= 1 && Legal(st, Place(w, h), Packed(x, y))
    requires RisesFit(st.sky, st.width, st.align) && st.width == 10
    ensures SnugStep(st, Place(w, h), Packed(x, y))
  {
    hide RoundUp, Legal, SnugStep, RisesFit, Floor, FloorWaste;
    if !SnugStep(st, Place(w, h), Packed(x, y)) {
      var s, aligned := st.sky, RoundUp(w, st.align);
      LooseNeeds(st, w, h, x, y);
      assert st.numNodes == 3 && st.align == 4;
      PackedFits(st, w, h, x, y);
      var p, q := LooseStep(st, w, h, x, y);
      RoundUpBounds(w, 4);
      RoundUpIsMultiple(w, 4);
      var i := RiseBetween(s, p, q);
      RiseStartsEarly(s, i);
      OnlyTower(s, p, q, i, x, w, aligned);
      HighGround(st, w, h, x, y);
      RiseFits(s, 10, 4, 2, 10);
      RoundUpIsMultiple(5, 4);
    }
  }

  lemma {:induction false} RiseBetween(s: seq<Seg>, p: nat, q: nat) returns (i: nat)
    requires p < q < |s| && s[p].y < s[q].y
    ensures p < i <= q && s[i - 1].y < s[i].y
    decreases q - p
  {
    if s[q - 1].y < s[q].y {
      return q;
    }
    i := RiseBetween(s, p, q - 1);
  }

  lemma RiseStartsEarly(s: seq<Seg>, i: nat)
    requires Increasing(s) && RisesFit(s, 10, 4) && 0 < i < |s| - 1 && s[i - 1].y < s[i].y
    ensures s[i].x <= 6
  {
    hide RoundUp;
    assert s[i].x < s[i + 1].x;
    RoundUpIsMultiple(s[i + 1].x - s[i].x, 4);
    AtLeastOneMultiple(RoundUp(s[i + 1].x - s[i].x, 4), 4);
  }

  lemma OnlyTower(s: seq<Seg>, p: nat, q: nat, i: nat, x: int, w: int, aligned: int)
    requires 3 <= |s| <= 4 && Increasing(s) && s[0].x == 0 && s[|s| - 1].x == 10 && 0 <= x
    requires IsLoose(s, p, q, x, w, aligned) && aligned < w + 4 && aligned % 4 == 0 && w >= 1
    requires p < i <= q && s[i].x <= 6
    ensures |s| == 4 && p == 0 && q == 1 && x == 1 && aligned == 4 && s[1].x == 3 && s[2].x == 5 && s[3].x == 10
  {
    assert s[p + 1].x <= s[i].x;
    assert s[q + 1].x == s[p + 1].x + 2;
    assert q + 1 < |s| - 1;
  }

  /** The floor right of the tower is higher, or best-fit would choose it. */
  lemma HighGround(st: State, w: int, h: int, x: int, y: int)
    requires WellFormed(st) && st.bestFit && w >= 1 && h >= 1 && Legal(st, Place(w, h), Packed(x, y))
    requires var s := st.sky; |s| == 4 && s[0].x == 0 && s[1].x == 3 && s[2].x == 5 && s[3].x == 10
    requires x == 1 && RoundUp(w, st.align) == 4 && 0 < st.sky[0].y < st.sky[1].y <= y
    ensures st.sky[1].y < st.sky[2].y
  {
    hide RoundUp, Legal, Floor, FloorWaste;
    var s := st.sky;
    PackedRests(st, w, h, x, y);
    PlacementIsOptimal(st, w, h, x, y);
    OverOneSegment(s, 2, 4, 5);
    assert Feasible(s, 4, 5);
    AreaExtend(s, 0, 1, 1, 3);
    AreaExtend(s, 1, 1, 3, 5);
    WasteOfFloor(s, 4, 1);
  }

  lemma WasteOfFloor(s: seq<Seg>, width: int, x: int)
    requires s != [] && width >= 0
    ensures FloorWaste(s, width, x) == Floor(s, width, x) * width - Area(s, x, x + width)
  {
    WasteIsBoxLessArea(s, Floor(s, width, x), x, x + width);
  }

  // ----- runs that are not snug need certain bins and storage

  lemma StepRisesFit(st: State, e: Event, o: Outcome)
    requires WellFormed(st) && Legal(st, e, o) && KeepsRounding(e, false)
    requires st.align == QuantizedAlign(st.width, st.numNodes) && RisesFit(st.sky, st.width, st.align)
    ensures var st' := After(st, e, o);
            st'.align == st.align && RisesFit(st'.sky, st.width, st.align)
  {
    hide Put, RisesFit, Selects, Lands, MayReject, IsSkyline, GroundIsLast, QuantizedAlign;
    if e.Place? && o.Packed? {
      PackedRisesFit(st, e.w, e.h, o.x, o.y);
    }
  }

  lemma {:induction false} LooseRunNeeds(st: State, es: seq<Event>, os: seq<Outcome>, allowed: bool)
    requires WellFormed(st) && Runs(st, es, os) && !SnugRun(st, es, os)
    requires forall i :: 0 <= i < |es| ==> KeepsRounding(es[i], allowed)
    requires allowed || (st.align == QuantizedAlign(st.width, st.numNodes) && RisesFit(st.sky, st.width, st.align))
    ensures 3 <= st.numNodes && 3 * st.numNodes < st.width && 3 <= st.height && (allowed || st.width != 10)
    decreases |es|
  {
    hide After, Legal, SnugStep, RisesFit, QuantizedAlign, IsSkyline, GroundIsLast;
    assert KeepsRounding(es[0], allowed);
    if !SnugStep(st, es[0], os[0]) {
      LooseStepIsPlacement(st, es[0], os[0]);
      LooseNeeds(st, es[0].w, es[0].h, os[0].x, os[0].y);
      if !allowed && st.width == 10 {
        TenColumnsAreSnug(st, es[0].w, es[0].h, os[0].x, os[0].y);
      }
    } else {
      AfterKeepsBin(st, es[0], os[0]);
      if !allowed {
        StepRisesFit(st, es[0], os[0]);
      }
      LooseRunNeeds(After(st, es[0], os[0]), es[1..], os[1..], allowed);
    }
  }

  lemma LooseStepIsPlacement(st: State, e: Event, o: Outcome)
    requires WellFormed(st) && Legal(st, e, o) && !SnugStep(st, e, o)
    ensures e.Place? && o.Packed? && e.w >= 1 && e.h >= 1
    ensures e == Place(e.w, e.h) && o == Packed(o.x, o.y)
  {
    hide Selects, Lands;
  }

  // ----- a run that is not snug in every such bin

  /** The position that no other one beats is where the box goes. */
  lemma BestFitGoesTo(st: State, w: int, h: int, x: int, y: int)
    requires WellFormed(st) && st.bestFit && FreeNodes(st) > 0 && w >= 1 && h >= 1
    requires Feasible(st.sky, RoundUp(w, st.align), x) && y == Rest(st, w, x) && y + h <= st.height
    requires forall x' :: Feasible(st.sky, RoundUp(w, st.align), x') && x' != x ==>
               Beats(st.sky, RoundUp(w, st.align), x, x')
    ensures Legal(st, Place(w, h), Packed(x, y))
  {
    hide Floor, FloorWaste, IsSkyline, GroundIsLast, Legal;
    var o := EveryEventHasAnswer(st, Place(w, h));
    AcceptsIffFits(st, w, h, o);
    assert FitsSomewhere(st, w, h);
    PackedRests(st, w, h, o.x, o.y);
    PlacementIsOptimal(st, w, h, o.x, o.y);
    PackedIsFeasible(st, w, h, o.x, o.y);
  }

  lemma PackedIsFeasible(st: State, w: int, h: int, x: int, y: int)
    requires WellFormed(st) && w >= 1 && h >= 1 && Legal(st, Place(w, h), Packed(x, y))
    ensures Feasible(st.sky, RoundUp(w, st.align), x)
  {
    hide Floor;
  }

  ghost predicate Beats(s: seq<Seg>, width: int, x: int, x': int)
    requires s != []
  {
    !Precedes3(Floor(s, width, x'), FloorWaste(s, width, x'), x', Floor(s, width, x), FloorWaste(s, width, x), x)
  }

  // The skyline at the start, with a flat box at the left edge, and with a tower of height 2 right of it.
  function Empty(width: int): seq<Seg> { [Seg(0, 0), Seg(width, SENTINEL_Y)] }
  function Ledge(k: int, width: int): seq<Seg> { [Seg(0, 1), Seg(k, 0), Seg(width, SENTINEL_Y)] }
  function Tower(k: int, m: int, width: int): seq<Seg> { [Seg(0, 1), Seg(k, 2), Seg(m, 0), Seg(width, SENTINEL_Y)] }

  lemma FirstBox(st: State, k: int)
    requires WellFormed(st) && st.bestFit && st.sky == Empty(st.width) && st.height >= 1 && FreeNodes(st) > 0
    requires 1 <= k < st.width && RoundUp(k, st.align) <= st.width
    ensures Legal(st, Place(k, 1), Packed(0, 0))
    ensures After(st, Place(k, 1), Packed(0, 0)) == st.(sky := Ledge(k, st.width))
  {
    hide Floor, FloorWaste, Legal, Put, Selects, RoundUp;
    var aligned := RoundUp(k, st.align);
    RoundUpBounds(k, st.align);
    forall x | Feasible(st.sky, aligned, x) ensures Floor(st.sky, aligned, x) == 0 && FloorWaste(st.sky, aligned, x) == 0 {
      OverOneSegment(st.sky, 0, aligned, x);
    }
    assert Feasible(st.sky, aligned, 0);
    BestFitGoesTo(st, k, 1, 0, 0);
    FirstPut(k, st.width);
  }

  lemma FirstPut(k: int, width: int)
    requires 1 <= k < width
    ensures SegmentOf(Empty(width), 0) == 0 && Put(Empty(width), 0, 0, 1, k) == Ledge(k, width)
  {
  }

  lemma SecondBox(st: State, k: int, m: int)
    requires WellFormed(st) && st.bestFit && st.sky == Ledge(k, st.width) && st.height >= 2 && FreeNodes(st) > 0
    requires 1 <= k < m < st.width && k + RoundUp(m - k, st.align) <= st.width
    ensures Legal(st, Place(m - k, 2), Packed(k, 0))
    ensures After(st, Place(m - k, 2), Packed(k, 0)) == st.(sky := Tower(k, m, st.width))
  {
    hide Floor, FloorWaste, Legal, Put, Selects, RoundUp;
    var aligned := RoundUp(m - k, st.align);
    RoundUpBounds(m - k, st.align);
    forall x | Feasible(st.sky, aligned, x)
      ensures if x < k then Floor(st.sky, aligned, x) > 0
              else Floor(st.sky, aligned, x) == 0 && FloorWaste(st.sky, aligned, x) == 0
    {
      if x < k {
        AtSegment(st.sky, 0, x);
        FloorIsNotLower(st.sky, aligned, x, x);
      } else {
        OverOneSegment(st.sky, 1, aligned, x);
      }
    }
    assert Feasible(st.sky, aligned, k);
    BestFitGoesTo(st, m - k, 2, k, 0);
    SecondPut(k, m, st.width);
  }

  lemma SecondPut(k: int, m: int, width: int)
    requires 1 <= k < m < width
    ensures SegmentOf(Ledge(k, width), k) == 1 && Put(Ledge(k, width), 1, k, 2, m - k) == Tower(k, m, width)
  {
  }

  /** Over ledge and tower the window [1, m) wastes least among all that touch the tower. */
  lemma OverTower(s: seq<Seg>, k: int, m: int, width: int, x: int)
    requires s == Tower(k, m, width) && 2 <= k < m - 1 && m < width
    requires 0 <= x && x + m - 1 <= width && width - m < m - 1
    ensures Floor(s, m - 1, x) == 2
    ensures if x == 1 then FloorWaste(s, m - 1, x) == k - 1 else FloorWaste(s, m - 1, x) > k - 1
  {
    hide Floor, FloorWaste;
    TowerFloor(s, k, m, width, x);
    TowerArea(s, k, m, width, x);
    WasteOfFloor(s, m - 1, x);
  }

  lemma TowerFloor(s: seq<Seg>, k: int, m: int, width: int, x: int)
    requires s == Tower(k, m, width) && 2 <= k < m - 1 && m < width
    requires 0 <= x && x + m - 1 <= width && width - m < m - 1
    ensures Floor(s, m - 1, x) == 2
  {
    AtSegment(s, 1, Max(k, x));
    FloorIsNotLower(s, m - 1, x, Max(k, x));
    forall c | x <= c < x + m - 1 ensures At(s, c) <= 2 {
      AtSegment(s, if c < k then 0 else if c < m then 1 else 2, c);
    }
    MaxOverAtMost(s, x, x + m - 1, 2);
  }

  lemma TowerArea(s: seq<Seg>, k: int, m: int, width: int, x: int)
    requires s == Tower(k, m, width) && 2 <= k < m - 1 && m < width
    requires 0 <= x && x + m - 1 <= width && width - m < m - 1
    ensures var area := Area(s, x, x + m - 1);
            if x == 1 then area == k - 1 + 2 * (m - k) else area < k - 1 + 2 * (m - k)
  {
    if x < k {
      AreaExtend(s, 0, x, x, k);
      AreaExtend(s, 1, x, k, Min(m, x + m - 1));
    } else {
      AreaExtend(s, 1, x, x, m);
    }
    if x > 1 {
      AreaExtend(s, 2, x, m, x + m - 1);
    }
  }

  lemma ThirdBox(st: State, k: int, m: int, w: int)
    requires WellFormed(st) && st.bestFit && st.sky == Tower(k, m, st.width) && st.height >= 3 && FreeNodes(st) > 0
    requires 1 <= w && w + 1 < k < m - 1 && m < st.width && st.width - m < m - 1 && RoundUp(w, st.align) == m - 1
    ensures Legal(st, Place(w, 1), Packed(1, 2)) && !SnugStep(st, Place(w, 1), Packed(1, 2))
  {
    hide Floor, FloorWaste, Legal, Selects, RoundUp;
    var aligned := m - 1;
    forall x | Feasible(st.sky, aligned, x) && x != 1 ensures Beats(st.sky, aligned, 1, x) {
      OverTower(st.sky, k, m, st.width, 1);
      OverTower(st.sky, k, m, st.width, x);
    }
    OverTower(st.sky, k, m, st.width, 1);
    BestFitGoesTo(st, w, 1, 1, 2);
  }

  lemma OneMoreStep(st: State, e: Event, o: Outcome, es: seq<Event>, os: seq<Outcome>)
    requires WellFormed(st) && Legal(st, e, o) && Runs(After(st, e, o), es, os)
    ensures Runs(st, [e] + es, [o] + os)
    ensures SnugRun(st, [e] + es, [o] + os) <==> SnugStep(st, e, o) && SnugRun(After(st, e, o), es, os)
  {
    hide Legal, After, SnugStep, WellFormed;
    assert ([e] + es)[1..] == es && ([o] + os)[1..] == os;
  }

  lemma EmptyRun(st: State)
    requires WellFormed(st)
    ensures Runs(st, [], [])
  {
  }

  /** The width of the third box's window: the largest multiple of the alignment that leaves three columns. */
  lemma WindowForThree(width: int, numNodes: int) returns (aligned: int)
    requires 3 <= numNodes && 3 * numNodes < width && width != 10
    ensures var a := QuantizedAlign(width, numNodes);
            4 <= a <= aligned && aligned % a == 0 && aligned + 3 <= width <= 2 * aligned
  {
    hide QuantizedAlign;
    var a := QuantizedAlign(width, numNodes);
    QuantizedAlignIsCeiling(width, numNodes);
    if a <= 3 {
      TimesMonotone(numNodes, a, 3);
    }
    aligned := width - 3 - (width - 3) % a;
    if numNodes >= 4 {
      TimesMonotone(a - 1, 4, numNodes);
    }
    LastMultiple(width - 3, 0, a);
    LastMultiple(width - 3, a, a);
    TwiceIsEnough(width, numNodes, a);
  }

  lemma TwiceIsEnough(width: int, numNodes: int, a: int)
    requires 4 <= a && numNodes * (a - 1) < width <= numNodes * a && width != 10
    requires numNodes == 3 || (4 <= numNodes && 4 * (a - 1) < width)
    ensures width <= 2 * (width - 3 - (width - 3) % a)
  {
    if numNodes == 3 && a == 5 {
      assert 10 <= width - 3 < 15;
    } else if numNodes == 3 && a == 4 {
      assert 8 <= width - 3 < 12;
    }
  }

  /**
    A flat box, a tower beside it, and a third box across both: it comes to lie inside the flat one and short of
    the tower. The first two boxes may be placed with or without rounding.
   */
  lemma LooseRun(width: int, height: int, numNodes: int, aligned: int, allow: bool) returns (es: seq<Event>, os: seq<Outcome>)
    requires 3 <= numNodes && 1 <= width && 3 <= height < SENTINEL_Y
    requires var a := QuantizedAlign(width, numNodes); 4 <= a <= aligned && aligned % a == 0
    requires aligned + (if allow then 2 else 3) <= width <= 2 * aligned
    ensures Runs(Init(width, height, numNodes), es, os) && !SnugRun(Init(width, height, numNodes), es, os)
    ensures forall i :: 0 <= i < |es| ==> KeepsRounding(es[i], allow)
  {
    hide Legal, After, SnugStep, SnugRun, Runs, RoundUp, QuantizedAlign, IsSkyline, GroundIsLast;
    var a := QuantizedAlign(width, numNodes);
    var k, m, w := aligned - a + 3, aligned + 1, aligned - a + 1;
    var init := Init(width, height, numNodes);
    var st0 := init.(bestFit := true);
    var st1 := st0.(align := if allow then 1 else a);
    Widths(a, aligned, st1.align);
    FirstBox(st1, k);
    var st2 := st1.(sky := Ledge(k, width));
    SecondBox(st2, k, m);
    var st3 := st2.(sky := Tower(k, m, width));
    var st4 := st3.(align := a);
    SetupSteps(init, allow, st3);
    ThirdBox(st4, k, m, w);
    EmptyRun(After(st4, Place(w, 1), Packed(1, 2)));
    OneMoreStep(st4, Place(w, 1), Packed(1, 2), [], []);
    es, os := [Place(w, 1)] + [], [Packed(1, 2)] + [];
    OneMoreStep(st3, SetAllowOutOfMem(false), NoSpaceNeeded, es, os);
    es, os := [SetAllowOutOfMem(false)] + es, [NoSpaceNeeded] + os;
    OneMoreStep(st2, Place(m - k, 2), Packed(k, 0), es, os);
    es, os := [Place(m - k, 2)] + es, [Packed(k, 0)] + os;
    OneMoreStep(st1, Place(k, 1), Packed(0, 0), es, os);
    es, os := [Place(k, 1)] + es, [Packed(0, 0)] + os;
    OneMoreStep(st0, SetAllowOutOfMem(allow), NoSpaceNeeded, es, os);
    es, os := [SetAllowOutOfMem(allow)] + es, [NoSpaceNeeded] + os;
    OneMoreStep(init, SetHeuristic(true), NoSpaceNeeded, es, os);
    es, os := [SetHeuristic(true)] + es, [NoSpaceNeeded] + os;
  }

  /** How the widths of the three boxes are rounded. */
  lemma Widths(a: int, aligned: int, align: int)
    requires 4 <= a <= aligned && aligned % a == 0 && (align == 1 || align == a)
    ensures RoundUp(aligned - a + 3, align) <= aligned
    ensures RoundUp(a - 2, align) <= if align == 1 then a - 2 else a
    ensures RoundUp(aligned - a + 1, a) == aligned
  {
    if align == 1 {
      RoundUpBounds(aligned - a + 3, 1);
      RoundUpBounds(a - 2, 1);
    } else {
      RoundUpAtMost(aligned - a + 3, a, aligned);
      RoundUpAtMost(a - 2, a, a);
    }
  }

  lemma SetupSteps(init: State, allow: bool, st3: State)
    requires WellFormed(init) && init.align == QuantizedAlign(init.width, init.numNodes)
    requires WellFormed(st3) && st3.width == init.width && st3.numNodes == init.numNodes
    ensures Legal(init, SetHeuristic(true), NoSpaceNeeded)
    ensures After(init, SetHeuristic(true), NoSpaceNeeded) == init.(bestFit := true)
    ensures WellFormed(init.(bestFit := true))
    ensures Legal(init.(bestFit := true), SetAllowOutOfMem(allow), NoSpaceNeeded)
    ensures After(init.(bestFit := true), SetAllowOutOfMem(allow), NoSpaceNeeded)
            == init.(bestFit := true, align := if allow then 1 else init.align)
    ensures Legal(st3, SetAllowOutOfMem(false), NoSpaceNeeded)
    ensures After(st3, SetAllowOutOfMem(false), NoSpaceNeeded) == st3.(align := init.align)
  {
    hide QuantizedAlign, IsSkyline, GroundIsLast;
  }

  // ----- exactly when

  /** Some run of a fresh packer raises a column beside a box. */
  ghost predicate CanRaiseBeside(width: int, height: int, numNodes: int, allowed: bool)
    requires 1 <= width && 0 <= height < SENTINEL_Y && 1 <= numNodes
  {
    exists es: seq<Event>, os: seq<Outcome> ::
      && Runs(Init(width, height, numNodes), es, os)
      && (forall i :: 0 <= i < |es| ==> KeepsRounding(es[i], allowed))
      && !SnugRun(Init(width, height, numNodes), es, os)
  }

  /**
    Columns beside a box are raised in some run exactly if there are at least three nodes, more than three columns
    for each of them, and three rows; in a bin of ten columns only if the rounding may be switched off.
   */
  lemma CanRaiseBesideIff(width: int, height: int, numNodes: int, allowed: bool)
    requires 1 <= width && 0 <= height < SENTINEL_Y && 1 <= numNodes
    ensures CanRaiseBeside(width, height, numNodes, allowed) <==>
              3 <= numNodes && 3 * numNodes < width && 3 <= height && (allowed || width != 10)
  {
    hide Runs, SnugRun, WellFormed;
    var init := Init(width, height, numNodes);
    if 3 <= numNodes && 3 * numNodes < width && 3 <= height && (allowed || width != 10) {
      if width == 10 {
        assert numNodes == 3 && QuantizedAlign(10, 3) == 4;
        var es, os := LooseRun(width, height, numNodes, 8, true);
      } else {
        var aligned := WindowForThree(width, numNodes);
        var es, os := LooseRun(width, height, numNodes, aligned, false);
        assert forall i :: 0 <= i < |es| ==> KeepsRounding(es[i], allowed);
      }
    }
    if CanRaiseBeside(width, height, numNodes, allowed) {
      var es: seq<Event>, os: seq<Outcome> :|
        && Runs(init, es, os)
        && (forall i :: 0 <= i < |es| ==> KeepsRounding(es[i], allowed))
        && !SnugRun(init, es, os);
      LooseRunNeeds(init, es, os, allowed);
    }
  }

  /** The area under the skyline is the packed area plus the waste of the run. */
  ghost predicate AreaIsExact(st: State, es: seq<Event>, os: seq<Outcome>)
    requires WellFormed(st) && Runs(st, es, os)
  {
    SkyArea(Final(st, es, os)) == PackedArea(es, os) + RunWaste(st, es, os)
  }

  lemma FreshAreaIsConserved(width: int, height: int, numNodes: int, es: seq<Event>, os: seq<Outcome>)
    requires 1 <= width && 0 <= height < SENTINEL_Y && 1 <= numNodes
    requires Runs(Init(width, height, numNodes), es, os)
    ensures AreaIsExact(Init(width, height, numNodes), es, os) <==> SnugRun(Init(width, height, numNodes), es, os)
  {
    hide Runs, Final, SnugRun, RunWaste, PackedArea, At;
    var init := Init(width, height, numNodes);
    AreaIsConserved(init, es, os);
    AreaBounds(init.sky, 0, width, 0, 0);
  }

  /** So it is in all runs, unless bin and storage are such that columns beside a box can be raised. */
  lemma AreaIsAlwaysExactIff(width: int, height: int, numNodes: int, allowed: bool)
    requires 1 <= width && 0 <= height < SENTINEL_Y && 1 <= numNodes
    ensures (forall es: seq<Event>, os: seq<Outcome> ::
               && Runs(Init(width, height, numNodes), es, os)
               && (forall i :: 0 <= i < |es| ==> KeepsRounding(es[i], allowed)) ==>
               AreaIsExact(Init(width, height, numNodes), es, os))
            <==> !(3 <= numNodes && 3 * numNodes < width && 3 <= height && (allowed || width != 10))
  {
    hide Runs, SnugRun, AreaIsExact, WellFormed;
    CanRaiseBesideIff(width, height, numNodes, allowed);
    forall es: seq<Event>, os: seq<Outcome> | Runs(Init(width, height, numNodes), es, os)
      ensures AreaIsExact(Init(width, height, numNodes), es, os) <==> SnugRun(Init(width, height, numNodes), es, os)
    {
      FreshAreaIsConserved(width, height, numNodes, es, os);
    }
  }
}
