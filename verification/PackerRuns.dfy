/**
  The packer as a state machine on values: the state between two calls, what each call may answer,
  and properties of every run.

  A run starts with `Init` and mixes placements with changes of the heuristic and of the
  out-of-memory mode in any order, so it covers any number of stbrp_pack_rects calls.
 */
module PackerRuns {
  import opened Arithmetic
  import opened Skyline
  import opened Search
  import opened Splice

  datatype State = State(width: int, height: int, numNodes: int, align: int, bestFit: bool, sky: seq<Seg>)

  datatype Event =
    | SetHeuristic(bestFit: bool)
    | SetAllowOutOfMem(allow: bool)
    | Place(w: int, h: int)

  // The answer to a setup call or to an empty box is `NoSpaceNeeded`.
  datatype Outcome = NoSpaceNeeded | Packed(x: int, y: int) | Rejected

  function FreeNodes(st: State): int { st.numNodes + 2 - |st.sky| }

  /** The alignment that is meant to make numNodes segments enough. */
  function QuantizedAlign(width: int, numNodes: int): int
    requires numNodes >= 1
  {
    (width + numNodes - 1) / numNodes
  }

  /** What the packer keeps in every reachable state. */
  ghost predicate WellFormed(st: State) {
    && 1 <= st.width && 0 <= st.height < SENTINEL_Y
    && 1 <= st.numNodes
    && 1 <= st.align
    && (st.align == 1 || st.align == QuantizedAlign(st.width, st.numNodes))
    && IsSkyline(st.sky, st.width, st.height)
    && GroundIsLast(st.sky)
    && 0 <= FreeNodes(st)
  }

  lemma QuantizedAlignIsPositive(width: int, numNodes: int)
    requires 1 <= width && 1 <= numNodes
    ensures QuantizedAlign(width, numNodes) >= 1
  {
  }

  /** The state right after initialization: the bin is empty and the whole storage is free. */
  function Init(width: int, height: int, numNodes: int): (st: State)
    requires 1 <= width && 0 <= height < SENTINEL_Y && 1 <= numNodes
    ensures WellFormed(st) && FreeNodes(st) == numNodes && forall x :: 0 <= x < width ==> At(st.sky, x) == 0
    ensures st.width == width && st.height == height && st.numNodes == numNodes
    ensures !st.bestFit && st.align == QuantizedAlign(width, numNodes)
  {
    QuantizedAlignIsPositive(width, numNodes);
    State(width, height, numNodes, QuantizedAlign(width, numNodes), false, [Seg(0, 0), Seg(width, SENTINEL_Y)])
  }

  lemma QuantizedAlignIsCeiling(width: int, numNodes: int)
    requires 1 <= width && 1 <= numNodes
    ensures var a := QuantizedAlign(width, numNodes);
            numNodes * (a - 1) < width <= numNodes * a
  {
    var a := QuantizedAlign(width, numNodes);
    assert width + numNodes - 1 == numNodes * a + (width + numNodes - 1) % numNodes;
    assert numNodes * (a - 1) == numNodes * a - numNodes;
  }

  /** In a bin narrower than 2^30 rounding a box of less than that width does not overflow. */
  lemma RoundingCannotOverflow(st: State, w: int)
    requires WellFormed(st) && st.width < 0x4000_0000 && 0 <= w < 0x4000_0000
    ensures RoundUpFits(w, st.align)
  {
    QuantizedAlignIsCeiling(st.width, st.numNodes);
    if st.align > st.width {
      TimesMonotone(st.align - 1, 1, st.numNodes);
    }
    RoundUpFitsIff(w, st.align);
  }

  // ----- one step

  /** x is what the search returns for a box of this size, before it is known whether the box fits. */
  ghost predicate Selects(st: State, w: int, h: int, x: int)
    requires WellFormed(st)
  {
    var aligned := RoundUp(w, st.align);
    && aligned <= st.width && h <= st.height
    && if st.bestFit then IsBestFit(st.sky, aligned, h, st.height, x) else IsBottomLeft(st.sky, aligned, x)
  }

  ghost predicate SelectsNothing(st: State, w: int, h: int)
    requires WellFormed(st)
  {
    var aligned := RoundUp(w, st.align);
    || aligned > st.width || h > st.height
    || (st.bestFit && forall x :: Candidate(st.sky, aligned, x) ==> Floor(st.sky, aligned, x) + h > st.height)
  }

  /** The floor under the selected position, over the rounded width. */
  function Rest(st: State, w: int, x: int): int
    requires WellFormed(st)
  {
    Floor(st.sky, RoundUp(w, st.align), x)
  }

  /** A box that comes to rest on the skyline at (x, y) and fits, with a node to record it. */
  ghost predicate Lands(st: State, w: int, h: int, x: int, y: int)
    requires WellFormed(st)
  {
    && w >= 1 && h >= 1 && FreeNodes(st) > 0
    && Feasible(st.sky, RoundUp(w, st.align), x)
    && y == Rest(st, w, x) && y + h <= st.height
  }

  ghost predicate MayReject(st: State, w: int, h: int)
    requires WellFormed(st)
  {
    || FreeNodes(st) == 0
    || SelectsNothing(st, w, h)
    || exists x :: Selects(st, w, h, x) && Rest(st, w, x) + h > st.height
  }

  ghost predicate Legal(st: State, e: Event, o: Outcome)
    requires WellFormed(st)
  {
    match e
    case SetHeuristic(_) => o == NoSpaceNeeded
    case SetAllowOutOfMem(_) => o == NoSpaceNeeded
    case Place(w, h) =>
      && 0 <= w && 0 <= h
      && if w == 0 || h == 0 then o == NoSpaceNeeded
         else match o
           case NoSpaceNeeded => false
           case Packed(x, y) => Selects(st, w, h, x) && Lands(st, w, h, x, y)
           case Rejected => MayReject(st, w, h)
  }

  ghost function After(st: State, e: Event, o: Outcome): (st': State)
    requires WellFormed(st) && Legal(st, e, o)
    ensures WellFormed(st')
  {
    match e
    case SetHeuristic(bestFit) => st.(bestFit := bestFit)
    case SetAllowOutOfMem(allow) =>
      QuantizedAlignIsPositive(st.width, st.numNodes);
      st.(align := if allow then 1 else QuantizedAlign(st.width, st.numNodes))
    case Place(w, h) =>
      if o.Packed? then
        SelectionKeepsGround(st, w, h, o.x);
        AfterPlacing(st, w, h, o.x, o.y)
      else st
  }

  ghost function AfterPlacing(st: State, w: int, h: int, x: int, y: int): (st': State)
    requires WellFormed(st) && Lands(st, w, h, x, y) && KeepsGround(st.sky, x)
    ensures WellFormed(st')
  {
    LandingKeepsState(st, w, h, x, y);
    st.(sky := Put(st.sky, SegmentOf(st.sky, x), x, y + h, w))
  }

  lemma LandingKeepsState(st: State, w: int, h: int, x: int, y: int)
    requires WellFormed(st) && Lands(st, w, h, x, y) && KeepsGround(st.sky, x)
    ensures SegmentOf(st.sky, x) + 1 < |st.sky|
    ensures WellFormed(st.(sky := Put(st.sky, SegmentOf(st.sky, x), x, y + h, w)))
  {
    hide Put, Floor;
    LandingCanPut(st, w, h, x, y);
    PutKeepsState(st, SegmentOf(st.sky, x), x, y + h, w);
  }

  lemma PutKeepsState(st: State, p: nat, x: int, y: int, w: int)
    requires WellFormed(st) && FreeNodes(st) > 0 && 0 <= x && KeepsGround(st.sky, x) && p == SegmentOf(st.sky, x)
    requires CanPut(st.sky, st.width, st.height, p, x, y, w) && y > 0
    ensures WellFormed(st.(sky := Put(st.sky, p, x, y, w)))
  {
    PutKeepsSkyline(st.sky, st.width, st.height, p, x, y, w);
    PutKeepsGroundLast(st.sky, st.width, st.height, p, x, y, w);
  }

  lemma LandingCanPut(st: State, w: int, h: int, x: int, y: int)
    requires WellFormed(st) && Lands(st, w, h, x, y)
    ensures CanPut(st.sky, st.width, st.height, SegmentOf(st.sky, x), x, y + h, w)
    ensures 0 <= y && forall c :: x <= c < x + w ==> At(st.sky, c) <= y
  {
    var aligned := RoundUp(w, st.align);
    RoundUpBounds(w, st.align);
    RestingBox(st.sky, st.width, st.height, aligned, w, x);
  }

  lemma RestingBox(s: seq<Seg>, binWidth: int, binHeight: int, aligned: int, w: int, x: int)
    requires IsSkyline(s, binWidth, binHeight) && 1 <= w <= aligned && Feasible(s, aligned, x)
    ensures SegmentOf(s, x) + 1 < |s|
    ensures forall c :: x <= c < x + w ==> At(s, c) <= Floor(s, aligned, x)
  {
    MaxOverIsMax(s, x, x + aligned);
  }

  /** x does not split a last segment at height 0. */
  ghost predicate KeepsGround(s: seq<Seg>, x: int)
    requires |s| >= 2 && s[0].x == 0 && 0 <= x
  {
    SegmentOf(s, x) == |s| - 2 && s[|s| - 2].x < x ==> s[|s| - 2].y > 0
  }

  lemma SelectionKeepsGround(st: State, w: int, h: int, x: int)
    requires WellFormed(st) && w >= 1 && Selects(st, w, h, x)
    ensures 0 <= x && KeepsGround(st.sky, x)
  {
    var aligned := RoundUp(w, st.align);
    RoundUpBounds(w, st.align);
    if st.bestFit && SegmentOf(st.sky, x) == |st.sky| - 2 && st.sky[|st.sky| - 2].x < x {
      BestFitDoesNotSplitGround(st.sky, st.width, st.height, aligned, h, x);
    }
  }

  lemma BestFitDoesNotSplitGround(s: seq<Seg>, binWidth: int, binHeight: int, aligned: int, h: int, x: int)
    requires IsSkyline(s, binWidth, binHeight) && GroundIsLast(s) && aligned >= 1
    requires IsBestFit(s, aligned, h, binHeight, x)
    requires SegmentOf(s, x) == |s| - 2 && s[|s| - 2].x < x
    ensures s[|s| - 2].y > 0
  {
    var p := |s| - 2;
    var left := s[p].x;
    if s[p].y == 0 {
      assert Candidate(s, aligned, left);
      GroundIsLastMakesScansExact(s, binWidth, binHeight, aligned);
      MaxOverExtend(s, p, left, left, left + aligned);
      MaxOverExtend(s, p, x, x, x + aligned);
      AreaExtend(s, p, left, left, left + aligned);
      AreaExtend(s, p, x, x, x + aligned);
      AreaOrdersWaste(s, aligned, left, x);
    }
  }

  lemma PutKeepsGroundLast(s: seq<Seg>, binWidth: int, binHeight: int, p: nat, x: int, y: int, w: int)
    requires CanPut(s, binWidth, binHeight, p, x, y, w) && GroundIsLast(s) && y > 0
    requires 0 <= x && KeepsGround(s, x) && p == SegmentOf(s, x)
    ensures GroundIsLast(Put(s, p, x, y, w))
    ensures |Put(s, p, x, y, w)| <= |s| + 1
  {
    hide SegmentOf, Cut, At;
    var q := Kept(s, p, x);
    var k := Cut(s, q, x + w);
    var t := Put(s, p, x, y, w);
    forall i | 0 <= i < |t| - 2 ensures t[i].y > 0 {
      if i < q {
        assert t[i] == s[i];
      } else if i >= q + 2 {
        assert t[i] == s[i - q - 1 + k];
      }
    }
  }

  /** The answer to an event is determined by the state. */
  lemma LegalIsDeterministic(st: State, e: Event, o: Outcome, o': Outcome)
    requires WellFormed(st) && Legal(st, e, o) && Legal(st, e, o')
    ensures o == o'
  {
  }

  // ----- what is accepted, and where

  ghost predicate FitsSomewhere(st: State, w: int, h: int)
    requires WellFormed(st)
  {
    exists x :: Feasible(st.sky, RoundUp(w, st.align), x) && Rest(st, w, x) + h <= st.height
  }

  /**
    With a free node, a box is accepted exactly if its rounded width fits somewhere above the skyline, at
    any integer position, whichever heuristic is set; and it is put at the least height there is.
   */
  lemma AcceptsIffFits(st: State, w: int, h: int, o: Outcome)
    requires WellFormed(st) && 1 <= w && 1 <= h && Legal(st, Place(w, h), o)
    ensures o.Packed? <==> FreeNodes(st) > 0 && FitsSomewhere(st, w, h)
    ensures o.Packed? ==> forall x :: Feasible(st.sky, RoundUp(w, st.align), x) ==> o.y <= Rest(st, w, x)
  {
    var aligned := RoundUp(w, st.align);
    RoundUpBounds(w, st.align);
    if o.Packed? {
      SelectionIsLowest(st, w, h, o.x);
      assert Feasible(st.sky, aligned, o.x) && Rest(st, w, o.x) + h <= st.height;
    } else if FreeNodes(st) > 0 {
      forall x | Feasible(st.sky, aligned, x) ensures Rest(st, w, x) + h > st.height {
        RejectedFitsNowhere(st, w, h, x);
      }
    }
  }

  lemma SelectionIsLowest(st: State, w: int, h: int, x: int)
    requires WellFormed(st) && 1 <= w && Selects(st, w, h, x)
    ensures forall x' :: Feasible(st.sky, RoundUp(w, st.align), x') ==> Rest(st, w, x) <= Rest(st, w, x')
  {
    var aligned := RoundUp(w, st.align);
    RoundUpBounds(w, st.align);
    if st.bestFit {
      BestFitIsLowest(st.sky, st.width, st.height, aligned, h, x);
    } else {
      BottomLeftIsOptimal(st.sky, st.width, st.height, aligned, x);
    }
  }

  lemma RejectedFitsNowhere(st: State, w: int, h: int, x: int)
    requires WellFormed(st) && 1 <= w && 1 <= h && Legal(st, Place(w, h), Rejected) && FreeNodes(st) > 0
    requires Feasible(st.sky, RoundUp(w, st.align), x)
    ensures Rest(st, w, x) + h > st.height
  {
    var aligned := RoundUp(w, st.align);
    RoundUpBounds(w, st.align);
    if SelectsNothing(st, w, h) {
      var left := SlideLeft(st.sky, st.width, st.height, aligned, x);
      assert Candidate(st.sky, aligned, left);
    } else {
      var sel :| Selects(st, w, h, sel) && Rest(st, w, sel) + h > st.height;
      SelectionIsLowest(st, w, h, sel);
    }
  }

  /** From states that differ only in the heuristic, both accept the same boxes at the same height. */
  lemma HeuristicsAgree(st: State, st': State, w: int, h: int, o: Outcome, o': Outcome)
    requires WellFormed(st) && WellFormed(st') && st' == st.(bestFit := st'.bestFit)
    requires 1 <= w && 1 <= h && Legal(st, Place(w, h), o) && Legal(st', Place(w, h), o')
    ensures o.Packed? <==> o'.Packed?
    ensures o.Packed? ==> o.y == o'.y
  {
    AcceptsIffFits(st, w, h, o);
    AcceptsIffFits(st', w, h, o');
    assert FitsSomewhere(st, w, h) <==> FitsSomewhere(st', w, h) by {
      assert forall x :: Rest(st, w, x) == Rest(st', w, x);
    }
    if o.Packed? {
      assert Feasible(st.sky, RoundUp(w, st.align), o.x) && Feasible(st'.sky, RoundUp(w, st'.align), o'.x);
      assert Rest(st', w, o.x) == o.y && Rest(st, w, o'.x) == o'.y;
    }
  }

  /** Where the box goes, among all integer positions: bottom-left minimizes (y, x), best-fit (y, true waste, x). */
  lemma PlacementIsOptimal(st: State, w: int, h: int, x: int, y: int)
    requires WellFormed(st) && 1 <= w && 1 <= h && Legal(st, Place(w, h), Packed(x, y))
    ensures var aligned := RoundUp(w, st.align);
            forall x' :: Feasible(st.sky, aligned, x') ==>
              if st.bestFit then
                Precedes3(y, FloorWaste(st.sky, aligned, x), x, Floor(st.sky, aligned, x'), FloorWaste(st.sky, aligned, x'), x')
              else Precedes(y, x, Floor(st.sky, aligned, x'), x')
  {
    var aligned := RoundUp(w, st.align);
    RoundUpBounds(w, st.align);
    if st.bestFit {
      GroundIsLastMakesScansExact(st.sky, st.width, st.height, aligned);
      BestFitIsOptimal(st.sky, st.width, st.height, aligned, h, x);
    } else {
      BottomLeftIsOptimal(st.sky, st.width, st.height, aligned, x);
    }
  }

  // ----- there always is an answer

  lemma SearchesFinish(s: seq<Seg>, binWidth: int, binHeight: int, width: int, height: int, bestFit: bool) returns (r: Best)
    requires IsSkyline(s, binWidth, binHeight) && 0 <= binHeight < SENTINEL_Y
    requires 1 <= width <= binWidth && 1 <= height
    ensures !bestFit ==> r.found && IsBottomLeft(s, width, r.x)
    ensures bestFit && r.found ==> IsBestFit(s, width, height, binHeight, r.x)
    ensures bestFit && !r.found ==> forall x :: Candidate(s, width, x) ==> Floor(s, width, x) + height > binHeight
  {
    hide Floor, ScannedWaste, Candidate, SeenLeft, IsBottomLeft, IsBestFit, Increasing;
    var i: nat := 0;
    r := NOTHING;
    SeenLeftStart(s, binWidth, binHeight, width, height, bestFit);
    while s[i].x + width <= binWidth
      invariant i < |s| && SeenLeft(s, binHeight, width, height, bestFit, i, r)
      decreases |s| - i
    {
      ScanAtSegment(s, binWidth, binHeight, width, i);
      SeenLeftStep(s, binWidth, binHeight, width, height, bestFit, i, r);
      r := LeftStep(bestFit, height, binHeight, r, s[i].x, Floor(s, width, s[i].x), ScannedWaste(s, width, s[i].x));
      i := i + 1;
    }
    SeenAllLeft(s, binWidth, binHeight, width, height, bestFit, i, r);
    if bestFit {
      r := SearchRightFinishes(s, binWidth, binHeight, width, height, r);
    }
  }

  lemma SearchRightFinishes(s: seq<Seg>, binWidth: int, binHeight: int, width: int, height: int, r0: Best) returns (r: Best)
    requires IsSkyline(s, binWidth, binHeight) && 0 <= binHeight < SENTINEL_Y && 1 <= width && 1 <= height
    requires SeenRight(s, binHeight, width, height, 0, r0)
    ensures r.found ==> IsBestFit(s, width, height, binHeight, r.x)
    ensures !r.found ==> forall x :: Candidate(s, width, x) ==> Floor(s, width, x) + height > binHeight
  {
    hide Floor, ScannedWaste, Candidate, SeenRight, IsBestFit;
    r := r0;
    var t: nat := 0;
    while t < |s|
      invariant t <= |s| && SeenRight(s, binHeight, width, height, t, r)
    {
      if s[t].x < width {
        SeenRightSkip(s, binHeight, width, height, t, r);
      } else {
        var x := s[t].x - width;
        SeenRightStep(s, binWidth, binHeight, width, height, t, r);
        r := BestFitRightStep(height, binHeight, r, x, Floor(s, width, x), ScannedWaste(s, width, x));
      }
      t := t + 1;
    }
    SeenAllRight(s, binWidth, binHeight, width, height, r);
  }

  /** In every reachable state every event has an answer, so no run gets stuck. */
  lemma EveryEventHasAnswer(st: State, e: Event) returns (o: Outcome)
    requires WellFormed(st) && (e.Place? ==> 0 <= e.w && 0 <= e.h)
    ensures Legal(st, e, o)
  {
    hide Floor, Candidate, IsBottomLeft, IsBestFit, IsSkyline, GroundIsLast;
    if !e.Place? || e.w == 0 || e.h == 0 {
      return NoSpaceNeeded;
    }
    var aligned := RoundUp(e.w, st.align);
    RoundUpBounds(e.w, st.align);
    if aligned > st.width || e.h > st.height || FreeNodes(st) == 0 {
      return Rejected;
    }
    var r := SearchesFinish(st.sky, st.width, st.height, aligned, e.h, st.bestFit);
    if !r.found {
      return Rejected;
    }
    assert Selects(st, e.w, e.h, r.x);
    if Rest(st, e.w, r.x) + e.h > st.height {
      return Rejected;
    }
    SelectedIsFeasible(st, e.w, e.h, r.x);
    return Packed(r.x, Rest(st, e.w, r.x));
  }

  /** The search selects a position with room for the box exactly if there is room at some integer position. */
  lemma SelectsIfFits(st: State, w: int, h: int)
    requires WellFormed(st) && 1 <= w && 1 <= h
    ensures FitsSomewhere(st, w, h) <==> exists x :: Selects(st, w, h, x) && Rest(st, w, x) + h <= st.height
  {
    hide Floor, Candidate, IsBottomLeft, IsBestFit, Increasing, GroundIsLast;
    var aligned := RoundUp(w, st.align);
    RoundUpBounds(w, st.align);
    if x' :| Feasible(st.sky, aligned, x') && Rest(st, w, x') + h <= st.height {
      FeasibleIsInBin(st, w, x');
      var r := SearchesFinish(st.sky, st.width, st.height, aligned, h, st.bestFit);
      if r.found {
        SelectionIsLowest(st, w, h, r.x);
        assert Selects(st, w, h, r.x);
      } else {
        var left := SlideLeft(st.sky, st.width, st.height, aligned, x');
        LeftAlignedIsCandidate(st.sky, aligned, left);
      }
    } else if x :| Selects(st, w, h, x) && Rest(st, w, x) + h <= st.height {
      SelectedIsFeasible(st, w, h, x);
    }
  }

  lemma FeasibleIsInBin(st: State, w: int, x: int)
    requires WellFormed(st) && Feasible(st.sky, RoundUp(w, st.align), x)
    ensures RoundUp(w, st.align) <= st.width && 0 <= Rest(st, w, x)
  {
  }

  lemma LeftAlignedIsCandidate(s: seq<Seg>, width: int, x: int)
    requires s != [] && LeftAligned(s, width, x)
    ensures Candidate(s, width, x)
  {
  }

  // ----- runs

  ghost predicate Runs(st: State, es: seq<Event>, os: seq<Outcome>)
    requires WellFormed(st)
    decreases |es|
  {
    && |es| == |os|
    && (es != [] ==> Legal(st, es[0], os[0]) && Runs(After(st, es[0], os[0]), es[1..], os[1..]))
  }

  ghost function Final(st: State, es: seq<Event>, os: seq<Outcome>): (st': State)
    requires WellFormed(st) && Runs(st, es, os)
    ensures WellFormed(st')
    ensures st'.width == st.width && st'.height == st.height && st'.numNodes == st.numNodes
    decreases |es|
  {
    if es == [] then st else Final(After(st, es[0], os[0]), es[1..], os[1..])
  }

  lemma {:induction false} RunsAppend(st: State, es: seq<Event>, os: seq<Outcome>, e: Event, o: Outcome)
    requires WellFormed(st) && Runs(st, es, os) && Legal(Final(st, es, os), e, o)
    ensures Runs(st, es + [e], os + [o])
    ensures Final(st, es + [e], os + [o]) == After(Final(st, es, os), e, o)
    decreases |es|
  {
    hide Legal, After, WellFormed;
    var es', os' := es + [e], os + [o];
    if es == [] {
      assert es' == [e] && os' == [o] && es'[1..] == [] && os'[1..] == [];
    } else {
      RunsAppend(After(st, es[0], os[0]), es[1..], os[1..], e, o);
      assert es'[1..] == es[1..] + [e] && os'[1..] == os[1..] + [o];
    }
  }

  lemma {:induction false} RunsAreDeterministic(st: State, es: seq<Event>, os: seq<Outcome>, os': seq<Outcome>)
    requires WellFormed(st) && Runs(st, es, os) && Runs(st, es, os')
    ensures os == os'
    decreases |es|
  {
    if es != [] {
      LegalIsDeterministic(st, es[0], os[0], os'[0]);
      RunsAreDeterministic(After(st, es[0], os[0]), es[1..], os[1..], os'[1..]);
    }
  }

  /** st is what a packer initialized for this bin and storage is in after these events and answers. */
  ghost predicate History(st: State, es: seq<Event>, os: seq<Outcome>)
    requires WellFormed(st)
  {
    var init := Init(st.width, st.height, st.numNodes);
    Runs(init, es, os) && Final(init, es, os) == st
  }

  lemma HistoryStart(width: int, height: int, numNodes: int)
    requires 1 <= width && 0 <= height < SENTINEL_Y && 1 <= numNodes
    ensures History(Init(width, height, numNodes), [], [])
  {
  }

  lemma HistoryStep(st: State, es: seq<Event>, os: seq<Outcome>, e: Event, o: Outcome)
    requires WellFormed(st) && History(st, es, os) && Legal(st, e, o)
    ensures History(After(st, e, o), es + [e], os + [o])
  {
    hide Legal, After;
    AfterKeepsBin(st, e, o);
    RunsAppend(Init(st.width, st.height, st.numNodes), es, os, e, o);
  }

  lemma AfterKeepsBin(st: State, e: Event, o: Outcome)
    requires WellFormed(st) && Legal(st, e, o)
    ensures var st' := After(st, e, o);
            st'.width == st.width && st'.height == st.height && st'.numNodes == st.numNodes
  {
  }

  lemma AfterPacked(st: State, w: int, h: int, x: int, y: int)
    requires WellFormed(st) && 1 <= w && 1 <= h && Selects(st, w, h, x) && y == Rest(st, w, x) && y + h <= st.height
    requires FreeNodes(st) > 0
    ensures Legal(st, Place(w, h), Packed(x, y))
    ensures CanPut(st.sky, st.width, st.height, SegmentOf(st.sky, x), x, y + h, w)
    ensures After(st, Place(w, h), Packed(x, y)) == st.(sky := Put(st.sky, SegmentOf(st.sky, x), x, y + h, w))
  {
    hide Floor, Put, IsBottomLeft, IsBestFit, GroundIsLast;
    SelectedIsFeasible(st, w, h, x);
    LandingCanPut(st, w, h, x, y);
  }

  lemma AfterRejected(st: State, w: int, h: int)
    requires WellFormed(st) && 1 <= w && 1 <= h && MayReject(st, w, h)
    ensures Legal(st, Place(w, h), Rejected) && After(st, Place(w, h), Rejected) == st
  {
  }

  lemma SelectedIsFeasible(st: State, w: int, h: int, x: int)
    requires WellFormed(st) && 1 <= w && Selects(st, w, h, x)
    ensures Feasible(st.sky, RoundUp(w, st.align), x)
  {
  }

  // ----- the settings in force

  /** The last call that chose a heuristic chose this one; bottom-left is the default. */
  ghost predicate HeuristicInForce(es: seq<Event>, bestFit: bool) {
    || (!bestFit && forall i :: 0 <= i < |es| ==> !es[i].SetHeuristic?)
    || exists i :: 0 <= i < |es| && es[i] == SetHeuristic(bestFit) && forall j :: i < j < |es| ==> !es[j].SetHeuristic?
  }

  /** The last call that set the out-of-memory mode set this one; widths are rounded by default. */
  ghost predicate AllowanceInForce(es: seq<Event>, allow: bool) {
    || (!allow && forall i :: 0 <= i < |es| ==> !es[i].SetAllowOutOfMem?)
    || exists i :: 0 <= i < |es| && es[i] == SetAllowOutOfMem(allow) && forall j :: i < j < |es| ==> !es[j].SetAllowOutOfMem?
  }

  lemma {:induction false} SettingsStay(st: State, es: seq<Event>, os: seq<Outcome>)
    requires WellFormed(st) && Runs(st, es, os)
    ensures (forall i :: 0 <= i < |es| ==> !es[i].SetHeuristic?) ==> Final(st, es, os).bestFit == st.bestFit
    ensures (forall i :: 0 <= i < |es| ==> !es[i].SetAllowOutOfMem?) ==> Final(st, es, os).align == st.align
    decreases |es|
  {
    hide Legal, WellFormed;
    if es != [] {
      var st' := After(st, es[0], os[0]);
      SettingsStay(st', es[1..], os[1..]);
      assert !es[0].SetHeuristic? ==> st'.bestFit == st.bestFit;
      assert !es[0].SetAllowOutOfMem? ==> st'.align == st.align;
    }
  }

  lemma {:induction false} LastHeuristicStays(st: State, es: seq<Event>, os: seq<Outcome>, i: nat)
    requires WellFormed(st) && Runs(st, es, os)
    requires i < |es| && es[i].SetHeuristic? && forall j :: i < j < |es| ==> !es[j].SetHeuristic?
    ensures Final(st, es, os).bestFit == es[i].bestFit
    decreases |es|
  {
    hide Legal, WellFormed;
    var st' := After(st, es[0], os[0]);
    if i == 0 {
      SettingsStay(st', es[1..], os[1..]);
    } else {
      LastHeuristicStays(st', es[1..], os[1..], i - 1);
    }
  }

  lemma {:induction false} LastAllowanceStays(st: State, es: seq<Event>, os: seq<Outcome>, i: nat)
    requires WellFormed(st) && Runs(st, es, os)
    requires i < |es| && es[i].SetAllowOutOfMem? && forall j :: i < j < |es| ==> !es[j].SetAllowOutOfMem?
    ensures Final(st, es, os).align == if es[i].allow then 1 else QuantizedAlign(st.width, st.numNodes)
    decreases |es|
  {
    hide Legal, WellFormed, QuantizedAlign;
    var st' := After(st, es[0], os[0]);
    AfterKeepsBin(st, es[0], os[0]);
    if i == 0 {
      SettingsStay(st', es[1..], os[1..]);
    } else {
      LastAllowanceStays(st', es[1..], os[1..], i - 1);
    }
  }

  lemma SettingsInForce(width: int, height: int, numNodes: int, es: seq<Event>, os: seq<Outcome>, bestFit: bool, allow: bool)
    requires 1 <= width && 0 <= height < SENTINEL_Y && 1 <= numNodes
    requires Runs(Init(width, height, numNodes), es, os)
    requires HeuristicInForce(es, bestFit) && AllowanceInForce(es, allow)
    ensures var st := Final(Init(width, height, numNodes), es, os);
            st.bestFit == bestFit && st.align == if allow then 1 else QuantizedAlign(width, numNodes)
  {
    hide Runs, Final, WellFormed, QuantizedAlign;
    var init := Init(width, height, numNodes);
    SettingsStay(init, es, os);
    if i :| 0 <= i < |es| && es[i] == SetHeuristic(bestFit) && forall j :: i < j < |es| ==> !es[j].SetHeuristic? {
      LastHeuristicStays(init, es, os, i);
    }
    if i :| 0 <= i < |es| && es[i] == SetAllowOutOfMem(allow) && forall j :: i < j < |es| ==> !es[j].SetAllowOutOfMem? {
      LastAllowanceStays(init, es, os, i);
    }
  }

  /** The width for which a place is searched. */
  function SearchedWidth(width: int, numNodes: int, w: int, allow: bool): int
    requires 1 <= width && 1 <= numNodes
  {
    QuantizedAlignIsPositive(width, numNodes);
    if allow then w else RoundUp(w, QuantizedAlign(width, numNodes))
  }

  /**
    Where a box goes after any run from initialization, among all integer positions, by the settings that the
    calls of the run chose last: without any such call, to the least (y, x) for its rounded width.
   */
  lemma PlacementFollowsSettings(width: int, height: int, numNodes: int, es: seq<Event>, os: seq<Outcome>,
                                 bestFit: bool, allow: bool, w: int, h: int, x: int, y: int)
    requires 1 <= width && 0 <= height < SENTINEL_Y && 1 <= numNodes && 1 <= w && 1 <= h
    requires Runs(Init(width, height, numNodes), es, os)
    requires HeuristicInForce(es, bestFit) && AllowanceInForce(es, allow)
    requires Legal(Final(Init(width, height, numNodes), es, os), Place(w, h), Packed(x, y))
    ensures var sky := Final(Init(width, height, numNodes), es, os).sky;
            var aligned := SearchedWidth(width, numNodes, w, allow);
            forall x' :: 0 <= x' <= width - aligned ==>
              if bestFit then
                Precedes3(y, FloorWaste(sky, aligned, x), x, Floor(sky, aligned, x'), FloorWaste(sky, aligned, x'), x')
              else Precedes(y, x, Floor(sky, aligned, x'), x')
  {
    hide Runs, Final, Legal, QuantizedAlign, HeuristicInForce, AllowanceInForce, Floor, FloorWaste, RoundUp;
    var st := Final(Init(width, height, numNodes), es, os);
    SettingsInForce(width, height, numNodes, es, os, bestFit, allow);
    RoundUpBounds(w, st.align);
    PlacementIsOptimal(st, w, h, x, y);
    var aligned := RoundUp(w, st.align);
    forall x' | 0 <= x' <= width - aligned ensures Feasible(st.sky, aligned, x') {
    }
  }

  /** The event does not switch the rounding off, unless that is allowed. */
  ghost predicate KeepsRounding(e: Event, allowed: bool) {
    e.SetAllowOutOfMem? && e.allow ==> allowed
  }

  // ----- safety of whole runs

  datatype Box = Box(x: int, y: int, w: int, h: int)

  ghost predicate Inside(b: Box, width: int, height: int) {
    0 <= b.x && b.x + b.w <= width && 0 <= b.y && b.y + b.h <= height
  }

  ghost predicate Disjoint(a: Box, b: Box) {
    a.x + a.w <= b.x || b.x + b.w <= a.x || a.y + a.h <= b.y || b.y + b.h <= a.y
  }

  ghost predicate HasCell(b: Box, cx: int, cy: int) {
    b.x <= cx < b.x + b.w && b.y <= cy < b.y + b.h
  }

  /** Boxes with an area are apart exactly if no unit cell is in both. */
  lemma DisjointMeans(a: Box, b: Box)
    requires a.w >= 1 && a.h >= 1 && b.w >= 1 && b.h >= 1
    ensures Disjoint(a, b) <==> forall cx, cy :: !(HasCell(a, cx, cy) && HasCell(b, cx, cy))
  {
    if !Disjoint(a, b) {
      assert HasCell(a, Max(a.x, b.x), Max(a.y, b.y)) && HasCell(b, Max(a.x, b.x), Max(a.y, b.y));
    }
  }

  function BoxOf(e: Event, o: Outcome): Box
    requires e.Place? && o.Packed?
  {
    Box(o.x, o.y, e.w, e.h)
  }

  ghost predicate IsPlaced(es: seq<Event>, os: seq<Outcome>, i: int)
    requires |es| == |os|
  {
    0 <= i < |es| && es[i].Place? && os[i].Packed?
  }

  /** The box lies in the bin and no higher than the skyline. */
  ghost predicate Under(st: State, b: Box)
    requires st.sky != []
  {
    && b.w >= 1 && b.h >= 1
    && Inside(b, st.width, st.height)
    && forall c :: b.x <= c < b.x + b.w ==> b.y + b.h <= At(st.sky, c)
  }

  lemma StepRaises(st: State, e: Event, o: Outcome, c: int)
    requires WellFormed(st) && Legal(st, e, o) && 0 <= c < st.width
    ensures At(st.sky, c) <= At(After(st, e, o).sky, c)
  {
    hide Put;
    if e.Place? && o.Packed? {
      LandingRaises(st, e.w, e.h, o.x, o.y, c);
    }
  }

  lemma LandingRaises(st: State, w: int, h: int, x: int, y: int, c: int)
    requires WellFormed(st) && Lands(st, w, h, x, y) && 0 <= c < st.width
    ensures SegmentOf(st.sky, x) + 1 < |st.sky|
    ensures var t := Put(st.sky, SegmentOf(st.sky, x), x, y + h, w);
            At(st.sky, c) <= At(t, c) && (x <= c < x + w ==> At(t, c) == y + h)
  {
    LandingCanPut(st, w, h, x, y);
    PutNeverLowers(st.sky, st.width, st.height, SegmentOf(st.sky, x), x, y + h, w, c);
  }

  lemma StepCovers(st: State, e: Event, o: Outcome)
    requires WellFormed(st) && Legal(st, e, o) && e.Place? && o.Packed?
    ensures Under(After(st, e, o), BoxOf(e, o))
  {
    hide Put;
    LandingCanPut(st, e.w, e.h, o.x, o.y);
    var st' := After(st, e, o);
    forall c | o.x <= c < o.x + e.w ensures o.y + e.h <= At(st'.sky, c) {
      LandingRaises(st, e.w, e.h, o.x, o.y, c);
    }
  }

  lemma StepAvoids(st: State, e: Event, o: Outcome, b: Box)
    requires WellFormed(st) && Legal(st, e, o) && e.Place? && o.Packed? && Under(st, b)
    ensures Disjoint(b, BoxOf(e, o))
  {
    LandingCanPut(st, e.w, e.h, o.x, o.y);
    if b.x < o.x + e.w && o.x < b.x + b.w {
      assert At(st.sky, Max(b.x, o.x)) <= o.y;
    }
  }

  lemma {:induction false} StaysUnder(st: State, es: seq<Event>, os: seq<Outcome>, b: Box)
    requires WellFormed(st) && Runs(st, es, os) && Under(st, b)
    ensures Under(Final(st, es, os), b)
    ensures forall j :: IsPlaced(es, os, j) ==> Disjoint(b, BoxOf(es[j], os[j]))
    decreases |es|
  {
    if es != [] {
      var st' := After(st, es[0], os[0]);
      forall c | b.x <= c < b.x + b.w ensures b.y + b.h <= At(st'.sky, c) {
        StepRaises(st, es[0], os[0], c);
      }
      StaysUnder(st', es[1..], os[1..], b);
      if es[0].Place? && os[0].Packed? {
        StepAvoids(st, es[0], os[0], b);
      }
      forall j | IsPlaced(es, os, j) ensures Disjoint(b, BoxOf(es[j], os[j])) {
        if j > 0 {
          assert IsPlaced(es[1..], os[1..], j - 1);
        }
      }
    }
  }

  /** Over every run the packed boxes lie in the bin, under the final skyline, and do not overlap. */
  lemma {:induction false} RunIsSafe(st: State, es: seq<Event>, os: seq<Outcome>)
    requires WellFormed(st) && Runs(st, es, os)
    ensures forall i :: IsPlaced(es, os, i) ==> Under(Final(st, es, os), BoxOf(es[i], os[i]))
    ensures forall i, j :: IsPlaced(es, os, i) && IsPlaced(es, os, j) && i != j ==>
              Disjoint(BoxOf(es[i], os[i]), BoxOf(es[j], os[j]))
    decreases |es|
  {
    if es != [] {
      var st' := After(st, es[0], os[0]);
      RunIsSafe(st', es[1..], os[1..]);
      if es[0].Place? && os[0].Packed? {
        StepCovers(st, es[0], os[0]);
        StaysUnder(st', es[1..], os[1..], BoxOf(es[0], os[0]));
      }
      forall i | IsPlaced(es, os, i) ensures Under(Final(st, es, os), BoxOf(es[i], os[i])) {
        if i > 0 {
          assert IsPlaced(es[1..], os[1..], i - 1);
        }
      }
      forall i, j | IsPlaced(es, os, i) && IsPlaced(es, os, j) && i < j
        ensures Disjoint(BoxOf(es[i], os[i]), BoxOf(es[j], os[j]))
      {
        assert IsPlaced(es[1..], os[1..], j - 1);
        if i > 0 {
          assert IsPlaced(es[1..], os[1..], i - 1);
        }
      }
    }
  }
}
