/**
  What adds up over a run of the packer: the areas.
 */
module RunTotals {
  import opened Arithmetic
  import opened Skyline
  import opened Search
  import opened Splice
  import opened PackerRuns
  import opened NodeSupply

  // ----- area

  function PackedArea(es: seq<Event>, os: seq<Outcome>): int
    requires |es| == |os|
    decreases |es|
  {
    if es == [] then 0
    else (if es[0].Place? && os[0].Packed? then es[0].w * es[0].h else 0) + PackedArea(es[1..], os[1..])
  }

  /** The area left unused directly under the box of one step, at the time it is placed. */
  function StepWaste(st: State, e: Event, o: Outcome): int
    requires st.sky != []
  {
    if e.Place? && o.Packed? then Waste(st.sky, o.y, o.x, o.x + e.w) else 0
  }

  ghost function RunWaste(st: State, es: seq<Event>, os: seq<Outcome>): int
    requires WellFormed(st) && Runs(st, es, os)
    decreases |es|
  {
    if es == [] then 0
    else StepWaste(st, es[0], os[0]) + RunWaste(After(st, es[0], os[0]), es[1..], os[1..])
  }

  /** The step raises the skyline under its box only. */
  ghost predicate SnugStep(st: State, e: Event, o: Outcome)
    requires WellFormed(st) && Legal(st, e, o)
  {
    if e.Place? && o.Packed? then
      LandingCanPut(st, e.w, e.h, o.x, o.y);
      Snug(st.sky, SegmentOf(st.sky, o.x), o.x, e.w)
    else true
  }

  ghost predicate SnugRun(st: State, es: seq<Event>, os: seq<Outcome>)
    requires WellFormed(st) && Runs(st, es, os)
    decreases |es|
  {
    es != [] ==> SnugStep(st, es[0], os[0]) && SnugRun(After(st, es[0], os[0]), es[1..], os[1..])
  }

  function SkyArea(st: State): int
    requires st.sky != []
  {
    Area(st.sky, 0, st.width)
  }

  lemma {:induction false} WasteSplit(s: seq<Seg>, y: int, lo: int, mid: int, hi: int)
    requires s != [] && lo <= mid <= hi
    ensures Waste(s, y, lo, hi) == Waste(s, y, lo, mid) + Waste(s, y, mid, hi)
    decreases hi - mid
  {
    if mid < hi {
      WasteSplit(s, y, lo, mid, hi - 1);
    }
  }

  lemma {:induction false} WasteOverSegment(s: seq<Seg>, i: nat, y: int, lo: int, hi: int)
    requires i + 1 < |s| && Increasing(s) && s[i].x <= lo <= hi <= s[i + 1].x
    ensures Waste(s, y, lo, hi) == (hi - lo) * (y - s[i].y)
    decreases hi - lo
  {
    if lo < hi {
      WasteOverSegment(s, i, y, lo, hi - 1);
      AtSegment(s, i, hi - 1);
      assert (hi - lo) * (y - s[i].y) == (hi - 1 - lo) * (y - s[i].y) + (y - s[i].y);
    }
  }

  lemma PutAreaIff(s: seq<Seg>, binWidth: int, binHeight: int, p: nat, x: int, y: int, h: int, w: int)
    requires CanPut(s, binWidth, binHeight, p, x, y + h, w) && s[p].y < y + h
    ensures var grown := Area(Put(s, p, x, y + h, w), 0, binWidth) - Area(s, 0, binWidth);
            var accounted := w * h + Waste(s, y, x, x + w);
            grown >= accounted && (grown == accounted <==> Snug(s, p, x, w))
  {
    hide Put, Area, Waste, Cut;
    var r := RaisedTo(s, p, x, w);
    PutArea(s, binWidth, binHeight, p, x, y + h, w);
    WasteOfRaisedFloor(s, y, h, x, x + w);
    if !Snug(s, p, x, w) {
      WasteSplit(s, y + h, x, x + w, r);
      WasteOverSegment(s, p, y + h, x + w, r);
      CutBounds(s, binWidth, binHeight, p, x, y + h, w);
      SameSign(r - (x + w), y + h - s[p].y);
    }
  }

  lemma StepArea(st: State, e: Event, o: Outcome)
    requires WellFormed(st) && Legal(st, e, o)
    ensures var grown := SkyArea(After(st, e, o)) - SkyArea(st);
            var accounted := PackedArea([e], [o]) + StepWaste(st, e, o);
            grown >= accounted && (grown == accounted <==> SnugStep(st, e, o))
  {
    hide Put, Waste, Area, Cut, Candidate, Floor, IsBottomLeft, IsBestFit, GroundIsLast;
    if e.Place? && o.Packed? {
      var p := SegmentOf(st.sky, o.x);
      LandingCanPut(st, e.w, e.h, o.x, o.y);
      AtSegment(st.sky, p, o.x);
      PutAreaIff(st.sky, st.width, st.height, p, o.x, o.y, e.h, e.w);
      assert PackedArea([e], [o]) == e.w * e.h;
    } else {
      assert PackedArea([e], [o]) == 0;
    }
  }

  /**
    The area under the skyline grows by at least the packed areas and the true wastes of a run, and
    by exactly that much if and only if every placement is snug.
   */
  lemma {:induction false} AreaIsConserved(st: State, es: seq<Event>, os: seq<Outcome>)
    requires WellFormed(st) && Runs(st, es, os)
    ensures var grown := SkyArea(Final(st, es, os)) - SkyArea(st);
            var accounted := PackedArea(es, os) + RunWaste(st, es, os);
            grown >= accounted && (grown == accounted <==> SnugRun(st, es, os))
    decreases |es|
  {
    hide Put, Legal, After, Area, Waste, SnugStep, IsSkyline, GroundIsLast;
    if es != [] {
      StepArea(st, es[0], os[0]);
      AfterKeepsBin(st, es[0], os[0]);
      AreaIsConserved(After(st, es[0], os[0]), es[1..], os[1..]);
    }
  }

  /** Bottom-left placements are snug, and so are all placements with alignment 1. */
  lemma StepIsSnug(st: State, e: Event, o: Outcome)
    requires WellFormed(st) && Legal(st, e, o) && (st.align == 1 || !st.bestFit)
    ensures SnugStep(st, e, o)
  {
  }

  ghost predicate KeepsAlignOne(e: Event) { e.SetAllowOutOfMem? ==> e.allow }
  ghost predicate KeepsBottomLeft(e: Event) { e.SetHeuristic? ==> !e.bestFit }

  lemma {:induction false} RunIsSnug(st: State, es: seq<Event>, os: seq<Outcome>)
    requires WellFormed(st) && Runs(st, es, os)
    requires || (st.align == 1 && forall i :: 0 <= i < |es| ==> KeepsAlignOne(es[i]))
             || (!st.bestFit && forall i :: 0 <= i < |es| ==> KeepsBottomLeft(es[i]))
    ensures SnugRun(st, es, os)
    decreases |es|
  {
    if es != [] {
      StepIsSnug(st, es[0], os[0]);
      assert KeepsAlignOne(es[0]) || KeepsBottomLeft(es[0]);
      RunIsSnug(After(st, es[0], os[0]), es[1..], os[1..]);
    }
  }

  /** With as many nodes as columns every run is snug, whatever the heuristic. */
  lemma {:induction false} AmpleRunIsSnug(st: State, es: seq<Event>, os: seq<Outcome>)
    requires WellFormed(st) && Runs(st, es, os) && st.numNodes >= st.width
    ensures SnugRun(st, es, os)
    decreases |es|
  {
    hide Put, SnugStep, Legal;
    if es != [] {
      EnoughForColumns(st);
      StepIsSnug(st, es[0], os[0]);
      AfterKeepsBin(st, es[0], os[0]);
      AmpleRunIsSnug(After(st, es[0], os[0]), es[1..], os[1..]);
    }
  }

  lemma StepWasteNonNegative(st: State, e: Event, o: Outcome)
    requires WellFormed(st) && Legal(st, e, o)
    ensures 0 <= StepWaste(st, e, o)
  {
    hide Put, Candidate, Selects, Floor, At, Waste;
    if e.Place? && o.Packed? {
      var x, y, w := o.x, o.y, e.w;
      LandingCanPut(st, w, e.h, x, y);
      WasteUnderFloor(st.sky, y, x, x + w);
    }
  }

  lemma {:induction false} WasteUnderFloor(s: seq<Seg>, y: int, lo: int, hi: int)
    requires s != [] && forall c :: lo <= c < hi ==> At(s, c) <= y
    ensures 0 <= Waste(s, y, lo, hi)
    decreases hi - lo
  {
    if lo < hi {
      WasteUnderFloor(s, y, lo, hi - 1);
    }
  }

  lemma {:induction false} RunWasteNonNegative(st: State, es: seq<Event>, os: seq<Outcome>)
    requires WellFormed(st) && Runs(st, es, os)
    ensures 0 <= RunWaste(st, es, os)
    decreases |es|
  {
    hide Put, Waste;
    if es != [] {
      StepWasteNonNegative(st, es[0], os[0]);
      RunWasteNonNegative(After(st, es[0], os[0]), es[1..], os[1..]);
    }
  }

  /** From a fresh bin no run packs more area than the bin has. */
  lemma PackedAreaFitsTheBin(width: int, height: int, numNodes: int, es: seq<Event>, os: seq<Outcome>)
    requires 1 <= width && 0 <= height < SENTINEL_Y && 1 <= numNodes
    requires Runs(Init(width, height, numNodes), es, os)
    ensures PackedArea(es, os) <= width * height
  {
    hide Runs, Final, PackedArea, RunWaste, Area, At, SnugRun, GroundIsLast;
    var st := Init(width, height, numNodes);
    var fin := Final(st, es, os);
    AreaIsConserved(st, es, os);
    RunWasteNonNegative(st, es, os);
    forall c | 0 <= c < width ensures At(st.sky, c) == 0 && 0 <= At(fin.sky, c) <= height {
      AtBounds(fin.sky, width, height, c);
      AtSegment(st.sky, 0, c);
    }
    AreaBounds(st.sky, 0, width, 0, 0);
    AreaBounds(fin.sky, 0, width, 0, height);
  }
}
