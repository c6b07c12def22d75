/**
  What becomes of a box that was refused: nothing that happens later makes room for it.
 */
module Refusals {
  import opened Skyline
  import opened Search
  import opened Splice
  import opened Permutations
  import opened PackerRuns
  import opened PackRects

  /** A box of this size is refused, for lack of a node or of room. */
  ghost predicate Refuses(st: State, w: int, h: int)
    requires WellFormed(st)
  {
    FreeNodes(st) == 0 || !FitsSomewhere(st, w, h)
  }

  lemma RejectedIffRefuses(st: State, w: int, h: int, o: Outcome)
    requires WellFormed(st) && 1 <= w && 1 <= h && Legal(st, Place(w, h), o)
    ensures o == Rejected <==> Refuses(st, w, h)
  {
    hide FitsSomewhere, Selects, Lands, MayReject;
    AcceptsIffFits(st, w, h, o);
  }

  /** A wider window over a skyline that is nowhere lower has no lower floor. */
  lemma FloorRises(s: seq<Seg>, t: seq<Seg>, width: int, width': int, x: int)
    requires s != [] && t != [] && width <= width'
    requires forall c :: x <= c < x + width ==> At(s, c) <= At(t, c)
    ensures Floor(s, width, x) <= Floor(t, width', x)
  {
    MaxOverIsMax(t, x, x + width');
    MaxOverAtMost(s, x, x + width, Floor(t, width', x));
  }

  lemma RoundUpRises(w: int, w': int, align: int, align': int)
    requires 1 <= w <= w' && 1 <= align && 1 <= align' && (align == 1 || align' == align)
    ensures RoundUp(w, align) <= RoundUp(w', align')
  {
    RoundUpBounds(w, align);
    RoundUpBounds(w', align');
    if align' == align {
      RoundUpIsMultiple(w', align);
      RoundUpAtMost(w, align, RoundUp(w', align));
    }
  }

  /** What fits after a step fitted before it. */
  lemma StepFits(st: State, e: Event, o: Outcome, w: int, h: int)
    requires WellFormed(st) && Legal(st, e, o) && 1 <= w && 1 <= h && KeepsRounding(e, false)
    requires FitsSomewhere(After(st, e, o), w, h)
    ensures FitsSomewhere(st, w, h)
  {
    hide Put, Legal, After, Floor, Increasing, GroundIsLast, QuantizedAlign, RoundUp;
    var st' := After(st, e, o);
    AfterKeepsBin(st, e, o);
    BinsAgree(st, st');
    AlignRises(st, e, o);
    RoundUpRises(w, w, st.align, st'.align);
    var x :| Feasible(st'.sky, RoundUp(w, st'.align), x) && Rest(st', w, x) + h <= st'.height;
    forall c | x <= c < x + RoundUp(w, st.align) ensures At(st.sky, c) <= At(st'.sky, c) {
      StepRaises(st, e, o, c);
    }
    FloorRises(st.sky, st'.sky, RoundUp(w, st.align), RoundUp(w, st'.align), x);
    assert Feasible(st.sky, RoundUp(w, st.align), x) && Rest(st, w, x) + h <= st.height;
  }

  lemma BinsAgree(st: State, st': State)
    requires WellFormed(st) && WellFormed(st') && st.width == st'.width
    ensures BinWidth(st.sky) == BinWidth(st'.sky) == st.width
  {
  }

  lemma AlignRises(st: State, e: Event, o: Outcome)
    requires WellFormed(st) && Legal(st, e, o) && KeepsRounding(e, false)
    ensures st.align == 1 || After(st, e, o).align == st.align
  {
    hide Put, Selects, Lands, MayReject, IsSkyline, GroundIsLast;
  }

  /** Once the free list is empty nothing is placed any more. */
  lemma EmptyListStays(st: State, e: Event, o: Outcome)
    requires WellFormed(st) && Legal(st, e, o) && FreeNodes(st) == 0
    ensures FreeNodes(After(st, e, o)) == 0
  {
    hide Put, Selects, MayReject, IsSkyline, GroundIsLast;
  }

  /** A refused box is refused for ever, and so is every larger one, unless the rounding is switched off. */
  lemma {:induction false} RefusesOn(st: State, es: seq<Event>, os: seq<Outcome>, w: int, h: int)
    requires WellFormed(st) && Runs(st, es, os) && 1 <= w && 1 <= h && Refuses(st, w, h)
    requires forall i :: 0 <= i < |es| ==> KeepsRounding(es[i], false)
    ensures Refuses(Final(st, es, os), w, h)
    decreases |es|
  {
    hide After, Legal, FitsSomewhere, WellFormed, FreeNodes;
    if es != [] {
      assert KeepsRounding(es[0], false);
      StepRefuses(st, es[0], os[0], w, h);
      RefusesOn(After(st, es[0], os[0]), es[1..], os[1..], w, h);
    }
  }

  lemma StepRefuses(st: State, e: Event, o: Outcome, w: int, h: int)
    requires WellFormed(st) && Legal(st, e, o) && 1 <= w && 1 <= h && Refuses(st, w, h) && KeepsRounding(e, false)
    ensures Refuses(After(st, e, o), w, h)
  {
    hide After, Legal, FitsSomewhere, WellFormed, FreeNodes;
    if FreeNodes(st) == 0 {
      EmptyListStays(st, e, o);
    } else if FitsSomewhere(After(st, e, o), w, h) {
      StepFits(st, e, o, w, h);
    }
  }

  lemma RefusesLarger(st: State, w: int, h: int, w': int, h': int)
    requires WellFormed(st) && 1 <= w <= w' && 1 <= h <= h' && Refuses(st, w, h)
    ensures Refuses(st, w', h')
  {
    hide Floor, Increasing, GroundIsLast, RoundUp;
    if FitsSomewhere(st, w', h') {
      var x :| Feasible(st.sky, RoundUp(w', st.align), x) && Rest(st, w', x) + h' <= st.height;
      RoundUpRises(w, w', st.align, st.align);
      FloorRises(st.sky, st.sky, RoundUp(w, st.align), RoundUp(w', st.align), x);
      assert Feasible(st.sky, RoundUp(w, st.align), x) && Rest(st, w, x) + h <= st.height;
    }
  }

  /** After the rejection of a box the final state of the run refuses boxes of that size. */
  lemma {:induction false} RejectedIsRefused(st: State, es: seq<Event>, os: seq<Outcome>, j: nat)
    requires WellFormed(st) && Runs(st, es, os) && j < |es| && es[j].Place? && os[j] == Rejected
    requires forall i :: 0 <= i < |es| ==> KeepsRounding(es[i], false)
    ensures 1 <= es[j].w && 1 <= es[j].h && Refuses(Final(st, es, os), es[j].w, es[j].h)
    decreases |es|
  {
    hide After, Refuses, Selects, Lands, MayReject, WellFormed;
    if j > 0 {
      RejectedIsRefused(After(st, es[0], os[0]), es[1..], os[1..], j - 1);
    } else {
      RejectedIffRefuses(st, es[0].w, es[0].h, os[0]);
      RefusesOn(st, es, os, es[0].w, es[0].h);
    }
  }

  /** A run that starts in a state that refuses a box rejects that box and every larger one. */
  lemma {:induction false} RefusedIsRejected(st: State, es: seq<Event>, os: seq<Outcome>, w: int, h: int, m: nat)
    requires WellFormed(st) && Runs(st, es, os) && 1 <= w && 1 <= h && Refuses(st, w, h)
    requires forall i :: 0 <= i < |es| ==> KeepsRounding(es[i], false)
    requires m < |es| && es[m].Place? && w <= es[m].w && h <= es[m].h
    ensures os[m] == Rejected
    decreases |es|
  {
    hide After, Legal, Refuses, WellFormed;
    if m > 0 {
      assert KeepsRounding(es[0], false);
      StepRefuses(st, es[0], os[0], w, h);
      RefusedIsRejected(After(st, es[0], os[0]), es[1..], os[1..], w, h, m - 1);
    } else {
      RefusesLarger(st, w, h, es[0].w, es[0].h);
      RejectedIffRefuses(st, es[0].w, es[0].h, os[0]);
    }
  }

  lemma PlacesKeepRounding(s: seq<Rect>)
    ensures forall i :: 0 <= i < |Places(s)| ==> KeepsRounding(Places(s)[i], false)
  {
  }

  /**
    A rectangle that one call reports as not packed is not packed by a later call either, nor is any larger one,
    whatever calls are made between them, as long as none switches the rounding off.
   */
  lemma NotPackedStaysOut(st: State, st1: State, input1: seq<Rect>, order1: seq<int>, os1: seq<Outcome>,
                          output1: seq<Rect>, status1: int, es: seq<Event>, os: seq<Outcome>,
                          st2: State, input2: seq<Rect>, order2: seq<int>, os2: seq<Outcome>,
                          output2: seq<Rect>, status2: int, i: nat, k: nat)
    requires PackedAs(st, st1, input1, order1, os1, output1, status1)
    requires WellFormed(st1) && Runs(st1, es, os)
    requires forall j :: 0 <= j < |es| ==> KeepsRounding(es[j], false)
    requires PackedAs(Final(st1, es, os), st2, input2, order2, os2, output2, status2)
    requires i < |output1| && k < |output2| && output1[i].wasPacked == 0
    requires output1[i].w <= output2[k].w && output1[i].h <= output2[k].h
    ensures output2[k].wasPacked == 0
  {
    hide PackedAs, Runs, Final, Refuses, Places, Legal, After, WellFormed, Rearranged;
    var mid := Final(st1, es, os);
    var j, es1 := PlacedInCall(st, st1, input1, order1, os1, output1, status1, i);
    RejectedIsRefused(st, es1, os1, j);
    RefusesOn(st1, es, os, output1[i].w, output1[i].h);
    var m, es2 := PlacedInCall(mid, st2, input2, order2, os2, output2, status2, k);
    RefusedIsRejected(mid, es2, os2, output1[i].w, output1[i].h, m);
  }

  /** The event of a call that concerns rectangle k, and what its answer means for the output. */
  lemma PlacedInCall(st: State, st': State, input: seq<Rect>, order: seq<int>, os: seq<Outcome>,
                     output: seq<Rect>, status: int, k: nat) returns (m: nat, es: seq<Event>)
    requires PackedAs(st, st', input, order, os, output, status) && k < |output|
    ensures WellFormed(st) && Runs(st, es, os) && st' == Final(st, es, os) && m < |es|
    ensures forall i :: 0 <= i < |es| ==> KeepsRounding(es[i], false)
    ensures es[m] == Place(output[k].w, output[k].h)
    ensures os[m] == Rejected <==> output[k].wasPacked == 0
  {
    hide Legal, After, SortedBy, IsSkyline, GroundIsLast;
    m := PermutationIsOnto(order, |input|, k);
    es := Places(Rearranged(input, order));
    PlacesKeepRounding(Rearranged(input, order));
    assert es[m] == PlaceOf(input[k]);
  }
}
