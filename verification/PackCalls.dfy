/**
  What a caller of stbrp_pack_rects can rely on, from the relation between its input and its output.
 */
module PackCalls {
  import opened Skyline
  import opened Splice
  import opened Permutations
  import opened PackerRuns
  import opened RectPacker
  import opened PackRects

  /** Each index still has its rectangle, and `wasPacked` is 0 exactly for those that were not placed. */
  lemma OutputKeepsInput(st: State, st': State, input: seq<Rect>, order: seq<int>, os: seq<Outcome>,
                         output: seq<Rect>, status: int, i: nat)
    requires PackedAs(st, st', input, order, os, output, status) && i < |input|
    ensures output[i].id == input[i].id && output[i].w == input[i].w && output[i].h == input[i].h
    ensures output[i].wasPacked == 0 || output[i].wasPacked == 1
    ensures output[i].wasPacked == 0 <==> output[i].x == MAXVAL && output[i].y == MAXVAL
    ensures exists j :: 0 <= j < |order| && order[j] == i && (output[i].wasPacked == 0 <==> os[j] == Rejected)
  {
    hide Legal, After, IsSkyline, SortedBy;
    var j := PermutationIsOnto(order, |input|, i);
    PackedIsNotMax(st, Places(Rearranged(input, order)), os);
    assert Places(Rearranged(input, order))[j].Place?;
  }

  /** Boxes are placed in the order of decreasing height, and in that of decreasing width among equally high ones. */
  lemma TallestFirst(st: State, st': State, input: seq<Rect>, order: seq<int>, os: seq<Outcome>,
                     output: seq<Rect>, status: int, j: nat, k: nat)
    requires PackedAs(st, st', input, order, os, output, status) && j < k < |order|
    ensures 0 <= order[j] < |input| && 0 <= order[k] < |input|
    ensures input[order[j]].h >= input[order[k]].h
    ensures input[order[j]].h == input[order[k]].h ==> input[order[j]].w >= input[order[k]].w
  {
    hide Runs, Final, WellFormed;
    var t := Rearranged(input, order);
    assert HeightOrder(t[j], t[k]);
  }

  /** A rectangle without an area is reported as packed, at the origin. */
  lemma EmptyIsAtOrigin(st: State, st': State, input: seq<Rect>, order: seq<int>, os: seq<Outcome>,
                        output: seq<Rect>, status: int, i: nat)
    requires PackedAs(st, st', input, order, os, output, status) && i < |input| && (input[i].w == 0 || input[i].h == 0)
    ensures output[i].x == 0 && output[i].y == 0 && output[i].wasPacked == 1
  {
    hide After, IsSkyline, SortedBy;
    var j := PermutationIsOnto(order, |input|, i);
    var es := Places(Rearranged(input, order));
    assert es[j] == PlaceOf(input[i]);
    NoSpaceIsNeeded(st, es, os, j);
  }

  lemma {:induction false} NoSpaceIsNeeded(st: State, es: seq<Event>, os: seq<Outcome>, j: nat)
    requires WellFormed(st) && Runs(st, es, os) && j < |es| && es[j].Place? && (es[j].w == 0 || es[j].h == 0)
    ensures os[j] == NoSpaceNeeded
    decreases |es|
  {
    hide Put, Selects, MayReject, IsSkyline;
    if j > 0 {
      NoSpaceIsNeeded(After(st, es[0], os[0]), es[1..], os[1..], j - 1);
    }
  }

  function BoxAt(r: Rect): Box { Box(r.x, r.y, r.w, r.h) }

  /** The rectangle occupies space and was placed. */
  predicate Occupies(r: Rect) { r.w != 0 && r.h != 0 && r.wasPacked != 0 }

  lemma OccupiesIsPlaced(st: State, st': State, input: seq<Rect>, order: seq<int>, os: seq<Outcome>,
                         output: seq<Rect>, status: int, i: nat) returns (j: nat)
    requires PackedAs(st, st', input, order, os, output, status) && i < |input| && Occupies(output[i])
    ensures var es := Places(Rearranged(input, order));
            IsPlaced(es, os, j) && order[j] == i && BoxAt(output[i]) == BoxOf(es[j], os[j])
  {
    hide After, IsSkyline, SortedBy;
    j := PermutationIsOnto(order, |input|, i);
    var es := Places(Rearranged(input, order));
    assert es[j] == PlaceOf(input[i]);
    SpaceIsNeeded(st, es, os, j);
  }

  /** A box with an area is either packed or rejected. */
  lemma {:induction false} SpaceIsNeeded(st: State, es: seq<Event>, os: seq<Outcome>, j: nat)
    requires WellFormed(st) && Runs(st, es, os) && j < |es| && es[j].Place? && es[j].w != 0 && es[j].h != 0
    ensures os[j] != NoSpaceNeeded
    decreases |es|
  {
    hide Put, Selects, MayReject, IsSkyline;
    if j > 0 {
      SpaceIsNeeded(After(st, es[0], os[0]), es[1..], os[1..], j - 1);
    }
  }

  /** The placed rectangles of one call lie in the bin and do not overlap. */
  lemma CallIsSafe(st: State, st': State, input: seq<Rect>, order: seq<int>, os: seq<Outcome>,
                   output: seq<Rect>, status: int)
    requires PackedAs(st, st', input, order, os, output, status)
    ensures forall i :: 0 <= i < |output| && Occupies(output[i]) ==> Inside(BoxAt(output[i]), st.width, st.height)
    ensures forall i, k :: 0 <= i < k < |output| && Occupies(output[i]) && Occupies(output[k]) ==>
              Disjoint(BoxAt(output[i]), BoxAt(output[k]))
  {
    hide PackedAs, Inside, Disjoint, BoxAt;
    forall i | 0 <= i < |output| && Occupies(output[i]) ensures Inside(BoxAt(output[i]), st.width, st.height) {
      PackedLengths(st, st', input, order, os, output, status);
      var j := OccupiesIsPlaced(st, st', input, order, os, output, status, i);
      RunIsSafe(st, Places(Rearranged(input, order)), os);
    }
    forall i, k | 0 <= i < k < |output| && Occupies(output[i]) && Occupies(output[k])
      ensures Disjoint(BoxAt(output[i]), BoxAt(output[k]))
    {
      PackedLengths(st, st', input, order, os, output, status);
      var j := OccupiesIsPlaced(st, st', input, order, os, output, status, i);
      var m := OccupiesIsPlaced(st, st', input, order, os, output, status, k);
      RunIsSafe(st, Places(Rearranged(input, order)), os);
    }
  }

  lemma PackedLengths(st: State, st': State, input: seq<Rect>, order: seq<int>, os: seq<Outcome>,
                      output: seq<Rect>, status: int)
    requires PackedAs(st, st', input, order, os, output, status)
    ensures WellFormed(st) && |output| == |input| == |os| && IsPermutation(order, |input|)
    ensures Runs(st, Places(Rearranged(input, order)), os)
  {
  }

  /**
    Two calls on the same packer, with any other calls between them: what the second returns as placed does not
    overlap what the first did.
   */
  lemma CallsAreApart(st: State, st1: State, input1: seq<Rect>, order1: seq<int>, os1: seq<Outcome>,
                      output1: seq<Rect>, status1: int, es: seq<Event>, os: seq<Outcome>,
                      st2: State, input2: seq<Rect>, order2: seq<int>, os2: seq<Outcome>,
                      output2: seq<Rect>, status2: int)
    requires PackedAs(st, st1, input1, order1, os1, output1, status1)
    requires WellFormed(st1) && Runs(st1, es, os)
    requires PackedAs(Final(st1, es, os), st2, input2, order2, os2, output2, status2)
    ensures forall i, k :: 0 <= i < |output1| && Occupies(output1[i]) && 0 <= k < |output2| && Occupies(output2[k]) ==>
              Disjoint(BoxAt(output1[i]), BoxAt(output2[k]))
  {
    hide PackedAs, Under, Disjoint, BoxAt, BoxOf, Runs, Final, Occupies;
    var mid := Final(st1, es, os);
    PackedLengths(st, st1, input1, order1, os1, output1, status1);
    PackedLengths(mid, st2, input2, order2, os2, output2, status2);
    forall i, k | 0 <= i < |output1| && Occupies(output1[i]) && 0 <= k < |output2| && Occupies(output2[k])
      ensures Disjoint(BoxAt(output1[i]), BoxAt(output2[k]))
    {
      OccupiesIsUnder(st, st1, input1, order1, os1, output1, status1, i);
      StaysUnder(st1, es, os, BoxAt(output1[i]));
      var m := OccupiesIsPlaced(mid, st2, input2, order2, os2, output2, status2, k);
      StaysUnder(mid, Places(Rearranged(input2, order2)), os2, BoxAt(output1[i]));
    }
  }

  lemma OccupiesIsUnder(st: State, st': State, input: seq<Rect>, order: seq<int>, os: seq<Outcome>,
                        output: seq<Rect>, status: int, i: nat)
    requires PackedAs(st, st', input, order, os, output, status) && i < |output| && Occupies(output[i])
    ensures WellFormed(st') && Under(st', BoxAt(output[i]))
  {
    PackedLengths(st, st', input, order, os, output, status);
    var j := OccupiesIsPlaced(st, st', input, order, os, output, status, i);
    RunIsSafe(st, Places(Rearranged(input, order)), os);
  }

  /** Whatever calls have been made since initialization, all boxes they packed lie in the bin, apart. */
  lemma AllCallsAreSafe(c: Context, i: int, k: int)
    requires c.Valid() && |c.events| == |c.outcomes| && i != k
    requires IsPlaced(c.events, c.outcomes, i) && IsPlaced(c.events, c.outcomes, k)
    ensures Inside(BoxOf(c.events[i], c.outcomes[i]), c.width, c.height)
    ensures Disjoint(BoxOf(c.events[i], c.outcomes[i]), BoxOf(c.events[k], c.outcomes[k]))
  {
    hide Disjoint, Legal, After, IsSkyline, Shows, Linked, Separate, Holds;
    RunIsSafe(Init(c.width, c.height, c.numNodes), c.events, c.outcomes);
  }

  // ----- independence of the sort

  /** Sizes and positions. */
  ghost function Layout(s: seq<Rect>): (t: seq<(int, int, int, int)>)
    ensures |t| == |s| && forall i :: 0 <= i < |s| ==> t[i] == (s[i].w, s[i].h, s[i].x, s[i].y)
  {
    seq(|s|, i requires 0 <= i < |s| => (s[i].w, s[i].h, s[i].x, s[i].y))
  }

  lemma SortedSizesAgree(input: seq<Rect>, p: seq<int>, q: seq<int>)
    requires IsPermutation(p, |input|) && IsPermutation(q, |input|)
    requires SortedBy(Rearranged(input, p), HeightOrder) && SortedBy(Rearranged(input, q), HeightOrder)
    ensures Places(Rearranged(input, p)) == Places(Rearranged(input, q))
  {
    OrdersAreTotal();
    forall j | 0 <= j < |input| ensures PlaceOf(input[p[j]]) == PlaceOf(input[q[j]]) {
      SortedArrangementsAgree(input, p, q, HeightOrder, j);
      SortedArrangementsAgree(input, q, p, HeightOrder, j);
    }
  }

  lemma StatusFromAnswers(st: State, st': State, input: seq<Rect>, order: seq<int>, os: seq<Outcome>,
                          output: seq<Rect>, status: int)
    requires PackedAs(st, st', input, order, os, output, status)
    ensures status == if Rejected in os then 0 else 1
  {
    PackedLengths(st, st', input, order, os, output, status);
    hide Runs, Final, WellFormed, SortedBy;
    if Rejected in os {
      var j :| 0 <= j < |os| && os[j] == Rejected;
      assert output[order[j]].wasPacked == 0;
    } else {
      forall i | 0 <= i < |output| ensures output[i].wasPacked != 0 {
        var j := PermutationIsOnto(order, |input|, i);
        assert os[j] in os;
      }
    }
  }

  lemma LayoutFromAnswers(st: State, st': State, input: seq<Rect>, order: seq<int>, os: seq<Outcome>,
                          output: seq<Rect>, status: int, j: nat)
    requires PackedAs(st, st', input, order, os, output, status) && j < |order|
    ensures 0 <= order[j] < |output|
    ensures var r := Returned(input[order[j]], os[j]);
            Layout(output)[order[j]] == (r.w, r.h, r.x, r.y)
  {
    hide Runs, Final, WellFormed, SortedBy;
  }

  /**
    Two calls on the same input whose sorts order equal sizes differently give the same status, leave
    the packer in the same state, and use the same positions for the same sizes.
   */
  lemma SortDoesNotMatter(st: State, st1: State, st2: State, input: seq<Rect>,
                          order1: seq<int>, os1: seq<Outcome>, output1: seq<Rect>, status1: int,
                          order2: seq<int>, os2: seq<Outcome>, output2: seq<Rect>, status2: int)
    requires PackedAs(st, st1, input, order1, os1, output1, status1)
    requires PackedAs(st, st2, input, order2, os2, output2, status2)
    ensures st1 == st2 && status1 == status2
    ensures multiset(Layout(output1)) == multiset(Layout(output2))
  {
    hide Legal, After, IsSkyline, SortedBy, Layout;
    SortedSizesAgree(input, order1, order2);
    RunsAreDeterministic(st, Places(Rearranged(input, order1)), os1, os2);
    hide Runs, Final, WellFormed, PackedAs;
    StatusFromAnswers(st, st1, input, order1, os1, output1, status1);
    StatusFromAnswers(st, st2, input, order2, os2, output2, status2);
    var l1, l2 := Layout(output1), Layout(output2);
    assert Rearranged(l1, order1) == Rearranged(l2, order2) by {
      forall j | 0 <= j < |order1| ensures l1[order1[j]] == l2[order2[j]] {
        LayoutFromAnswers(st, st1, input, order1, os1, output1, status1, j);
        LayoutFromAnswers(st, st2, input, order2, os2, output2, status2, j);
        assert Places(Rearranged(input, order1))[j] == Places(Rearranged(input, order2))[j];
      }
    }
    RearrangedIsPermuted(l1, order1);
    RearrangedIsPermuted(l2, order2);
  }
}
