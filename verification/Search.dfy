/**
  The two placement searches of stbrp__skyline_find_best_pos, stated by what they select.

  Both try finitely many left edges: bottom-left those aligned with the left end of a segment,
  best-fit also those that put the right edge on the left end of a segment. The theorems compare
  the selected position with every integer position in the bin.
 */
module Search {
  import opened Arithmetic
  import opened Skyline
  import opened FloorScan

  /** Rounds a width up the way the search does. */
  function RoundUp(width: int, align: int): int
    requires align >= 1
  {
    var w := width + align - 1;
    w - w % align
  }

  lemma RoundUpBounds(width: int, align: int)
    requires align >= 1
    ensures width <= RoundUp(width, align) < width + align
    ensures align == 1 ==> RoundUp(width, align) == width
  {
  }

  lemma RoundUpIsLeastMultiple(width: int, align: int)
    requires align >= 1
    ensures RoundUp(width, align) % align == 0
    ensures width <= RoundUp(width, align) < width + align
    ensures forall m: int :: width <= m * align ==> RoundUp(width, align) <= m * align
  {
    var w := width + align - 1;
    var q := w / align;
    assert w == align * q + w % align;
    DivModOfSum(align, q, 0);
    forall m: int | width <= m * align ensures RoundUp(width, align) <= m * align {
      if m < q {
        TimesMonotone(align, m + 1, q);
      } else {
        TimesMonotone(align, q, m);
      }
    }
  }

  lemma RoundUpIsMultiple(w: int, align: int)
    requires align >= 1
    ensures RoundUp(w, align) % align == 0 && w <= RoundUp(w, align)
  {
    RoundUpIsLeastMultiple(w, align);
  }

  lemma RoundUpAtMost(w: int, align: int, m: int)
    requires align >= 1 && w <= m && m % align == 0
    ensures RoundUp(w, align) <= m
  {
    RoundUpIsLeastMultiple(w, align);
    assert m == m / align * align;
  }

  /** Every value that the rounding computes is a signed 32-bit number. */
  ghost predicate RoundUpFits(width: int, align: int)
    requires align >= 1
  {
    && Int32(width + align) && Int32(width + align - 1)
    && Int32((width + align - 1) % align) && Int32(RoundUp(width, align))
  }

  lemma RoundUpFitsIff(width: int, align: int)
    requires 0 <= width && 1 <= align && Int32(align)
    ensures RoundUpFits(width, align) <==> width <= 0x7fff_ffff - align
  {
    RoundUpBounds(width, align);
  }

  // ----- positions

  function BinWidth(s: seq<Seg>): int
    requires s != []
  {
    s[|s| - 1].x
  }

  ghost predicate Feasible(s: seq<Seg>, width: int, x: int)
    requires s != []
  {
    0 <= x && x + width <= BinWidth(s)
  }

  ghost predicate LeftAligned(s: seq<Seg>, width: int, x: int)
    requires s != []
  {
    Feasible(s, width, x) && exists i :: 0 <= i < |s| && s[i].x == x
  }

  ghost predicate RightAligned(s: seq<Seg>, width: int, x: int)
    requires s != []
  {
    Feasible(s, width, x) && exists i :: 0 <= i < |s| && s[i].x == x + width
  }

  ghost predicate Candidate(s: seq<Seg>, width: int, x: int)
    requires s != []
  {
    LeftAligned(s, width, x) || RightAligned(s, width, x)
  }

  /** Height at which a box with its left edge at x comes to rest. */
  function Floor(s: seq<Seg>, width: int, x: int): int
    requires s != []
  {
    MaxOver(s, x, x + width)
  }

  /** The unused area under that box. */
  function FloorWaste(s: seq<Seg>, width: int, x: int): int
    requires s != []
  {
    Waste(s, Floor(s, width, x), x, x + width)
  }

  /** The unused area as the scan computes it. */
  function ScannedWaste(s: seq<Seg>, width: int, x: int): int
    requires s != [] && s[0].x <= x
  {
    Scan(s, SegmentOf(s, x), x, width, START).waste
  }

  ghost predicate Precedes(y: int, x: int, y': int, x': int) {
    y < y' || (y == y' && x <= x')
  }

  ghost predicate Precedes3(y: int, w: int, x: int, y': int, w': int, x': int) {
    y < y' || (y == y' && (w < w' || (w == w' && x <= x')))
  }

  /** x is what the bottom-left search selects: the first of the lowest left-aligned positions. */
  ghost predicate IsBottomLeft(s: seq<Seg>, width: int, x: int)
    requires s != []
  {
    && LeftAligned(s, width, x)
    && forall x' :: LeftAligned(s, width, x') ==> Precedes(Floor(s, width, x), x, Floor(s, width, x'), x')
  }

  /** x is what the best-fit search selects among the candidates under which a box of this height fits. */
  ghost predicate IsBestFit(s: seq<Seg>, width: int, height: int, binHeight: int, x: int)
    requires s != [] && s[0].x == 0
  {
    && Candidate(s, width, x)
    && Floor(s, width, x) + height <= binHeight
    && forall x' :: Candidate(s, width, x') && Floor(s, width, x') + height <= binHeight ==>
         Precedes3(Floor(s, width, x), ScannedWaste(s, width, x), x, Floor(s, width, x'), ScannedWaste(s, width, x'), x')
  }

  // ----- bottom-left

  /** Moving a box left to the start of the segment under its left edge never raises it. */
  lemma SlideLeft(s: seq<Seg>, binWidth: int, binHeight: int, width: int, x: int) returns (x': int)
    requires IsSkyline(s, binWidth, binHeight) && width >= 1 && Feasible(s, width, x)
    ensures x' <= x && LeftAligned(s, width, x') && Floor(s, width, x') <= Floor(s, width, x)
  {
    var i := SegmentOf(s, x);
    assert i + 1 < |s|;
    x' := s[i].x;
    AtSegment(s, i, x);
    MaxOverIsMax(s, x, x + width);
    forall c | x' <= c < x' + width
      ensures At(s, c) <= Floor(s, width, x)
    {
      if c < x {
        AtSegment(s, i, c);
      }
    }
    MaxOverAtMost(s, x', x' + width, Floor(s, width, x));
    assert 0 <= s[i].x;
  }

  /** The bottom-left selection is the lowest, then leftmost, of all integer positions. */
  lemma BottomLeftIsOptimal(s: seq<Seg>, binWidth: int, binHeight: int, width: int, x: int)
    requires IsSkyline(s, binWidth, binHeight) && width >= 1
    requires IsBottomLeft(s, width, x)
    ensures forall x' :: Feasible(s, width, x') ==> Precedes(Floor(s, width, x), x, Floor(s, width, x'), x')
  {
    forall x' | Feasible(s, width, x')
      ensures Precedes(Floor(s, width, x), x, Floor(s, width, x'), x')
    {
      var left := SlideLeft(s, binWidth, binHeight, width, x');
    }
  }

  // ----- best-fit

  lemma BestFitIsLowest(s: seq<Seg>, binWidth: int, binHeight: int, width: int, height: int, x: int)
    requires IsSkyline(s, binWidth, binHeight) && width >= 1
    requires IsBestFit(s, width, height, binHeight, x)
    ensures forall x' :: Feasible(s, width, x') ==> Floor(s, width, x) <= Floor(s, width, x')
  {
    forall x' | Feasible(s, width, x')
      ensures Floor(s, width, x) <= Floor(s, width, x')
    {
      var left := SlideLeft(s, binWidth, binHeight, width, x');
      assert Candidate(s, width, left);
    }
  }

  /** Moving a box while its left edge stays in segment i and its last column in segment j. */
  ghost predicate SameSegments(s: seq<Seg>, width: int, i: nat, j: nat, x: int, p: int) {
    && i + 1 < |s| && s[i].x <= x < s[i + 1].x
    && j + 1 < |s| && s[j].x <= x + width - 1 < s[j + 1].x
    && s[i].x <= p <= s[i + 1].x && s[j].x <= p + width <= s[j + 1].x
  }

  lemma SlideFloor(s: seq<Seg>, width: int, i: nat, j: nat, x: int, p: int)
    requires Increasing(s) && width >= 1 && SameSegments(s, width, i, j, x, p)
    ensures Floor(s, width, p) <= Floor(s, width, x)
  {
    AtSegment(s, i, x);
    AtSegment(s, j, x + width - 1);
    MaxOverIsMax(s, x, x + width);
    forall c | p <= c < p + width
      ensures At(s, c) <= Floor(s, width, x)
    {
      if c < x {
        AtSegment(s, i, c);
      } else if c >= x + width {
        AtSegment(s, j, c);
      }
    }
    MaxOverAtMost(s, p, p + width, Floor(s, width, x));
  }

  /** The area under the skyline below the moved box changes linearly. */
  lemma SlideArea(s: seq<Seg>, width: int, i: nat, j: nat, x: int, p: int)
    requires Increasing(s) && width >= 1 && SameSegments(s, width, i, j, x, p)
    ensures Area(s, p, p + width) == Area(s, x, x + width) + (p - x) * (s[j].y - s[i].y)
  {
    var lo, hi := Min(p, x), Max(p, x);
    AreaSplit(s, lo, hi, hi + width);
    AreaSplit(s, lo, lo + width, hi + width);
    AreaExtend(s, i, lo, lo, hi);
    AreaExtend(s, j, lo + width, lo + width, hi + width);
    TimesDifference(hi - lo, s[j].y, s[i].y);
    TimesDifference(lo - hi, s[j].y, s[i].y);
  }

  lemma AreaOrdersWaste(s: seq<Seg>, width: int, p: int, x: int)
    requires s != [] && width >= 0 && Floor(s, width, p) == Floor(s, width, x)
    ensures FloorWaste(s, width, p) - FloorWaste(s, width, x) == Area(s, x, x + width) - Area(s, p, p + width)
  {
    WasteIsBoxLessArea(s, Floor(s, width, p), p, p + width);
    WasteIsBoxLessArea(s, Floor(s, width, x), x, x + width);
  }

  /** From any position on the lowest floor some candidate on the same floor is at least as good. */
  lemma SlideToCandidate(s: seq<Seg>, binWidth: int, binHeight: int, width: int, x: int) returns (c: int)
    requires IsSkyline(s, binWidth, binHeight) && width >= 1 && Feasible(s, width, x)
    requires forall c' :: Candidate(s, width, c') ==> Floor(s, width, x) <= Floor(s, width, c')
    ensures Candidate(s, width, c) && Floor(s, width, c) == Floor(s, width, x)
    ensures FloorWaste(s, width, c) < FloorWaste(s, width, x)
            || (FloorWaste(s, width, c) == FloorWaste(s, width, x) && c <= x)
  {
    var i := SegmentOf(s, x);
    var j := SegmentOf(s, x + width - 1);
    assert s[i].x >= 0 && s[j + 1].x <= binWidth;
    c := if s[j].y <= s[i].y then Max(s[i].x, s[j].x - width) else Min(s[i + 1].x, s[j + 1].x - width);
    SlideFloor(s, width, i, j, x, c);
    SlideArea(s, width, i, j, x, c);
    SameSign(c - x, s[j].y - s[i].y);
    assert LeftAligned(s, width, c) || RightAligned(s, width, c);
    AreaOrdersWaste(s, width, c, x);
  }

  ghost predicate ScansAreExact(s: seq<Seg>, width: int)
    requires s != [] && s[0].x == 0
  {
    forall x :: Candidate(s, width, x) ==> ScannedWaste(s, width, x) == FloorWaste(s, width, x)
  }

  /**
    If the scans of the candidates are exact, the best-fit selection is the lowest, then least
    wasteful, then leftmost, of all integer positions at which the box fits.
   */
  lemma BestFitIsOptimal(s: seq<Seg>, binWidth: int, binHeight: int, width: int, height: int, x: int)
    requires IsSkyline(s, binWidth, binHeight) && width >= 1
    requires IsBestFit(s, width, height, binHeight, x) && ScansAreExact(s, width)
    ensures forall x' :: Feasible(s, width, x') ==>
              Precedes3(Floor(s, width, x), FloorWaste(s, width, x), x, Floor(s, width, x'), FloorWaste(s, width, x'), x')
  {
    BestFitIsLowest(s, binWidth, binHeight, width, height, x);
    forall x' | Feasible(s, width, x')
      ensures Precedes3(Floor(s, width, x), FloorWaste(s, width, x), x, Floor(s, width, x'), FloorWaste(s, width, x'), x')
    {
      if Floor(s, width, x') == Floor(s, width, x) {
        var c := SlideToCandidate(s, binWidth, binHeight, width, x');
      }
    }
  }

  /** Only the segment before the sentinel may be at height 0. */
  ghost predicate GroundIsLast(s: seq<Seg>) {
    forall i :: 0 <= i < |s| - 2 ==> s[i].y > 0
  }

  lemma GroundIsLastMakesScansExact(s: seq<Seg>, binWidth: int, binHeight: int, width: int)
    requires IsSkyline(s, binWidth, binHeight) && width >= 1 && GroundIsLast(s)
    ensures ScansAreExact(s, width)
  {
    forall x | Candidate(s, width, x)
      ensures ScannedWaste(s, width, x) == FloorWaste(s, width, x)
    {
      var i := SegmentOf(s, x);
      if s[i].y == 0 {
        assert i == |s| - 2;
        AtSegment(s, i, x + width - 1);
      }
      ScanWasteExactIff(s, binWidth, binHeight, i, x, width);
    }
  }

  // ----- one comparison of the searches

  // What a search has found so far.
  datatype Best = Best(found: bool, x: int, y: int, waste: int)

  const NOTHING := Best(false, 0, SENTINEL_Y, SENTINEL_Y)

  ghost predicate FoundBottomLeft(s: seq<Seg>, width: int, r: Best)
    requires s != []
  {
    if r.found then LeftAligned(s, width, r.x) && r.y == Floor(s, width, r.x) else r.y == SENTINEL_Y
  }

  ghost predicate FoundBestFit(s: seq<Seg>, width: int, height: int, binHeight: int, r: Best)
    requires s != [] && s[0].x == 0
  {
    if r.found then
      && Candidate(s, width, r.x) && r.y + height <= binHeight
      && r.y == Floor(s, width, r.x) && r.waste == ScannedWaste(s, width, r.x)
    else r == NOTHING
  }

  ghost predicate NotLower(s: seq<Seg>, width: int, r: Best, x: int)
    requires s != []
  {
    r.found && Precedes(r.y, r.x, Floor(s, width, x), x)
  }

  ghost predicate NotBetter(s: seq<Seg>, width: int, height: int, binHeight: int, r: Best, x: int)
    requires s != [] && s[0].x <= x
  {
    Floor(s, width, x) + height <= binHeight ==>
      r.found && Precedes3(r.y, r.waste, r.x, Floor(s, width, x), ScannedWaste(s, width, x), x)
  }

  function BottomLeftStep(r: Best, x: int, y: int): Best {
    if y < r.y then r.(found := true, x := x, y := y) else r
  }

  function BestFitLeftStep(height: int, binHeight: int, r: Best, x: int, y: int, waste: int): Best {
    if y + height <= binHeight && (y < r.y || (y == r.y && waste < r.waste)) then Best(true, x, y, waste) else r
  }

  function BestFitRightStep(height: int, binHeight: int, r: Best, x: int, y: int, waste: int): Best {
    if y + height <= binHeight && y <= r.y && (y < r.y || waste < r.waste || (waste == r.waste && x < r.x)) then
      Best(true, x, y, waste)
    else r
  }

  lemma BottomLeftStepKeeps(s: seq<Seg>, width: int, r: Best, x: int)
    requires s != [] && FoundBottomLeft(s, width, r) && LeftAligned(s, width, x)
    requires (r.found ==> r.x < x) && Floor(s, width, x) < SENTINEL_Y
    ensures var r' := BottomLeftStep(r, x, Floor(s, width, x));
            && FoundBottomLeft(s, width, r') && NotLower(s, width, r', x) && r'.x <= x
            && forall x' :: NotLower(s, width, r, x') ==> NotLower(s, width, r', x')
  {
  }

  lemma BestFitStepKeeps(s: seq<Seg>, width: int, height: int, binHeight: int, r: Best, x: int, right: bool)
    requires |s| >= 2 && s[0].x == 0 && height >= 1 && binHeight < SENTINEL_Y
    requires FoundBestFit(s, width, height, binHeight, r) && Candidate(s, width, x)
    requires !right && r.found ==> r.x < x
    ensures var y, waste := Floor(s, width, x), ScannedWaste(s, width, x);
            var r' := if right then BestFitRightStep(height, binHeight, r, x, y, waste)
                      else BestFitLeftStep(height, binHeight, r, x, y, waste);
            && FoundBestFit(s, width, height, binHeight, r')
            && NotBetter(s, width, height, binHeight, r', x)
            && forall x' :: 0 <= x' && NotBetter(s, width, height, binHeight, r, x') ==>
                 NotBetter(s, width, height, binHeight, r', x')
  {
  }

  function LeftStep(bestFit: bool, height: int, binHeight: int, r: Best, x: int, y: int, waste: int): Best {
    if bestFit then BestFitLeftStep(height, binHeight, r, x, y, waste) else BottomLeftStep(r, x, y)
  }

  /** r is the best of the left-aligned positions at the segments before i. */
  ghost predicate SeenLeft(s: seq<Seg>, binHeight: int, width: int, height: int, bestFit: bool, i: nat, r: Best) {
    && i < |s| && |s| >= 2 && s[0].x == 0
    && (forall k :: 0 <= k < i ==> 0 <= s[k].x && s[k].x + width <= BinWidth(s))
    && (r.found ==> exists k :: 0 <= k < i && s[k].x == r.x)
    && if bestFit then
         && FoundBestFit(s, width, height, binHeight, r)
         && forall k :: 0 <= k < i ==> NotBetter(s, width, height, binHeight, r, s[k].x)
       else
         && FoundBottomLeft(s, width, r)
         && forall k :: 0 <= k < i ==> NotLower(s, width, r, s[k].x)
  }

  lemma SeenLeftStart(s: seq<Seg>, binWidth: int, binHeight: int, width: int, height: int, bestFit: bool)
    requires IsSkyline(s, binWidth, binHeight)
    ensures SeenLeft(s, binHeight, width, height, bestFit, 0, NOTHING)
  {
  }

  lemma SeenLeftStep(s: seq<Seg>, binWidth: int, binHeight: int, width: int, height: int, bestFit: bool, i: nat, r: Best)
    requires IsSkyline(s, binWidth, binHeight) && 0 <= binHeight < SENTINEL_Y && 1 <= width && 1 <= height
    requires SeenLeft(s, binHeight, width, height, bestFit, i, r) && s[i].x + width <= binWidth
    ensures 0 <= s[i].x
    ensures var x := s[i].x;
            var r' := LeftStep(bestFit, height, binHeight, r, x, Floor(s, width, x), ScannedWaste(s, width, x));
            SeenLeft(s, binHeight, width, height, bestFit, i + 1, r')
  {
    hide MaxOver, Scan, SegmentOf, At, Floor, ScannedWaste;
    ScanAtSegment(s, binWidth, binHeight, width, i);
    if bestFit {
      BestFitStepKeeps(s, width, height, binHeight, r, s[i].x, false);
    } else {
      BottomLeftStepKeeps(s, width, r, s[i].x);
    }
  }

  lemma ScanAtSegment(s: seq<Seg>, binWidth: int, binHeight: int, width: int, i: nat)
    requires IsSkyline(s, binWidth, binHeight) && 0 <= binHeight && 1 <= width && i < |s| && s[i].x + width <= binWidth
    ensures IsWindow(s, binWidth, binHeight, i, s[i].x, width)
    ensures i + 1 < |s| && 0 <= s[i].x && forall k :: 0 <= k < i ==> s[k].x < s[i].x
    ensures MaxOver(s, s[i].x, s[i].x + width) == Floor(s, width, s[i].x) <= binHeight
    ensures Scan(s, i, s[i].x, width, START).waste == ScannedWaste(s, width, s[i].x)
    ensures LeftAligned(s, width, s[i].x) && Candidate(s, width, s[i].x)
  {
    hide MaxOver, Scan;
    SegmentOfUnique(s, s[i].x, i);
    MaxOverBounds(s, binWidth, binHeight, s[i].x, s[i].x + width);
  }

  lemma SeenAllLeft(s: seq<Seg>, binWidth: int, binHeight: int, width: int, height: int, bestFit: bool, i: nat, r: Best)
    requires IsSkyline(s, binWidth, binHeight) && 1 <= width <= binWidth
    requires SeenLeft(s, binHeight, width, height, bestFit, i, r) && s[i].x + width > binWidth
    ensures !bestFit ==> r.found && IsBottomLeft(s, width, r.x) && r.y == Floor(s, width, r.x)
    ensures bestFit ==>
              && FoundBestFit(s, width, height, binHeight, r)
              && forall x' :: LeftAligned(s, width, x') ==> NotBetter(s, width, height, binHeight, r, x')
  {
  }

  /** r is the best of all left-aligned positions and of the right-aligned ones at the segments before i. */
  ghost predicate SeenRight(s: seq<Seg>, binHeight: int, width: int, height: int, i: nat, r: Best) {
    && i <= |s| && |s| >= 2 && s[0].x == 0
    && FoundBestFit(s, width, height, binHeight, r)
    && (forall x' :: LeftAligned(s, width, x') ==> NotBetter(s, width, height, binHeight, r, x'))
    && (forall k :: 0 <= k < i && s[k].x >= width ==> NotBetter(s, width, height, binHeight, r, s[k].x - width))
  }

  lemma StartsInBin(s: seq<Seg>, binWidth: int, binHeight: int, i: nat)
    requires IsSkyline(s, binWidth, binHeight) && i < |s|
    ensures 0 <= s[i].x <= binWidth
  {
  }

  lemma StartOfSegment(s: seq<Seg>, binWidth: int, binHeight: int, i: nat)
    requires IsSkyline(s, binWidth, binHeight) && i < |s|
    ensures 0 <= s[i].x && SegmentOf(s, s[i].x) == i
  {
  }

  lemma SeenRightSkip(s: seq<Seg>, binHeight: int, width: int, height: int, i: nat, r: Best)
    requires SeenRight(s, binHeight, width, height, i, r) && i < |s| && s[i].x < width
    ensures SeenRight(s, binHeight, width, height, i + 1, r)
  {
  }

  lemma ScanBeforeSegment(s: seq<Seg>, binWidth: int, binHeight: int, width: int, i: nat, first: nat)
    requires IsSkyline(s, binWidth, binHeight) && 0 <= binHeight && 1 <= width && i < |s| && width <= s[i].x
    requires first + 1 < |s| && s[first].x <= s[i].x - width < s[first + 1].x
    ensures IsWindow(s, binWidth, binHeight, first, s[i].x - width, width)
    ensures SegmentOf(s, s[i].x - width) == first
    ensures MaxOver(s, s[i].x - width, s[i].x) == Floor(s, width, s[i].x - width) <= binHeight
    ensures Scan(s, first, s[i].x - width, width, START).waste == ScannedWaste(s, width, s[i].x - width)
    ensures RightAligned(s, width, s[i].x - width)
    ensures i + 1 < |s| ==> s[i].x < s[i + 1].x
  {
    hide MaxOver, Scan;
    SegmentOfUnique(s, s[i].x - width, first);
    MaxOverBounds(s, binWidth, binHeight, s[i].x - width, s[i].x);
    assert s[i].x == (s[i].x - width) + width;
  }

  lemma SeenRightStep(s: seq<Seg>, binWidth: int, binHeight: int, width: int, height: int, i: nat, r: Best)
    requires IsSkyline(s, binWidth, binHeight) && 0 <= binHeight < SENTINEL_Y && 1 <= width && 1 <= height
    requires SeenRight(s, binHeight, width, height, i, r) && i < |s| && width <= s[i].x
    ensures var x := s[i].x - width;
            var r' := BestFitRightStep(height, binHeight, r, x, Floor(s, width, x), ScannedWaste(s, width, x));
            SeenRight(s, binHeight, width, height, i + 1, r')
  {
    hide MaxOver, Scan, SegmentOf, At, Floor, ScannedWaste;
    assert s[i].x == (s[i].x - width) + width;
    assert RightAligned(s, width, s[i].x - width);
    BestFitStepKeeps(s, width, height, binHeight, r, s[i].x - width, true);
  }

  lemma SeenAllRight(s: seq<Seg>, binWidth: int, binHeight: int, width: int, height: int, r: Best)
    requires IsSkyline(s, binWidth, binHeight) && 1 <= width
    requires SeenRight(s, binHeight, width, height, |s|, r)
    ensures r.found ==> IsBestFit(s, width, height, binHeight, r.x) && r.y == Floor(s, width, r.x)
    ensures !r.found ==> forall x' :: Candidate(s, width, x') ==> Floor(s, width, x') + height > binHeight
  {
  }

  const PIT: seq<Seg> := [Seg(0, 0), Seg(3, 1), Seg(7, 9), Seg(10, SENTINEL_Y)]

  lemma PitScans()
    ensures Scan(PIT, 0, 0, 5, START) == Acc(1, 3, 7)
    ensures Scan(PIT, 0, 2, 5, START) == Acc(1, 3, 7)
  {
    assert Scan(PIT, 2, 0, 5, Acc(1, 3, 7)) == Acc(1, 3, 7);
    assert Scan(PIT, 1, 0, 5, Acc(0, 0, 3)) == Acc(1, 3, 7);
    assert Scan(PIT, 2, 2, 5, Acc(1, 3, 7)) == Acc(1, 3, 7);
    assert Scan(PIT, 1, 2, 5, Acc(0, 0, 3)) == Acc(1, 3, 7);
  }

  lemma PitFloors()
    ensures Floor(PIT, 5, 0) == 1 && Floor(PIT, 5, 2) == 1
    ensures Floor(PIT, 5, 3) >= 9 && Floor(PIT, 5, 5) >= 9
  {
    PitScans();
    ScanMinY(PIT, 10, 20, 0, 2, 5);
    ScanMinY(PIT, 10, 20, 0, 0, 5);
    AtSegment(PIT, 2, 7);
    MaxOverIsMax(PIT, 3, 8);
    MaxOverIsMax(PIT, 5, 10);
  }

  lemma PitCandidates(x: int)
    requires Candidate(PIT, 5, x)
    ensures x == 0 || x == 2 || x == 3 || x == 5
  {
  }

  /** Without exact scans the best-fit selection can waste more than another candidate on the same floor. */
  lemma BestFitNeedsExactScans()
    ensures IsSkyline(PIT, 10, 20)
    ensures IsBestFit(PIT, 5, 1, 20, 0)
    ensures Candidate(PIT, 5, 2) && Floor(PIT, 5, 2) == Floor(PIT, 5, 0)
    ensures FloorWaste(PIT, 5, 2) < FloorWaste(PIT, 5, 0)
  {
    PitScans();
    PitFloors();
    ScanWasteCanBeTooHigh();
    ScanWasteExactIff(PIT, 10, 20, 0, 0, 5);
    assert PIT[0].x == 0 && PIT[2].x == 2 + 5;
    assert SegmentOf(PIT, 0) == 0 && SegmentOf(PIT, 2) == 0;
    forall x' | Candidate(PIT, 5, x') && Floor(PIT, 5, x') + 1 <= 20
      ensures Precedes3(Floor(PIT, 5, 0), ScannedWaste(PIT, 5, 0), 0, Floor(PIT, 5, x'), ScannedWaste(PIT, 5, x'), x')
    {
      PitCandidates(x');
    }
  }
}
