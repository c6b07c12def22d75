/**
  The scan of stbrp__skyline_find_min_y: the lowest y at which a box of the given width can rest on
  the skyline with its left edge at x0, and the area that stays unused under it.

  `Visit` is one iteration of the loop and `Scan` the whole loop, on values. The lemmas say what the
  two accumulated numbers mean: the height is the maximum over the window (always), and the waste is
  the area between that height and the skyline (exactly under `ScanIsFaithful`).
 */
module FloorScan {
  import opened Skyline

  datatype Acc = Acc(minY: int, waste: int, visited: int)

  const START := Acc(0, 0, 0)

  function Visit(s: seq<Seg>, i: nat, x0: int, width: int, a: Acc): Acc
    requires i + 1 < |s|
  {
    if s[i].y > a.minY then
      Acc(s[i].y,
          a.waste + a.visited * (s[i].y - a.minY),
          a.visited + (s[i + 1].x - if s[i].x < x0 then x0 else s[i].x))
    else
      var under := s[i + 1].x - s[i].x;
      var under' := if under + a.visited > width then width - a.visited else under;
      Acc(a.minY, a.waste + under' * (a.minY - s[i].y), a.visited + under')
  }

  function Scan(s: seq<Seg>, i: nat, x0: int, width: int, a: Acc): Acc
    requires i < |s|
    decreases |s| - i
  {
    if i + 1 < |s| && s[i].x < x0 + width then
      Scan(s, i + 1, x0, width, Visit(s, i, x0, width, a))
    else a
  }

  /** The window [x0, x0 + width) lies in the bin and segment `first` covers its left edge. */
  ghost predicate IsWindow(s: seq<Seg>, binWidth: int, binHeight: int, first: nat, x0: int, width: int) {
    && IsSkyline(s, binWidth, binHeight)
    && first + 1 < |s|
    && s[first].x <= x0 < s[first + 1].x
    && 0 < width && x0 + width <= binWidth
  }

  // ----- the height is the maximum of the skyline over the window

  lemma {:induction false} ScanMinYFrom(s: seq<Seg>, binWidth: int, binHeight: int, first: nat,
      x0: int, width: int, i: nat, a: Acc)
    requires IsWindow(s, binWidth, binHeight, first, x0, width)
    requires first <= i < |s|
    requires a.minY == MaxOver(s, x0, Min(Max(s[i].x, x0), x0 + width))
    ensures Scan(s, i, x0, width, a).minY == MaxOver(s, x0, x0 + width)
    decreases |s| - i
  {
    if i + 1 < |s| && s[i].x < x0 + width {
      MaxOverExtend(s, i, x0, Max(s[i].x, x0), Min(s[i + 1].x, x0 + width));
      ScanMinYFrom(s, binWidth, binHeight, first, x0, width, i + 1, Visit(s, i, x0, width, a));
    }
  }

  lemma ScanMinY(s: seq<Seg>, binWidth: int, binHeight: int, first: nat, x0: int, width: int)
    requires IsWindow(s, binWidth, binHeight, first, x0, width)
    ensures Scan(s, first, x0, width, START).minY == MaxOver(s, x0, x0 + width)
  {
    ScanMinYFrom(s, binWidth, binHeight, first, x0, width, first, START);
  }

  // ----- when the waste is the true waste

  /** How far the accumulated waste is above the area under the current floor of the columns seen so far. */
  function Excess(s: seq<Seg>, i: nat, x0: int, a: Acc): int
    requires i < |s|
  {
    a.waste - (a.minY * a.visited - Area(s, x0, Max(s[i].x, x0)))
  }

  /** In step: the columns counted so far are exactly the columns of the window left of segment i. */
  ghost predicate InStep(s: seq<Seg>, i: nat, x0: int, width: int, a: Acc)
    requires i < |s|
  {
    && Max(s[i].x, x0) <= x0 + width
    && a.visited == Max(s[i].x, x0) - x0
    && a.minY == MaxOver(s, x0, Max(s[i].x, x0))
    && Excess(s, i, x0, a) == 0
  }

  lemma {:induction false} ScanInStep(s: seq<Seg>, binWidth: int, binHeight: int, first: nat,
      x0: int, width: int, i: nat, a: Acc)
    requires IsWindow(s, binWidth, binHeight, first, x0, width)
    requires first <= i < |s| && (s[i].x < x0 ==> s[i].y > a.minY || s[i + 1].x >= x0 + width)
    requires InStep(s, i, x0, width, a)
    ensures Scan(s, i, x0, width, a).waste == Waste(s, MaxOver(s, x0, x0 + width), x0, x0 + width)
    decreases |s| - i
  {
    ScanMinYFrom(s, binWidth, binHeight, first, x0, width, i, a);
    WasteIsBoxLessArea(s, MaxOver(s, x0, x0 + width), x0, x0 + width);
    if i + 1 < |s| && s[i].x < x0 + width {
      var a' := Visit(s, i, x0, width, a);
      var mid, end := Max(s[i].x, x0), Min(s[i + 1].x, x0 + width);
      MaxOverExtend(s, i, x0, mid, end);
      AreaExtend(s, i, x0, mid, end);
      VisitInStep(s, binWidth, binHeight, first, x0, width, i, a);
      if s[i + 1].x < x0 + width {
        ScanInStep(s, binWidth, binHeight, first, x0, width, i + 1, a');
      }
    }
  }

  lemma VisitInStep(s: seq<Seg>, binWidth: int, binHeight: int, first: nat, x0: int, width: int, i: nat, a: Acc)
    requires IsWindow(s, binWidth, binHeight, first, x0, width)
    requires first <= i && i + 1 < |s| && s[i].x < x0 + width
    requires s[i].x < x0 ==> s[i].y > a.minY || s[i + 1].x >= x0 + width
    requires InStep(s, i, x0, width, a)
    ensures var a' := Visit(s, i, x0, width, a);
            var end := Min(s[i + 1].x, x0 + width);
            && a'.minY == MaxOver(s, x0, end)
            && a'.waste == a'.minY * (end - x0) - Area(s, x0, end)
            && (s[i + 1].x <= x0 + width ==> a'.visited == end - x0)
  {
    var a' := Visit(s, i, x0, width, a);
    var mid, end := Max(s[i].x, x0), Min(s[i + 1].x, x0 + width);
    MaxOverExtend(s, i, x0, mid, end);
    AreaExtend(s, i, x0, mid, end);
    if s[i].y > a.minY {
      RaiseFloor(a.minY, s[i].y, a.visited, end - mid, Area(s, x0, mid));
    } else {
      KeepFloor(a.minY, s[i].y, a.visited, end - mid, Area(s, x0, mid));
      if s[i].x < x0 {
        assert a.minY == 0 && s[i].y == 0;
      }
    }
  }

  lemma RaiseFloor(m: int, y: int, visited: int, n: int, area: int)
    ensures m * visited - area + visited * (y - m) == y * (visited + n) - (area + n * y)
  {
  }

  lemma KeepFloor(m: int, y: int, visited: int, n: int, area: int)
    ensures m * visited - area + n * (m - y) == m * (visited + n) - (area + n * y)
  {
  }

  // ----- the drift after a first segment at height 0 that starts left of the window

  /**
    The accumulator after such a segment: the columns between the segment's start and x0 are counted
    as visited although they are outside the window, until the count reaches `width`.
   */
  ghost predicate Drifted(s: seq<Seg>, first: nat, x0: int, width: int, i: nat, a: Acc)
    requires first < |s| && i < |s|
  {
    && s[first].x < x0 < s[i].x < x0 + width
    && a.minY == MaxOver(s, x0, s[i].x)
    && (if s[i].x <= s[first].x + width then a.visited == s[i].x - s[first].x else a.visited >= width)
    && Excess(s, i, x0, a) >= 0
  }

  /**
    No positive height is lost from the count: the window ends in a column of height 0, and each
    higher segment that reaches beyond `s[first].x + width` raises the floor.
   */
  ghost predicate DriftIsHarmless(s: seq<Seg>, first: nat, x0: int, width: int, from: nat)
    requires first < |s|
  {
    && At(s, x0 + width - 1) == 0
    && forall j :: from <= j < |s| - 1 && s[j].x < x0 + width && s[j].y > 0 && s[j + 1].x > s[first].x + width
         ==> s[j].y > MaxOver(s, x0, s[j].x)
  }

  lemma LostColumns(m: int, y: int, visited: int, n: int, counted: int, area: int, waste: int)
    requires 0 <= y && counted <= n
    ensures var before := waste - (m * visited - area);
            var after := waste + counted * (m - y) - (m * (visited + counted) - (area + n * y));
            after >= before && (after == before <==> counted == n || y == 0)
  {
  }

  lemma DriftStep(s: seq<Seg>, binWidth: int, binHeight: int, first: nat, x0: int, width: int, i: nat, a: Acc)
    requires IsWindow(s, binWidth, binHeight, first, x0, width)
    requires first < i && i + 1 < |s| && s[i + 1].x < x0 + width
    requires Drifted(s, first, x0, width, i, a)
    ensures var a' := Visit(s, i, x0, width, a);
            && Drifted(s, first, x0, width, i + 1, a')
            && (Excess(s, i + 1, x0, a') == 0 <==>
                  Excess(s, i, x0, a) == 0
                  && (s[i].y > 0 && s[i + 1].x > s[first].x + width ==> s[i].y > MaxOver(s, x0, s[i].x)))
  {
    var n := s[i + 1].x - s[i].x;
    MaxOverExtend(s, i, x0, s[i].x, s[i + 1].x);
    AreaExtend(s, i, x0, s[i].x, s[i + 1].x);
    if s[i].y > a.minY {
      RaiseExcess(a.minY, s[i].y, a.visited, n, Area(s, x0, s[i].x), a.waste);
    } else {
      var counted := if n + a.visited > width then width - a.visited else n;
      LostColumns(a.minY, s[i].y, a.visited, n, counted, Area(s, x0, s[i].x), a.waste);
    }
  }

  lemma RaiseExcess(m: int, y: int, visited: int, n: int, area: int, waste: int)
    ensures waste + visited * (y - m) - (y * (visited + n) - (area + n * y)) == waste - (m * visited - area)
  {
  }

  lemma DriftEnd(s: seq<Seg>, binWidth: int, binHeight: int, first: nat, x0: int, width: int, i: nat, a: Acc)
    requires IsWindow(s, binWidth, binHeight, first, x0, width)
    requires first < i && i + 1 < |s| && s[i + 1].x >= x0 + width
    requires Drifted(s, first, x0, width, i, a)
    ensures var a' := Visit(s, i, x0, width, a);
            var excess := a'.waste - Waste(s, MaxOver(s, x0, x0 + width), x0, x0 + width);
            && excess >= 0
            && (excess == 0 <==> Excess(s, i, x0, a) == 0 && s[i].y == 0)
  {
    var n := x0 + width - s[i].x;
    MaxOverExtend(s, i, x0, s[i].x, x0 + width);
    AreaExtend(s, i, x0, s[i].x, x0 + width);
    WasteIsBoxLessArea(s, MaxOver(s, x0, x0 + width), x0, x0 + width);
    if s[i].y > a.minY {
      RaisePastEnd(a.minY, s[i].y, a.visited, n, Area(s, x0, s[i].x), a.waste, width);
    } else {
      LostColumns(a.minY, s[i].y, a.visited, n, width - a.visited, Area(s, x0, s[i].x), a.waste);
    }
  }

  lemma RaisePastEnd(m: int, y: int, visited: int, n: int, area: int, waste: int, width: int)
    requires visited + n > width && y > 0
    ensures waste + visited * (y - m) - (y * width - (area + n * y)) > waste - (m * visited - area)
  {
  }

  lemma {:induction false} DriftedScan(s: seq<Seg>, binWidth: int, binHeight: int, first: nat,
      x0: int, width: int, i: nat, a: Acc)
    requires IsWindow(s, binWidth, binHeight, first, x0, width)
    requires first < i && i + 1 < |s|
    requires Drifted(s, first, x0, width, i, a)
    ensures var excess := Scan(s, i, x0, width, a).waste - Waste(s, MaxOver(s, x0, x0 + width), x0, x0 + width);
            && excess >= 0
            && (excess == 0 <==> Excess(s, i, x0, a) == 0 && DriftIsHarmless(s, first, x0, width, i))
    decreases |s| - i
  {
    if s[i + 1].x < x0 + width {
      DriftStep(s, binWidth, binHeight, first, x0, width, i, a);
      DriftedScan(s, binWidth, binHeight, first, x0, width, i + 1, Visit(s, i, x0, width, a));
    } else {
      DriftEnd(s, binWidth, binHeight, first, x0, width, i, a);
      AtSegment(s, i, x0 + width - 1);
    }
  }

  /** What the caller can check on the skyline before the call. */
  ghost predicate ScanIsFaithful(s: seq<Seg>, first: nat, x0: int, width: int)
    requires first < |s|
  {
    s[first].x == x0 || s[first].y > 0 || DriftIsHarmless(s, first, x0, width, first)
  }

  /** The scan never underestimates the waste, and it is exact precisely when it is faithful. */
  lemma ScanWasteExactIff(s: seq<Seg>, binWidth: int, binHeight: int, first: nat, x0: int, width: int)
    requires IsWindow(s, binWidth, binHeight, first, x0, width)
    ensures var waste := Scan(s, first, x0, width, START).waste;
            var exact := Waste(s, MaxOver(s, x0, x0 + width), x0, x0 + width);
            && exact <= waste
            && (waste == exact <==> ScanIsFaithful(s, first, x0, width))
  {
    if s[first].x == x0 || s[first].y > 0 {
      ScanInStep(s, binWidth, binHeight, first, x0, width, first, START);
    } else if s[first + 1].x >= x0 + width {
      ScanInStep(s, binWidth, binHeight, first, x0, width, first, START);
      AtSegment(s, first, x0 + width - 1);
    } else {
      MaxOverExtend(s, first, x0, x0, s[first + 1].x);
      AreaExtend(s, first, x0, x0, s[first + 1].x);
      DriftedScan(s, binWidth, binHeight, first, x0, width, first + 1, Visit(s, first, x0, width, START));
    }
  }

  // ----- machine arithmetic

  ghost predicate Int32(v: int) { -0x8000_0000 <= v <= 0x7fff_ffff }

  /** Every value that one iteration computes is a signed 32-bit number, and the waste is less than 1 << 30. */
  ghost predicate VisitFits(s: seq<Seg>, i: nat, x0: int, width: int, a: Acc)
    requires i + 1 < |s|
  {
    var a' := Visit(s, i, x0, width, a);
    && (if s[i].y > a.minY then Int32(a.visited * (s[i].y - a.minY))
        else && Int32(s[i + 1].x - s[i].x + a.visited)
             && Int32(width - a.visited)
             && Int32((a'.visited - a.visited) * (a.minY - s[i].y)))
    && 0 <= a'.waste < 0x4000_0000
    && Int32(a'.visited)
  }

  /** `VisitFits` holds in every iteration from segment i on. */
  ghost predicate ScanFits(s: seq<Seg>, i: nat, x0: int, width: int, a: Acc)
    requires i < |s|
    decreases |s| - i
  {
    i + 1 < |s| && s[i].x < x0 + width ==>
      VisitFits(s, i, x0, width, a) && ScanFits(s, i + 1, x0, width, Visit(s, i, x0, width, a))
  }

  lemma WasteNonNegative(s: seq<Seg>, binWidth: int, binHeight: int, first: nat, x0: int, width: int, i: nat, a: Acc)
    requires IsWindow(s, binWidth, binHeight, first, x0, width)
    requires first < i < |s| && s[i].x < x0 + width
    requires InStep(s, i, x0, width, a) || Drifted(s, first, x0, width, i, a)
    ensures 0 <= a.waste
  {
    var seen := s[i].x - x0;
    MaxOverIsMax(s, x0, s[i].x);
    forall x | x0 <= x < s[i].x ensures 0 <= At(s, x) <= a.minY {
      AtBounds(s, binWidth, binHeight, x);
    }
    AreaBounds(s, x0, s[i].x, 0, a.minY);
    CoveredColumns(a.minY, a.visited, seen, Area(s, x0, s[i].x));
  }

  lemma CoveredColumns(m: int, visited: int, seen: int, area: int)
    requires 0 <= m && seen <= visited && area <= m * seen
    ensures 0 <= m * visited - area
  {
  }

  lemma WindowWasteNonNegative(s: seq<Seg>, binWidth: int, binHeight: int, first: nat, x0: int, width: int)
    requires IsWindow(s, binWidth, binHeight, first, x0, width)
    ensures 0 <= Waste(s, MaxOver(s, x0, x0 + width), x0, x0 + width)
  {
    var m := MaxOver(s, x0, x0 + width);
    MaxOverIsMax(s, x0, x0 + width);
    forall x | x0 <= x < x0 + width ensures 0 <= At(s, x) <= m {
      AtBounds(s, binWidth, binHeight, x);
    }
    AreaBounds(s, x0, x0 + width, 0, m);
    WasteIsBoxLessArea(s, m, x0, x0 + width);
  }

  /** One step keeps the count and the waste within the columns passed and the floor reached. */
  lemma VisitBounds(s: seq<Seg>, binWidth: int, binHeight: int, first: nat, x0: int, width: int, i: nat, a: Acc)
    requires IsWindow(s, binWidth, binHeight, first, x0, width)
    requires first <= i && i + 1 < |s| && s[i].x < x0 + width
    requires i > first ==> x0 < s[i].x
    requires 0 <= a.minY <= binHeight && 0 <= a.visited <= s[i].x - s[first].x
    requires a.waste <= a.minY * (s[i].x - s[first].x)
    ensures var a' := Visit(s, i, x0, width, a);
            && 0 <= a'.minY <= binHeight && 0 <= a'.visited <= s[i + 1].x - s[first].x
            && a'.waste <= a'.minY * (s[i + 1].x - s[first].x)
  {
    var c, n := s[i].x - s[first].x, s[i + 1].x - s[i].x;
    if s[i].y > a.minY {
      RaiseBound(a.minY, s[i].y, a.visited, c, n, a.waste);
    } else {
      var counted := if n + a.visited > width then width - a.visited else n;
      KeepBound(a.minY, s[i].y, counted, c, n, a.waste);
    }
  }

  lemma RaiseBound(m: int, y: int, visited: int, c: int, n: int, waste: int)
    requires 0 <= m < y && 0 <= visited <= c && 0 <= n && waste <= m * c
    ensures waste + visited * (y - m) <= y * (c + n)
  {
  }

  lemma KeepBound(m: int, y: int, counted: int, c: int, n: int, waste: int)
    requires 0 <= y <= m && counted <= n && 0 <= n && waste <= m * c
    ensures waste + counted * (m - y) <= m * (c + n)
  {
  }

  lemma Product(v: int, f: int, cols: int, floor: int)
    requires -cols <= v <= cols && 0 <= f <= floor
    ensures -(cols * floor) <= v * f <= cols * floor
  {
  }

  lemma WasteFits(waste: int, minY: int, cols: int, binWidth: int, binHeight: int)
    requires waste <= minY * cols && 0 <= cols <= binWidth && 0 <= minY <= binHeight
    ensures waste <= binWidth * binHeight
  {
  }

  /** What the induction over the scan keeps. */
  ghost predicate Tracked(s: seq<Seg>, binHeight: int, first: nat, x0: int, width: int, i: nat, a: Acc)
    requires first <= i < |s|
  {
    && 0 <= a.minY <= binHeight && 0 <= a.visited <= s[i].x - s[first].x
    && a.waste <= a.minY * (s[i].x - s[first].x)
    && if i == first then a == START
       else && s[i].x > x0
            && (s[i].x < x0 + width ==> InStep(s, i, x0, width, a) || Drifted(s, first, x0, width, i, a))
  }

  lemma VisitStepFits(s: seq<Seg>, binWidth: int, binHeight: int, first: nat, x0: int, width: int, i: nat, a: Acc)
    requires IsWindow(s, binWidth, binHeight, first, x0, width)
    requires binWidth < 0x4000_0000 && binWidth * binHeight < 0x4000_0000
    requires first <= i && i + 1 < |s| && s[i].x < x0 + width
    requires 0 <= a.minY <= binHeight && 0 <= a.visited <= s[i].x - s[first].x
    requires i > first ==> x0 < s[i].x
    requires 0 <= Visit(s, i, x0, width, a).waste < 0x4000_0000
    ensures VisitFits(s, i, x0, width, a)
  {
    var a' := Visit(s, i, x0, width, a);
    assert 0 <= s[first].x && s[i + 1].x <= binWidth;
    if s[i].y > a.minY {
      Product(a.visited, s[i].y - a.minY, binWidth, binHeight);
    } else {
      Product(a'.visited - a.visited, a.minY - s[i].y, binWidth, binHeight);
    }
  }

  lemma TrackedStep(s: seq<Seg>, binWidth: int, binHeight: int, first: nat, x0: int, width: int, i: nat, a: Acc)
    requires IsWindow(s, binWidth, binHeight, first, x0, width)
    requires first <= i && i + 1 < |s| && s[i].x < x0 + width
    requires Tracked(s, binHeight, first, x0, width, i, a)
    ensures var a' := Visit(s, i, x0, width, a);
            && Tracked(s, binHeight, first, x0, width, i + 1, a')
            && 0 <= a'.waste <= binWidth * binHeight
  {
    var a' := Visit(s, i, x0, width, a);
    VisitBounds(s, binWidth, binHeight, first, x0, width, i, a);
    VisitTracked(s, binWidth, binHeight, first, x0, width, i, a);
    WasteFits(a'.waste, a'.minY, s[i + 1].x - s[first].x, binWidth, binHeight);
  }

  lemma {:induction false} ScanFitsFrom(s: seq<Seg>, binWidth: int, binHeight: int, first: nat,
      x0: int, width: int, i: nat, a: Acc)
    requires IsWindow(s, binWidth, binHeight, first, x0, width)
    requires binWidth < 0x4000_0000 && binWidth * binHeight < 0x4000_0000
    requires first <= i < |s| && Tracked(s, binHeight, first, x0, width, i, a)
    ensures ScanFits(s, i, x0, width, a)
    decreases |s| - i
  {
    if i + 1 < |s| && s[i].x < x0 + width {
      TrackedStep(s, binWidth, binHeight, first, x0, width, i, a);
      VisitStepFits(s, binWidth, binHeight, first, x0, width, i, a);
      ScanFitsFrom(s, binWidth, binHeight, first, x0, width, i + 1, Visit(s, i, x0, width, a));
    }
  }

  lemma VisitTracked(s: seq<Seg>, binWidth: int, binHeight: int, first: nat, x0: int, width: int, i: nat, a: Acc)
    requires IsWindow(s, binWidth, binHeight, first, x0, width)
    requires first <= i && i + 1 < |s| && s[i].x < x0 + width
    requires i == first ==> a == START
    requires i > first ==> s[i].x > x0 && (InStep(s, i, x0, width, a) || Drifted(s, first, x0, width, i, a))
    ensures var a' := Visit(s, i, x0, width, a);
            && 0 <= a'.waste
            && (s[i + 1].x < x0 + width ==> InStep(s, i + 1, x0, width, a') || Drifted(s, first, x0, width, i + 1, a'))
  {
    var a' := Visit(s, i, x0, width, a);
    if i == first && s[i].x < x0 && s[i].y == 0 && s[i + 1].x < x0 + width {
      MaxOverExtend(s, i, x0, x0, s[i + 1].x);
      AreaExtend(s, i, x0, x0, s[i + 1].x);
      assert Drifted(s, first, x0, width, i + 1, a');
    } else if i == first || InStep(s, i, x0, width, a) {
      VisitInStep(s, binWidth, binHeight, first, x0, width, i, a);
      WindowWasteNonNegative(s, binWidth, binHeight, first, x0, width);
      WasteIsBoxLessArea(s, MaxOver(s, x0, x0 + width), x0, x0 + width);
    } else if s[i + 1].x < x0 + width {
      DriftStep(s, binWidth, binHeight, first, x0, width, i, a);
    } else {
      DriftEnd(s, binWidth, binHeight, first, x0, width, i, a);
      WindowWasteNonNegative(s, binWidth, binHeight, first, x0, width);
    }
    if s[i + 1].x < x0 + width {
      WasteNonNegative(s, binWidth, binHeight, first, x0, width, i + 1, a');
    }
  }

  /** In a bin of less than 1 << 30 unit squares the scan cannot overflow, from any left edge. */
  lemma ScanCannotOverflow(s: seq<Seg>, binWidth: int, binHeight: int, first: nat, x0: int, width: int)
    requires IsWindow(s, binWidth, binHeight, first, x0, width)
    requires binWidth < 0x4000_0000 && 0 <= binHeight && binWidth * binHeight < 0x4000_0000
    ensures ScanFits(s, first, x0, width, START)
  {
    ScanFitsFrom(s, binWidth, binHeight, first, x0, width, first, START);
  }

  /** A skyline on which the scan from column 2 reports more waste than there is. */
  lemma ScanWasteCanBeTooHigh()
    ensures var s := [Seg(0, 0), Seg(3, 1), Seg(7, 9), Seg(10, SENTINEL_Y)];
            && IsWindow(s, 10, 20, 0, 2, 5)
            && Scan(s, 0, 2, 5, START).waste == 3
            && Waste(s, MaxOver(s, 2, 7), 2, 7) == 1
  {
    var s := [Seg(0, 0), Seg(3, 1), Seg(7, 9), Seg(10, SENTINEL_Y)];
    assert Visit(s, 0, 2, 5, START) == Acc(0, 0, 3);
    assert Visit(s, 1, 2, 5, Acc(0, 0, 3)) == Acc(1, 3, 7);
    assert Scan(s, 2, 2, 5, Acc(1, 3, 7)) == Acc(1, 3, 7);
    assert Scan(s, 1, 2, 5, Acc(0, 0, 3)) == Acc(1, 3, 7);
    MaxOverExtend(s, 0, 2, 2, 3);
    MaxOverExtend(s, 1, 2, 3, 7);
    AreaExtend(s, 0, 2, 2, 3);
    AreaExtend(s, 1, 2, 3, 7);
    WasteIsBoxLessArea(s, 1, 2, 7);
  }
}
