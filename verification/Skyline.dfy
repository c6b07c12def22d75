/**
  The skyline of a partly filled bin: a sequence of segments, each saying where it starts and how
  high the occupied area reaches, closed by a sentinel that starts at the right edge of the bin.

  A skyline denotes a height for every integer column. `At`, `MaxOver` and `Area` are the reference
  definitions on columns against which the search and the splice are proved.
 */
module Skyline {

  datatype Seg = Seg(x: int, y: int)

  // Height stored in the sentinel, and start value of the search for the lowest position.
  const SENTINEL_Y: int := 0x4000_0000

  function Max(a: int, b: int): int { if a < b then b else a }
  function Min(a: int, b: int): int { if a < b then a else b }

  ghost predicate Increasing(s: seq<Seg>) {
    forall i, j :: 0 <= i < j < |s| ==> s[i].x < s[j].x
  }

  ghost predicate IsSkyline(s: seq<Seg>, width: int, height: int) {
    && |s| >= 2
    && s[0].x == 0
    && s[|s| - 1] == Seg(width, SENTINEL_Y)
    && Increasing(s)
    && forall i :: 0 <= i < |s| - 1 ==> 0 <= s[i].y <= height
  }

  /** Height of column x: the height of the last segment that starts at or left of x. */
  function At(s: seq<Seg>, x: int): int
    requires s != []
  {
    if |s| == 1 || x < s[1].x then s[0].y else At(s[1..], x)
  }

  /** Greatest height among the columns lo, ..., hi - 1, and 0 when there are none. */
  function MaxOver(s: seq<Seg>, lo: int, hi: int): (m: int)
    requires s != []
    ensures m >= 0
    decreases hi - lo
  {
    if hi <= lo then 0
    else
      var m := MaxOver(s, lo, hi - 1);
      if At(s, hi - 1) > m then At(s, hi - 1) else m
  }

  /** Sum of the heights of the columns lo, ..., hi - 1. */
  function Area(s: seq<Seg>, lo: int, hi: int): int
    requires s != []
    decreases hi - lo
  {
    if hi <= lo then 0 else Area(s, lo, hi - 1) + At(s, hi - 1)
  }

  /** What a floor at height y over the columns lo, ..., hi - 1 leaves unused above the skyline. */
  function Waste(s: seq<Seg>, y: int, lo: int, hi: int): int
    requires s != []
    decreases hi - lo
  {
    if hi <= lo then 0 else Waste(s, y, lo, hi - 1) + (y - At(s, hi - 1))
  }

  // ----- heights and segments

  lemma {:induction false} AtSegment(s: seq<Seg>, i: nat, x: int)
    requires i < |s| && Increasing(s)
    requires s[i].x <= x && (i + 1 < |s| ==> x < s[i + 1].x)
    ensures At(s, x) == s[i].y
  {
    if i > 0 {
      assert s[0].x < s[1].x <= s[i].x;
      AtSegment(s[1..], i - 1, x);
    }
  }

  /** The index of the segment that covers column x. */
  function SegmentOf(s: seq<Seg>, x: int): (i: nat)
    requires s != [] && s[0].x <= x
    ensures i < |s| && s[i].x <= x && (i + 1 < |s| ==> x < s[i + 1].x)
  {
    if |s| == 1 || x < s[1].x then 0 else 1 + SegmentOf(s[1..], x)
  }

  lemma SegmentOfUnique(s: seq<Seg>, x: int, i: nat)
    requires s != [] && s[0].x <= x && Increasing(s)
    requires i < |s| && s[i].x <= x && (i + 1 < |s| ==> x < s[i + 1].x)
    ensures SegmentOf(s, x) == i
  {
  }

  lemma AtBounds(s: seq<Seg>, width: int, height: int, x: int)
    requires IsSkyline(s, width, height) && 0 <= x < width
    ensures 0 <= At(s, x) <= height
  {
    var i := SegmentOf(s, x);
    AtSegment(s, i, x);
  }

  // ----- MaxOver is a maximum

  lemma {:induction false} MaxOverIsMax(s: seq<Seg>, lo: int, hi: int)
    requires s != []
    ensures forall x :: lo <= x < hi ==> At(s, x) <= MaxOver(s, lo, hi)
    ensures MaxOver(s, lo, hi) != 0 ==> exists x :: lo <= x < hi && At(s, x) == MaxOver(s, lo, hi)
    decreases hi - lo
  {
    if lo < hi {
      MaxOverIsMax(s, lo, hi - 1);
      var m := MaxOver(s, lo, hi - 1);
      if At(s, hi - 1) <= m && m > 0 {
        var x :| lo <= x < hi - 1 && At(s, x) == m;
        assert At(s, x) == MaxOver(s, lo, hi);
      }
    }
  }

  lemma MaxOverAtMost(s: seq<Seg>, lo: int, hi: int, m: int)
    requires s != [] && m >= 0
    requires forall x :: lo <= x < hi ==> At(s, x) <= m
    ensures MaxOver(s, lo, hi) <= m
  {
    MaxOverIsMax(s, lo, hi);
  }

  lemma MaxOverBounds(s: seq<Seg>, width: int, height: int, lo: int, hi: int)
    requires IsSkyline(s, width, height) && 0 <= lo && hi <= width && 0 <= height
    ensures 0 <= MaxOver(s, lo, hi) <= height
  {
    MaxOverIsMax(s, lo, hi);
    forall x | lo <= x < hi ensures 0 <= At(s, x) <= height {
      AtBounds(s, width, height, x);
    }
  }

  // ----- whole segments at once

  lemma {:induction false} MaxOverExtend(s: seq<Seg>, i: nat, lo: int, mid: int, hi: int)
    requires i < |s| && Increasing(s)
    requires s[i].x <= mid < hi && (i + 1 < |s| ==> hi <= s[i + 1].x) && lo <= mid
    ensures MaxOver(s, lo, hi) == if s[i].y > MaxOver(s, lo, mid) then s[i].y else MaxOver(s, lo, mid)
    decreases hi - mid
  {
    AtSegment(s, i, hi - 1);
    if mid < hi - 1 {
      MaxOverExtend(s, i, lo, mid, hi - 1);
    }
  }

  lemma {:induction false} AreaExtend(s: seq<Seg>, i: nat, lo: int, mid: int, hi: int)
    requires i < |s| && Increasing(s)
    requires s[i].x <= mid <= hi && (i + 1 < |s| ==> hi <= s[i + 1].x) && lo <= mid
    ensures Area(s, lo, hi) == Area(s, lo, mid) + (hi - mid) * s[i].y
    decreases hi - mid
  {
    if mid < hi {
      AtSegment(s, i, hi - 1);
      AreaExtend(s, i, lo, mid, hi - 1);
      assert (hi - mid) * s[i].y == (hi - 1 - mid) * s[i].y + s[i].y;
    }
  }

  lemma {:induction false} AreaSplit(s: seq<Seg>, lo: int, mid: int, hi: int)
    requires s != [] && lo <= mid <= hi
    ensures Area(s, lo, hi) == Area(s, lo, mid) + Area(s, mid, hi)
    decreases hi - mid
  {
    if mid < hi {
      AreaSplit(s, lo, mid, hi - 1);
    }
  }

  lemma {:induction false} WasteIsBoxLessArea(s: seq<Seg>, y: int, lo: int, hi: int)
    requires s != [] && lo <= hi
    ensures Waste(s, y, lo, hi) == y * (hi - lo) - Area(s, lo, hi)
    decreases hi - lo
  {
    if lo < hi {
      WasteIsBoxLessArea(s, y, lo, hi - 1);
      assert y * (hi - lo) == y * (hi - 1 - lo) + y;
    }
  }

  /** Two skylines with the same columns have the same area. */
  lemma {:induction false} AreaCongruence(s: seq<Seg>, t: seq<Seg>, lo: int, hi: int)
    requires s != [] && t != []
    requires forall x :: lo <= x < hi ==> At(s, x) == At(t, x)
    ensures Area(s, lo, hi) == Area(t, lo, hi)
    decreases hi - lo
  {
    if lo < hi {
      AreaCongruence(s, t, lo, hi - 1);
    }
  }

  lemma {:induction false} AreaBounds(s: seq<Seg>, lo: int, hi: int, bottom: int, top: int)
    requires s != [] && lo <= hi
    requires forall x :: lo <= x < hi ==> bottom <= At(s, x) <= top
    ensures bottom * (hi - lo) <= Area(s, lo, hi) <= top * (hi - lo)
    decreases hi - lo
  {
    if lo < hi {
      AreaBounds(s, lo, hi - 1, bottom, top);
      assert top * (hi - lo) == top * (hi - 1 - lo) + top;
      assert bottom * (hi - lo) == bottom * (hi - 1 - lo) + bottom;
    }
  }
}
