/**
  What placing a box does to the skyline: the new segment replaces the segments it covers, and the
  last covered one is trimmed (stbrp__skyline_pack_rectangle).
 */
module Splice {
  import opened Skyline

  /** Index of the first segment from k on whose successor starts right of `right`. */
  function Cut(s: seq<Seg>, k: nat, right: int): (r: nat)
    requires k < |s|
    ensures k <= r < |s|
    ensures r + 1 < |s| ==> right < s[r + 1].x
    ensures forall j :: k < j <= r ==> s[j].x <= right
    decreases |s| - k
  {
    if k + 1 < |s| && s[k + 1].x <= right then Cut(s, k + 1, right) else k
  }

  /** The number of segments left of the new one: segment p stays if it starts left of x. */
  function Kept(s: seq<Seg>, p: nat, x: int): nat
    requires p < |s|
  {
    if s[p].x < x then p + 1 else p
  }

  /** The skyline after a box of width w is put at x, over segment p, with its top at y. */
  function Put(s: seq<Seg>, p: nat, x: int, y: int, w: int): seq<Seg>
    requires p + 1 < |s|
  {
    var q := Kept(s, p, x);
    var k := Cut(s, q, x + w);
    s[..q] + [Seg(x, y), Seg(Max(s[k].x, x + w), s[k].y)] + s[k + 1..]
  }

  /** The columns that get the new height end here. */
  function RaisedTo(s: seq<Seg>, p: nat, x: int, w: int): int
    requires p + 1 < |s|
  {
    if s[p].x < x then Max(s[p + 1].x, x + w) else x + w
  }

  ghost predicate CanPut(s: seq<Seg>, binWidth: int, binHeight: int, p: nat, x: int, y: int, w: int) {
    && IsSkyline(s, binWidth, binHeight)
    && p + 1 < |s| && s[p].x <= x < s[p + 1].x
    && w >= 1 && x + w <= binWidth
    && 0 <= y <= binHeight
  }

  lemma CutBounds(s: seq<Seg>, binWidth: int, binHeight: int, p: nat, x: int, y: int, w: int)
    requires CanPut(s, binWidth, binHeight, p, x, y, w)
    ensures var q := Kept(s, p, x);
            var k := Cut(s, q, x + w);
            && (k == |s| - 1 ==> RaisedTo(s, p, x, w) == binWidth)
            && Max(s[k].x, x + w) == RaisedTo(s, p, x, w)
            && x < RaisedTo(s, p, x, w) <= binWidth
            && (k + 1 < |s| ==> RaisedTo(s, p, x, w) < s[k + 1].x)
  {
  }

  /** The skyline invariant survives: start at 0, strictly increasing, sentinel untouched, heights in the bin. */
  lemma PutKeepsSkyline(s: seq<Seg>, binWidth: int, binHeight: int, p: nat, x: int, y: int, w: int)
    requires CanPut(s, binWidth, binHeight, p, x, y, w)
    ensures IsSkyline(Put(s, p, x, y, w), binWidth, binHeight)
  {
    hide Cut;
    var q := Kept(s, p, x);
    var k := Cut(s, q, x + w);
    CutBounds(s, binWidth, binHeight, p, x, y, w);
    var t := Put(s, p, x, y, w);
    assert |t| == q + 2 + |s| - k - 1;
    forall i | 0 <= i < |t| - 1 ensures t[i].x < t[i + 1].x && 0 <= t[i].y <= binHeight {
      if i < q {
        assert t[i] == s[i];
      } else if i >= q + 2 {
        assert t[i] == s[i - q - 1 + k] && t[i + 1] == s[i - q + k];
      }
    }
    StepwiseIncreasing(t);
    if k + 1 < |s| {
      assert t[|t| - 1] == s[|s| - 1];
    }
  }

  lemma {:induction false} StepwiseIncreasing(s: seq<Seg>)
    requires forall i :: 0 <= i < |s| - 1 ==> s[i].x < s[i + 1].x
    ensures Increasing(s)
    decreases |s|
  {
    if |s| > 1 {
      var t := s[..|s| - 1];
      StepwiseIncreasing(t);
      forall i, j | 0 <= i < j < |s| ensures s[i].x < s[j].x {
        if j == |s| - 1 && i < j - 1 {
          assert t[i].x < t[j - 1].x;
        } else if j < |s| - 1 {
          assert t[i].x < t[j].x;
        }
      }
    }
  }

  /** The heights afterwards: y over the raised columns, unchanged elsewhere. */
  lemma PutHeights(s: seq<Seg>, binWidth: int, binHeight: int, p: nat, x: int, y: int, w: int, c: int)
    requires CanPut(s, binWidth, binHeight, p, x, y, w) && 0 <= c < binWidth
    ensures At(Put(s, p, x, y, w), c) == if x <= c < RaisedTo(s, p, x, w) then y else At(s, c)
  {
    hide Cut, SegmentOf;
    var q := Kept(s, p, x);
    var k := Cut(s, q, x + w);
    var t := Put(s, p, x, y, w);
    var i := SegmentOf(s, c);
    CutBounds(s, binWidth, binHeight, p, x, y, w);
    PutKeepsSkyline(s, binWidth, binHeight, p, x, y, w);
    AtSegment(s, i, c);
    if c < x {
      assert i < q;
      assert t[i] == s[i] && (i + 1 < q ==> t[i + 1] == s[i + 1]);
      AtSegment(t, i, c);
    } else if c < RaisedTo(s, p, x, w) {
      AtSegment(t, q, c);
    } else {
      assert k + 1 < |s|;
      assert i >= k;
      if i == k {
        AtSegment(t, q + 1, c);
      } else {
        assert t[i - k + q + 1] == s[i];
        if i + 1 < |s| {
          assert t[i - k + q + 2] == s[i + 1];
        }
        AtSegment(t, i - k + q + 1, c);
      }
    }
  }

  /**
    Exactly the columns of the box are raised if and only if the box starts with segment p or reaches
    the next segment.
   */
  ghost predicate Snug(s: seq<Seg>, p: nat, x: int, w: int)
    requires p + 1 < |s|
  {
    s[p].x == x || s[p + 1].x <= x + w
  }

  ghost predicate RaisesOnlyTheBox(s: seq<Seg>, binWidth: int, p: nat, x: int, y: int, w: int)
    requires p + 1 < |s|
  {
    var t := Put(s, p, x, y, w);
    forall c :: 0 <= c < binWidth ==> At(t, c) == if x <= c < x + w then y else At(s, c)
  }

  lemma PutIsExactIff(s: seq<Seg>, binWidth: int, binHeight: int, p: nat, x: int, y: int, w: int)
    requires CanPut(s, binWidth, binHeight, p, x, y, w) && s[p].y < y
    ensures RaisesOnlyTheBox(s, binWidth, p, x, y, w) <==> Snug(s, p, x, w)
  {
    var t := Put(s, p, x, y, w);
    CutBounds(s, binWidth, binHeight, p, x, y, w);
    forall c | 0 <= c < binWidth
      ensures At(t, c) == if x <= c < RaisedTo(s, p, x, w) then y else At(s, c)
    {
      PutHeights(s, binWidth, binHeight, p, x, y, w, c);
    }
    if !Snug(s, p, x, w) {
      AtSegment(s, p, x + w);
      assert At(t, x + w) == y;
    }
  }

  /** A box whose top is no lower than the old skyline never lowers a column. */
  lemma PutNeverLowers(s: seq<Seg>, binWidth: int, binHeight: int, p: nat, x: int, y: int, w: int, c: int)
    requires CanPut(s, binWidth, binHeight, p, x, y, w) && 0 <= c < binWidth
    requires forall d :: x <= d < x + w ==> At(s, d) <= y
    ensures At(s, c) <= At(Put(s, p, x, y, w), c)
    ensures x <= c < x + w ==> At(Put(s, p, x, y, w), c) == y
  {
    PutHeights(s, binWidth, binHeight, p, x, y, w, c);
    CutBounds(s, binWidth, binHeight, p, x, y, w);
    if x + w <= c < RaisedTo(s, p, x, w) {
      AtSegment(s, p, c);
      AtSegment(s, p, x);
    }
  }

  // ----- area

  /** The area grows by what lies between the old skyline and the top, over the raised columns. */
  lemma PutArea(s: seq<Seg>, binWidth: int, binHeight: int, p: nat, x: int, y: int, w: int)
    requires CanPut(s, binWidth, binHeight, p, x, y, w)
    ensures Area(Put(s, p, x, y, w), 0, binWidth)
            == Area(s, 0, binWidth) + Waste(s, y, x, RaisedTo(s, p, x, w))
  {
    var t, r := Put(s, p, x, y, w), RaisedTo(s, p, x, w);
    CutBounds(s, binWidth, binHeight, p, x, y, w);
    forall c | 0 <= c < binWidth ensures At(t, c) == if x <= c < r then y else At(s, c) {
      PutHeights(s, binWidth, binHeight, p, x, y, w, c);
    }
    assert 0 <= s[p].x;
    AreaSplit(s, 0, x, binWidth);
    AreaSplit(s, x, r, binWidth);
    AreaSplit(t, 0, x, binWidth);
    AreaSplit(t, x, r, binWidth);
    AreaCongruence(s, t, 0, x);
    AreaCongruence(s, t, r, binWidth);
    AreaBounds(t, x, r, y, y);
    WasteIsBoxLessArea(s, y, x, r);
  }

  /** Raising a floor by h adds h to every column of the waste. */
  lemma WasteOfRaisedFloor(s: seq<Seg>, y: int, h: int, lo: int, hi: int)
    requires s != [] && lo <= hi
    ensures Waste(s, y + h, lo, hi) == Waste(s, y, lo, hi) + (hi - lo) * h
  {
    WasteIsBoxLessArea(s, y, lo, hi);
    WasteIsBoxLessArea(s, y + h, lo, hi);
    assert (y + h) * (hi - lo) == y * (hi - lo) + (hi - lo) * h;
  }
}
