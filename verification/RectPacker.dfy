/**
  The packer itself: nodes linked into an active list (the skyline) and a free list, changed in place.

  The ghost fields name the two lists and the skyline they denote, and record the calls made since
  the packer was initialized; `Valid` says that they are a run of the state machine in PackerRuns.
 */
module RectPacker {
  import opened Skyline
  import opened FloorScan
  import opened Search
  import opened Splice
  import opened PackerRuns

  class Node {
    var x: int
    var y: int
    var next: Node?

    constructor ()
      ensures next == null
    {
      x, y, next := 0, 0, null;
    }
  }

  // A place that holds a pointer to a node: the head of the active list or a node's `next`.
  datatype Link = NoLink | HeadLink | NextOf(node: Node)

  datatype FindResult = FindResult(x: int, y: int, prevLink: Link)

  ghost predicate Linked(q: seq<Node>, head: Node?)
    reads q
  {
    && head == (if q == [] then null else q[0])
    && forall i {:trigger q[i].next} :: 0 <= i < |q| ==> q[i].next == if i + 1 < |q| then q[i + 1] else null
  }

  function Answer(fr: FindResult): Outcome {
    if fr.prevLink == NoLink then Rejected else Packed(fr.x, fr.y)
  }

  /** The nodes show these segments. */
  ghost predicate Shows(q: seq<Node>, s: seq<Seg>)
    reads q
  {
    |q| == |s| && forall i :: 0 <= i < |q| ==> q[i].x == s[i].x && q[i].y == s[i].y
  }

  ghost predicate NoDuplicates(q: seq<Node>) {
    forall i, j :: 0 <= i < j < |q| ==> q[i] != q[j]
  }

  ghost predicate NoneShared(a: seq<Node>, b: seq<Node>) {
    forall i, j :: 0 <= i < |a| && 0 <= j < |b| ==> a[i] != b[j]
  }

  class Context {
    var width: int
    var height: int
    var align: int
    var bestFit: bool
    var numNodes: int
    var activeHead: Node?
    var freeHead: Node?
    const extra0: Node
    const extra1: Node

    ghost var active: seq<Node>
    ghost var free: seq<Node>
    ghost var pool: set<Node>
    ghost var sky: seq<Seg>
    ghost var events: seq<Event>
    ghost var outcomes: seq<Outcome>

    constructor ()
      ensures fresh(extra0) && fresh(extra1) && extra0 != extra1
    {
      extra0 := new Node();
      extra1 := new Node();
      width, height, align, bestFit, numNodes := 0, 0, 0, false, 0;
      activeHead, freeHead := null, null;
    }

    /**
      Both lists are acyclic and end in null, no node is on a list twice or on both, together they hold
      the nodes of the pool, and the active list shows the skyline and ends in the sentinel node.
     */
    ghost predicate Shape()
      reads this, pool
    {
      && |active| >= 2 && |active| + |free| == numNodes + 2
      && Holds(pool, active, free)
      && Linked(active, activeHead) && Linked(free, freeHead)
      && Separate(active, free)
      && active[|active| - 1] == extra1
      && Shows(active, sky)
    }

    ghost function Abstract(): State
      reads this
    {
      State(width, height, numNodes, align, bestFit, sky)
    }

    ghost predicate Valid()
      reads this, pool
    {
      Shape() && WellFormed(Abstract()) && History(Abstract(), events, outcomes)
    }

    /** The link that points at active[p]. */
    ghost predicate LinkTo(link: Link, p: nat)
      reads this
    {
      p < |active| && link == if p == 0 then HeadLink else NextOf(active[p - 1])
    }

    function Deref(link: Link): Node?
      reads this, if link.NextOf? then {link.node} else {}
    {
      match link
      case NoLink => null
      case HeadLink => activeHead
      case NextOf(n) => n.next
    }

    lemma NodeAt(i: nat)
      requires Shape()
      ensures |active| == |sky| >= 2 && activeHead == active[0]
      ensures i < |active| ==>
                && active[i].x == sky[i].x && active[i].y == sky[i].y
                && active[i].next == if i + 1 < |active| then active[i + 1] else null
    {
    }

    lemma DerefAt(link: Link, p: nat)
      requires Shape() && LinkTo(link, p)
      ensures Deref(link) == active[p]
    {
    }

    // ----- setup

    method SetAlign(allowOutOfMem: bool)
      requires numNodes >= 1
      modifies `align
      ensures align == if allowOutOfMem then 1 else QuantizedAlign(width, numNodes)
    {
      if allowOutOfMem {
        align := 1;
      } else {
        align := (width + numNodes - 1) / numNodes;
      }
    }

    /** Starts packing into a new bin, with the given nodes as storage; whatever was packed before is forgotten. */
    method InitTarget(width: int, height: int, nodes: seq<Node>)
      requires 1 <= width && 0 <= height < SENTINEL_Y && |nodes| >= 1
      requires NoDuplicates(nodes) && extra0 !in nodes && extra1 !in nodes && extra0 != extra1
      modifies this, nodes, extra0, extra1
      ensures Valid() && Abstract() == Init(width, height, |nodes|) && !bestFit
      ensures events == [] && outcomes == []
      ensures pool == (set n | n in nodes) + {extra0, extra1}
    {
      this.width := width;
      this.height := height;
      numNodes := |nodes|;
      bestFit := false;
      InitNodes(nodes);
      SetAlign(false);
      hide Shape, IsSkyline, GroundIsLast, History, Linked, Shows, QuantizedAlign;
      HistoryStart(width, height, |nodes|);
      StartLists(nodes);
    }

    /** The ghost side of the initialization. */
    ghost method StartLists(nodes: seq<Node>)
      requires NoDuplicates(nodes) && extra0 !in nodes && extra1 !in nodes && extra0 != extra1 && numNodes == |nodes|
      requires Linked(nodes, freeHead) && Linked([extra0, extra1], activeHead)
      requires Shows([extra0, extra1], [Seg(0, 0), Seg(width, SENTINEL_Y)])
      modifies `active, `free, `pool, `sky, `events, `outcomes
      ensures Shape() && sky == [Seg(0, 0), Seg(width, SENTINEL_Y)]
      ensures pool == (set n | n in nodes) + {extra0, extra1} && events == [] && outcomes == []
    {
      InitialNodesApart(extra0, extra1, nodes);
      hide Shape, Linked, Shows, Separate, Holds;
      active, free := [extra0, extra1], nodes;
      pool := (set n | n in nodes) + {extra0, extra1};
      sky, events, outcomes := [Seg(0, 0), Seg(width, SENTINEL_Y)], [], [];
      ShapeFrom();
    }

    /** The lists at the start: a full-width segment and the sentinel are active, the storage is free. */
    method InitNodes(nodes: seq<Node>)
      requires |nodes| >= 1 && NoDuplicates(nodes) && extra0 !in nodes && extra1 !in nodes && extra0 != extra1
      modifies `activeHead, `freeHead, nodes, extra0, extra1
      ensures Linked(nodes, freeHead) && Linked([extra0, extra1], activeHead)
      ensures Shows([extra0, extra1], [Seg(0, 0), Seg(width, SENTINEL_Y)])
    {
      LinkNodes(nodes);
      freeHead := nodes[0];
      activeHead := extra0;
      extra0.x := 0;
      extra0.y := 0;
      extra0.next := extra1;
      extra1.x := width;
      extra1.y := SENTINEL_Y;
      extra1.next := null;
    }

    /** Links the storage into one list. */
    method LinkNodes(nodes: seq<Node>)
      requires |nodes| >= 1 && NoDuplicates(nodes)
      modifies nodes
      ensures Linked(nodes, nodes[0])
    {
      var i := 0;
      while i < |nodes| - 1
        invariant 0 <= i <= |nodes| - 1
        invariant forall k {:trigger nodes[k].next} :: 0 <= k < i ==> nodes[k].next == nodes[k + 1]
      {
        nodes[i].next := nodes[i + 1];
        i := i + 1;
      }
      nodes[i].next := null;
    }

    method SetAllowOutOfMem(allow: bool)
      requires Valid()
      modifies `align, `events, `outcomes
      ensures Valid()
      ensures Abstract() == old(Abstract()).(align := if allow then 1 else QuantizedAlign(width, numNodes))
      ensures events == old(events) + [Event.SetAllowOutOfMem(allow)] && outcomes == old(outcomes) + [NoSpaceNeeded]
    {
      hide IsSkyline, GroundIsLast, History, Linked, Shows, Separate, Holds;
      HistoryStep(Abstract(), events, outcomes, Event.SetAllowOutOfMem(allow), NoSpaceNeeded);
      SetAlign(allow);
      events, outcomes := events + [Event.SetAllowOutOfMem(allow)], outcomes + [NoSpaceNeeded];
    }

    method SetHeuristic(useBestFit: bool)
      requires Valid()
      modifies `bestFit, `events, `outcomes
      ensures Valid()
      ensures Abstract() == old(Abstract()).(bestFit := useBestFit)
      ensures events == old(events) + [Event.SetHeuristic(useBestFit)] && outcomes == old(outcomes) + [NoSpaceNeeded]
    {
      hide IsSkyline, GroundIsLast, History, Linked, Shows, Separate, Holds;
      HistoryStep(Abstract(), events, outcomes, Event.SetHeuristic(useBestFit), NoSpaceNeeded);
      bestFit := useBestFit;
      events, outcomes := events + [Event.SetHeuristic(useBestFit)], outcomes + [NoSpaceNeeded];
    }

    // ----- the search

    /** Least height for a box with its left edge at x0, above node `first` = active[f], and the waste below it. */
    method FindMinY(first: Node, x0: int, width: int, ghost f: nat) returns (minY: int, waste: int)
      requires Shape() && f < |active| && first == active[f]
      requires IsWindow(sky, this.width, height, f, x0, width)
      ensures minY == MaxOver(sky, x0, x0 + width)
      ensures waste == Scan(sky, f, x0, width, START).waste
    {
      hide MaxOver, At, NoDuplicates, NoneShared;
      var node := first;
      var x1 := x0 + width;
      var visitedWidth := 0;
      ghost var i := f;
      minY, waste := 0, 0;
      while node.x < x1
        invariant f <= i < |active| && node == active[i]
        invariant Scan(sky, i, x0, width, Acc(minY, waste, visitedWidth)) == Scan(sky, f, x0, width, START)
        decreases |active| - i
      {
        assert i + 1 < |active|;
        ghost var a := Acc(minY, waste, visitedWidth);
        if node.y > minY {
          waste := waste + visitedWidth * (node.y - minY);
          minY := node.y;
          if node.x < x0 {
            visitedWidth := visitedWidth + (node.next.x - x0);
          } else {
            visitedWidth := visitedWidth + (node.next.x - node.x);
          }
        } else {
          var underWidth := node.next.x - node.x;
          if underWidth + visitedWidth > width {
            underWidth := width - visitedWidth;
          }
          waste := waste + underWidth * (minY - node.y);
          visitedWidth := visitedWidth + underWidth;
        }
        assert Acc(minY, waste, visitedWidth) == Visit(sky, i, x0, width, a);
        node := node.next;
        i := i + 1;
      }
      ScanMinY(sky, this.width, height, f, x0, width);
    }

    /** The left-aligned positions, scanned from left to right. */
    method SearchLeft(aligned: int, h: int) returns (best: Link, bestX: int, bestY: int, bestWaste: int, ghost b: nat)
      requires Shape() && WellFormed(Abstract()) && 1 <= aligned <= width && h >= 1
      ensures best != NoLink ==> LinkTo(best, b) && bestX == sky[b].x
      ensures !bestFit ==> best != NoLink && IsBottomLeft(sky, aligned, bestX) && bestY == Floor(sky, aligned, bestX)
      ensures bestFit ==>
                var r := Best(best != NoLink, bestX, bestY, bestWaste);
                && FoundBestFit(sky, aligned, h, height, r)
                && forall x' :: LeftAligned(sky, aligned, x') ==> NotBetter(sky, aligned, h, height, r, x')
    {
      hide Floor, ScannedWaste, LeftAligned, FoundBestFit, NotBetter, SeenLeft, IsBottomLeft, IsWindow;
      hide MaxOver, Scan, SegmentOf, Increasing, GroundIsLast, Shape;
      NodeAt(0);
      best, bestY, bestWaste, b := NoLink, SENTINEL_Y, SENTINEL_Y, 0;
      var node: Node := activeHead;
      var prev := HeadLink;
      ghost var i: nat := 0;
      ghost var r := NOTHING;
      SeenLeftStart(sky, width, height, aligned, h, bestFit);
      while node.x + aligned <= width
        invariant i < |active| && node == active[i] && node.x == sky[i].x && LinkTo(prev, i)
        invariant SeenLeft(sky, height, aligned, h, bestFit, i, r)
        invariant r.found == (best != NoLink) && r.y == bestY && r.waste == bestWaste
        invariant if r.found then LinkTo(best, b) && r.x == sky[b].x else r.x == 0
        decreases |active| - i
      {
        NodeAt(i);
        ScanAtSegment(sky, width, height, aligned, i);
        SeenLeftStep(sky, width, height, aligned, h, bestFit, i, r);
        var y, waste := FindMinY(node, node.x, aligned, i);
        r := LeftStep(bestFit, h, height, r, node.x, y, waste);
        if !bestFit {
          if y < bestY {
            bestY := y;
            best := prev;
            b := i;
          }
        } else {
          if y + h <= height {
            if y < bestY || (y == bestY && waste < bestWaste) {
              bestY := y;
              bestWaste := waste;
              best := prev;
              b := i;
            }
          }
        }
        prev := NextOf(node);
        node := node.next;
        i := i + 1;
        NodeAt(i);
      }
      if best != NoLink {
        NodeAt(b);
        DerefAt(best, b);
      }
      bestX := if best == NoLink then 0 else Deref(best).x;
      SeenAllLeft(sky, width, height, aligned, h, bestFit, i, r);
    }

    /** The node that covers column xpos, searched from node0 on, and the link to it. */
    method AdvanceTo(xpos: int, node0: Node, prev0: Link, ghost i0: nat) returns (node: Node, prev: Link, ghost i: nat)
      requires Shape() && sky[|sky| - 1].x == width
      requires i0 + 1 < |active| && node0 == active[i0] && LinkTo(prev0, i0)
      requires sky[i0].x <= xpos < width
      ensures i + 1 < |active| && node == active[i] && LinkTo(prev, i)
      ensures sky[i].x <= xpos < sky[i + 1].x
    {
      hide NoDuplicates, NoneShared;
      node, prev, i := node0, prev0, i0;
      while node.next.x <= xpos
        invariant i + 1 < |active| && node == active[i] && node.next == active[i + 1] && LinkTo(prev, i)
        invariant sky[i].x <= xpos
        decreases |active| - i
      {
        prev := NextOf(node);
        node := node.next;
        i := i + 1;
      }
    }

    /** Best-fit also tries to align the right edge with each node, keeping what is better. */
    method SearchRight(aligned: int, h: int, best0: Link, bestX0: int, bestY0: int, bestWaste0: int, ghost b0: nat)
      returns (best: Link, bestX: int, bestY: int, ghost b: nat)
      requires Shape() && WellFormed(Abstract()) && 1 <= aligned <= width && h >= 1
      requires best0 != NoLink ==> LinkTo(best0, b0) && bestX0 == sky[b0].x
      requires SeenRight(sky, height, aligned, h, 0, Best(best0 != NoLink, bestX0, bestY0, bestWaste0))
      ensures best == NoLink ==> forall x' :: Candidate(sky, aligned, x') ==> Floor(sky, aligned, x') + h > height
      ensures best != NoLink ==> IsBestFit(sky, aligned, h, height, bestX) && bestY == Floor(sky, aligned, bestX)
      ensures best != NoLink ==> 0 <= bestX && LinkTo(best, b) && b == SegmentOf(sky, bestX)
    {
      hide Floor, ScannedWaste, LeftAligned, Candidate, SeenRight, IsWindow, IsBestFit;
      hide MaxOver, Scan, SegmentOf, Increasing, GroundIsLast, Shape;
      NodeAt(0);
      best, bestX, bestY, b := best0, bestX0, bestY0, b0;
      var bestWaste := bestWaste0;
      ghost var r := Best(best != NoLink, bestX, bestY, bestWaste);
      if best != NoLink {
        StartOfSegment(sky, width, height, b);
      }
      var tail: Node? := activeHead;
      ghost var t := 0;
      while tail.x < aligned
        invariant t < |active| && tail == active[t] && tail.x == sky[t].x && SeenRight(sky, height, aligned, h, t, r)
        decreases |active| - t
      {
        NodeAt(t);
        SeenRightSkip(sky, height, aligned, h, t, r);
        tail := tail.next;
        t := t + 1;
        NodeAt(t);
      }
      var node: Node := activeHead;
      var prev := HeadLink;
      ghost var i: nat := 0;
      while tail != null
        invariant t <= |active| && tail == (if t < |active| then active[t] else null)
        invariant i + 1 < |active| && node == active[i] && LinkTo(prev, i)
        invariant t < |active| ==> aligned <= sky[t].x && sky[i].x <= sky[t].x - aligned
        invariant SeenRight(sky, height, aligned, h, t, r)
        invariant r == Best(best != NoLink, bestX, bestY, bestWaste)
        invariant best != NoLink ==> 0 <= bestX && LinkTo(best, b) && b == SegmentOf(sky, bestX)
        decreases |active| - t
      {
        NodeAt(t);
        var xpos := tail.x - aligned;
        StartsInBin(sky, width, height, t);
        node, prev, i := AdvanceTo(xpos, node, prev, i);
        ScanBeforeSegment(sky, width, height, aligned, t, i);
        SeenRightStep(sky, width, height, aligned, h, t, r);
        var y, waste := FindMinY(node, xpos, aligned, i);
        r := BestFitRightStep(h, height, r, xpos, y, waste);
        if y + h <= height {
          if y <= bestY {
            if y < bestY || waste < bestWaste || (waste == bestWaste && xpos < bestX) {
              bestX := xpos;
              bestY := y;
              bestWaste := waste;
              best := prev;
              b := i;
            }
          }
        }
        tail := tail.next;
        t := t + 1;
      }
      SeenAllRight(sky, width, height, aligned, h, r);
    }

    /** The position that the current heuristic selects, with the link to the node under its left edge. */
    method FindBestPos(w: int, h: int) returns (fr: FindResult, ghost p: nat)
      requires Shape() && WellFormed(Abstract()) && 1 <= w && 1 <= h
      ensures fr.prevLink == NoLink ==> SelectsNothing(Abstract(), w, h)
      ensures fr.prevLink != NoLink ==> Selects(Abstract(), w, h, fr.x) && fr.y == Rest(Abstract(), w, fr.x)
      ensures fr.prevLink != NoLink ==> 0 <= fr.x && LinkTo(fr.prevLink, p) && p == SegmentOf(sky, fr.x)
    {
      hide Floor, LeftAligned, Candidate, IsBestFit, SegmentOf, NotBetter, NoDuplicates, NoneShared;
      var aligned := w + align - 1;
      aligned := aligned - aligned % align;
      assert aligned == RoundUp(w, align);
      RoundUpBounds(w, align);
      if aligned > width || h > height {
        return FindResult(0, 0, NoLink), 0;
      }
      var best, bestX, bestY, bestWaste, b := SearchLeft(aligned, h);
      if bestFit {
        best, bestX, bestY, b := SearchRight(aligned, h, best, bestX, bestY, bestWaste, b);
      } else {
        StartOfSegment(sky, width, height, b);
      }
      return FindResult(bestX, bestY, best), b;
    }

    // ----- placing a box

    /**
      In the middle of a splice: `node` is linked in behind a[..q], the nodes a[q..k] are on the free
      list, and a[k..] is still linked up to the sentinel.
     */
    ghost predicate Splicing(a: seq<Node>, f: seq<Node>, freed: seq<Node>, s: seq<Seg>, node: Node, q: nat, k: nat)
      reads this, a, f, freed
    {
      && |a| == |s| && Separate(a, f) && IsFreed(freed, a, f, q, k) && node == f[0]
      && activeHead == (if q == 0 then node else a[0])
      && (forall i :: 0 <= i < q ==> a[i].x == s[i].x && a[i].y == s[i].y)
      && (forall i {:trigger a[i].next} :: 0 <= i < q ==> a[i].next == if i + 1 < q then a[i + 1] else node)
      && (forall i :: k <= i < |a| ==> a[i].x == s[i].x && a[i].y == s[i].y)
      && (forall i {:trigger a[i].next} :: k <= i < |a| ==> a[i].next == if i + 1 < |a| then a[i + 1] else null)
      && Linked(freed, freeHead)
    }

    lemma ShapeGives()
      requires Shape()
      ensures Separate(active, free) && Holds(pool, active, free)
      ensures |active| >= 2 && |active| + |free| == numNodes + 2 && active[|active| - 1] == extra1
      ensures Linked(active, activeHead) && Linked(free, freeHead) && Shows(active, sky)
      ensures forall i :: 0 <= i < |active| ==> active[i] in pool
      ensures forall i :: 0 <= i < |free| ==> free[i] in pool
    {
    }

    /** `node` has been taken off the free list; the active list is untouched. */
    ghost predicate Taken(node: Node)
      reads this, active, free
    {
      && Separate(active, free) && free != [] && node == free[0]
      && Linked(active, activeHead) && Linked(free[1..], freeHead) && Shows(active, sky)
    }

    /** Takes the first free node for a box at x with its top at y. */
    method TakeNode(x: int, y: int) returns (node: Node)
      requires Shape() && freeHead != null
      modifies `freeHead, freeHead
      ensures node in pool
      ensures Taken(node) && node.x == x && node.y == y && node == old(freeHead)
      ensures unchanged(active)
    {
      hide Separate, Shape;
      ShapeGives();
      node := freeHead;
      DistinctFromFree(active, free, 0);
      node.x := x;
      node.y := y;
      freeHead := node.next;
    }

    /** Links the node in where a box at x starts, and returns the first node that the box may cover. */
    method LinkIn(link: Link, node: Node, x: int, ghost p: nat, ghost q: nat) returns (cur: Node)
      requires Taken(node) && LinkTo(link, p) && p + 1 < |active| && Deref(link) == active[p]
      requires q == Kept(sky, p, x)
      modifies `activeHead, active
      ensures cur == active[q] && Splicing(active, free, free[1..], sky, node, q, q)
      ensures node.x == old(node.x) && node.y == old(node.y)
    {
      hide Separate;
      DistinctFromFree(active, free, 0);
      cur := Deref(link);
      if cur.x < x {
        DistinctFromActive(active, free, p);
        var next := cur.next;
        cur.next := node;
        cur := next;
      } else {
        match link {
          case HeadLink => activeHead := node;
          case NextOf(n) =>
            DistinctFromActive(active, free, p - 1);
            n.next := node;
        }
      }
    }

    /** Moves one covered node to the free list. */
    method FreeOne(cur: Node, ghost node: Node, ghost freed: seq<Node>, ghost q: nat, ghost k: nat) returns (next: Node)
      requires Splicing(active, free, freed, sky, node, q, k) && k + 1 < |active| && cur == active[k]
      modifies `freeHead, cur`next
      ensures next == active[k + 1]
      ensures Splicing(active, free, [cur] + freed, sky, node, q, k + 1)
    {
      hide Separate;
      FreedNextDistinct(active, free, freed, q, k);
      next := cur.next;
      cur.next := freeHead;
      freeHead := cur;
    }

    /** Puts the nodes covered up to column `right` on the free list. */
    method FreeCovered(cur0: Node, right: int, ghost node: Node, ghost q: nat)
      returns (cur: Node, ghost freed: seq<Node>, ghost k: nat)
      requires free != [] && Splicing(active, free, free[1..], sky, node, q, q)
      requires q < |active| && cur0 == active[q]
      requires Holds(pool, active, free)
      modifies `freeHead, pool`next
      ensures q < |sky| && k == Cut(sky, q, right) && k < |active| == |sky| && cur == active[k] && cur in pool
      ensures Splicing(active, free, freed, sky, node, q, k)
    {
      hide Splicing;
      cur := cur0;
      freed := free[1..];
      k := q;
      SplicingNext(freed, node, q, k);
      while cur.next != null && cur.next.x <= right
        invariant k < |active| && cur == active[k]
        invariant Cut(sky, k, right) == Cut(sky, q, right)
        invariant Splicing(active, free, freed, sky, node, q, k)
        invariant |active| == |sky|
        invariant k + 1 < |active| ==> cur.next == active[k + 1] && cur.next.x == sky[k + 1].x
        invariant k + 1 == |active| ==> cur.next == null
        decreases |active| - k
      {
        var next := FreeOne(cur, node, freed, q, k);
        freed := [cur] + freed;
        cur := next;
        k := k + 1;
        SplicingNext(freed, node, q, k);
      }
    }

    /** As `Splicing`, with a[k..] stitched behind the new node and a[k] trimmed to start at `start`. */
    ghost predicate Stitched(a: seq<Node>, f: seq<Node>, freed: seq<Node>, s: seq<Seg>,
        node: Node, q: nat, k: nat, start: int)
      reads this, a, f, freed
    {
      && |a| == |s| && Separate(a, f) && IsFreed(freed, a, f, q, k) && k < |a| && node == f[0]
      && activeHead == (if q == 0 then node else a[0])
      && (forall i :: 0 <= i < q ==> a[i].x == s[i].x && a[i].y == s[i].y)
      && (forall i {:trigger a[i].next} :: 0 <= i < q ==> a[i].next == if i + 1 < q then a[i + 1] else node)
      && node.next == a[k] && a[k].x == start && a[k].y == s[k].y
      && (forall i :: k < i < |a| ==> a[i].x == s[i].x && a[i].y == s[i].y)
      && (forall i {:trigger a[i].next} :: k <= i < |a| ==> a[i].next == if i + 1 < |a| then a[i + 1] else null)
      && Linked(freed, freeHead)
    }

    /** Stitches the rest of the active list behind the new node and trims it at column `right`. */
    method Stitch(node: Node, cur: Node, right: int, ghost q: nat, ghost k: nat, ghost freed: seq<Node>)
      requires k < |active| && cur == active[k] && Splicing(active, free, freed, sky, node, q, k)
      modifies node`next, cur`x
      ensures k < |sky| && Stitched(active, free, freed, sky, node, q, k, Max(sky[k].x, right))
      ensures node.x == old(node.x) && node.y == old(node.y)
    {
      hide Separate;
      DistinctFromFree(active, free, 0);
      DistinctFromActive(active, free, k);
      FreedNextDistinct(active, free, freed, q, k);
      FreedNotFirst(active, free, freed, q, k);
      node.next := cur;
      if cur.x < right {
        cur.x := right;
      }
    }

    lemma StitchedShows(freed: seq<Node>, node: Node, x: int, y: int, w: int, p: nat, k: nat)
      requires p + 1 < |sky| && node.x == x && node.y == y
      requires var q := Kept(sky, p, x);
               k == Cut(sky, q, x + w) && Stitched(active, free, freed, sky, node, q, k, Max(sky[k].x, x + w))
      ensures var a' := Spliced(active, node, Kept(sky, p, x), k);
              && Linked(a', activeHead) && Linked(freed, freeHead)
              && Shows(a', Put(sky, p, x, y, w))
    {
    }

    lemma ShapeFrom()
      requires |active| >= 2 && |active| + |free| == numNodes + 2 && active[|active| - 1] == extra1
      requires Linked(active, activeHead) && Linked(free, freeHead) && Shows(active, sky)
      requires Separate(active, free) && Holds(pool, active, free)
      ensures Shape()
    {
    }

    /** Takes a node from the free list and links it in for a box at x with its top at y. */
    method Insert(link: Link, x: int, y: int, ghost p: nat, ghost q: nat) returns (node: Node, cur: Node)
      requires Shape() && freeHead != null && LinkTo(link, p) && p + 1 < |active| && q == Kept(sky, p, x)
      modifies `activeHead, `freeHead, pool
      ensures q < |active| && cur == active[q] && node.x == x && node.y == y && node in pool
      ensures free != [] && Splicing(active, free, free[1..], sky, node, q, q)
    {
      ShapeGives();
      hide Shape, Splicing, Separate, SegmentOf, Linked, Shows, Holds, IsFreed;
      node := TakeNode(x, y);
      DerefTaken(link, p, node);
      cur := LinkIn(link, node, x, p, q);
    }

    /** The active list has been complete but for the nodes from a[k] on: stitches them and updates the ghost lists. */
    method Finish(node: Node, cur: Node, x: int, y: int, w: int,
        ghost p: nat, ghost q: nat, ghost k: nat, ghost freed: seq<Node>)
      requires p + 1 < |sky| && node.x == x && node.y == y && q == Kept(sky, p, x) && k == Cut(sky, q, x + w)
      requires k < |active| && cur == active[k] && Splicing(active, free, freed, sky, node, q, k)
      requires Holds(pool, active, free) && |active| + |free| == numNodes + 2 && active[|active| - 1] == extra1
      modifies node`next, cur`x, `active, `free, `sky
      ensures Shape() && sky == Put(old(sky), p, x, y, w)
    {
      hide Shape, Splicing, Stitched, Separate, Put, SegmentOf, Cut, Linked, Shows, Holds, IsFreed;
      Stitch(node, cur, x + w, q, k, freed);
      Close(freed, node, x, y, w, p, q, k);
    }

    /** Frees the nodes that the new one covers, then finishes the splice. */
    method Settle(node: Node, cur: Node, x: int, y: int, w: int, ghost p: nat, ghost q: nat)
      requires p + 1 < |sky| && node.x == x && node.y == y && node in pool && q == Kept(sky, p, x)
      requires q < |active| && cur == active[q] && free != [] && Splicing(active, free, free[1..], sky, node, q, q)
      requires Holds(pool, active, free) && |active| + |free| == numNodes + 2 && active[|active| - 1] == extra1
      modifies `freeHead, `active, `free, `sky, pool
      ensures Shape() && sky == Put(old(sky), p, x, y, w)
    {
      hide Shape, Splicing, Separate, Put, SegmentOf, Cut, Linked, Shows, Holds, IsFreed;
      var rest, freed, k := FreeCovered(cur, x + w, node, q);
      Finish(node, rest, x, y, w, p, q, k, freed);
    }

    /**
      Takes a node from the free list, links it in for a box of width w with its top at y, puts the
      covered nodes on the free list and trims the last one.
     */
    method SpliceIn(link: Link, x: int, y: int, w: int, ghost p: nat)
      requires Shape() && freeHead != null && LinkTo(link, p)
      requires CanPut(sky, width, height, p, x, y, w)
      modifies `activeHead, `freeHead, `active, `free, `sky, pool
      ensures Shape() && sky == Put(old(sky), p, x, y, w)
    {
      ShapeGives();
      assert p + 1 < |sky| == |active|;
      hide Shape, Splicing, Separate, Put, CanPut, SegmentOf, Linked, Shows, Holds, IsFreed;
      ghost var q := Kept(sky, p, x);
      var node, cur := Insert(link, x, y, p, q);
      Settle(node, cur, x, y, w, p, q);
    }

    /** The ghost side of the splice: what the two lists now hold and show. */
    ghost method Close(freed: seq<Node>, node: Node, x: int, y: int, w: int, p: nat, q: nat, k: nat)
      requires p + 1 < |sky| && node.x == x && node.y == y && q == Kept(sky, p, x) && k == Cut(sky, q, x + w)
      requires Stitched(active, free, freed, sky, node, q, k, Max(sky[k].x, x + w))
      requires Holds(pool, active, free) && |active| + |free| == numNodes + 2 && active[|active| - 1] == extra1
      modifies `active, `free, `sky
      ensures Shape() && sky == Put(old(sky), p, x, y, w)
    {
      hide Shape, Stitched, Separate, Put, SegmentOf, Cut, Linked, Shows, Holds, IsFreed, Spliced;
      StitchedApart(freed, node, q, k, Max(sky[k].x, x + w));
      StitchedShows(freed, node, x, y, w, p, k);
      active, free, sky := Spliced(active, node, q, k), freed, Put(sky, p, x, y, w);
      ShapeFrom();
    }

    lemma StitchedApart(freed: seq<Node>, node: Node, q: nat, k: nat, start: int)
      requires k < |sky| && Stitched(active, free, freed, sky, node, q, k, start) && Holds(pool, active, free)
      ensures q <= k <= |active|
      ensures var a' := Spliced(active, node, q, k);
              && Separate(a', freed) && Holds(pool, a', freed)
              && |a'| + |freed| == |active| + |free| && |a'| >= 2 && a'[|a'| - 1] == active[|active| - 1]
    {
      hide Separate, Linked, Holds, Spliced;
      SplicedApart(pool, active, free, freed, q, k);
    }

    /** Finds a place for a box and puts it there, or reports failure and changes nothing. */
    method PackRectangle(w: int, h: int) returns (fr: FindResult)
      requires Valid() && 1 <= w && 1 <= h
      modifies this, pool
      ensures Valid() && pool == old(pool)
      ensures Legal(old(Abstract()), Place(w, h), Answer(fr))
      ensures Abstract() == After(old(Abstract()), Place(w, h), Answer(fr))
      ensures events == old(events) + [Place(w, h)] && outcomes == old(outcomes) + [Answer(fr)]
    {
      hide Selects, SelectsNothing, Put, CanPut, Linked, Shows, Separate, Holds, IsSkyline, GroundIsLast, SegmentOf, Rest;
      hide History, Legal, After;
      ghost var st := Abstract();
      ghost var p;
      fr, p := FindBestPos(w, h);
      FreeHeadTells();
      if fr.prevLink == NoLink || fr.y + h > height || freeHead == null {
        fr := FindResult(fr.x, fr.y, NoLink);
        AfterRejected(st, w, h);
        HistoryStep(st, events, outcomes, Place(w, h), Rejected);
        events, outcomes := events + [Place(w, h)], outcomes + [Rejected];
        return;
      }
      AfterPacked(st, w, h, fr.x, fr.y);
      HistoryStep(st, events, outcomes, Place(w, h), Packed(fr.x, fr.y));
      SpliceIn(fr.prevLink, fr.x, fr.y + h, w, p);
      events, outcomes := events + [Place(w, h)], outcomes + [Packed(fr.x, fr.y)];
    }

    /** An empty box changes nothing; only the record of the calls grows. */
    ghost method SkipEmpty(w: int, h: int)
      requires Valid() && 0 <= w && 0 <= h && (w == 0 || h == 0)
      modifies `events, `outcomes
      ensures Valid() && Abstract() == old(Abstract())
      ensures Legal(old(Abstract()), Place(w, h), NoSpaceNeeded)
      ensures Abstract() == After(old(Abstract()), Place(w, h), NoSpaceNeeded)
      ensures events == old(events) + [Place(w, h)] && outcomes == old(outcomes) + [NoSpaceNeeded]
    {
      hide IsSkyline, GroundIsLast, History, Linked, Shows, Separate, Holds;
      HistoryStep(Abstract(), events, outcomes, Place(w, h), NoSpaceNeeded);
      events, outcomes := events + [Place(w, h)], outcomes + [NoSpaceNeeded];
    }

    lemma FreeHeadTells()
      requires Shape()
      ensures freeHead == null <==> FreeNodes(Abstract()) == 0
      ensures FreeNodes(Abstract()) >= 0
    {
    }

    lemma DerefTaken(link: Link, p: nat, node: Node)
      requires Taken(node) && LinkTo(link, p)
      ensures Deref(link) == active[p]
    {
    }

    lemma SplicingNext(freed: seq<Node>, node: Node, q: nat, k: nat)
      requires Splicing(active, free, freed, sky, node, q, k) && k < |active|
      ensures |active| == |sky|
      ensures k + 1 < |active| ==> active[k].next == active[k + 1] && active[k + 1].x == sky[k + 1].x
      ensures k + 1 == |active| ==> active[k].next == null
    {
    }
  }

  /** The nodes on the two lists are those of the pool. */
  ghost predicate Holds(pool: set<Node>, a: seq<Node>, f: seq<Node>) {
    && (forall i :: 0 <= i < |a| ==> a[i] in pool)
    && (forall i :: 0 <= i < |f| ==> f[i] in pool)
    && forall n :: n in pool ==> n in a || n in f
  }

  ghost predicate Separate(a: seq<Node>, f: seq<Node>) {
    NoDuplicates(a) && NoDuplicates(f) && NoneShared(a, f)
  }

  /** freed is f[1..] with the nodes a[q..k] put in front of it one by one. */
  ghost predicate IsFreed(freed: seq<Node>, a: seq<Node>, f: seq<Node>, q: nat, k: nat) {
    && q <= k <= |a| && f != []
    && |freed| == k - q + |f| - 1
    && (forall i :: 0 <= i < k - q ==> freed[i] == a[k - 1 - i])
    && forall i :: k - q <= i < |freed| ==> freed[i] == f[1 + i - (k - q)]
  }

  lemma FreedNextDistinct(a: seq<Node>, f: seq<Node>, freed: seq<Node>, q: nat, k: nat)
    requires Separate(a, f) && IsFreed(freed, a, f, q, k) && k < |a|
    ensures IsFreed([a[k]] + freed, a, f, q, k + 1)
    ensures forall i :: 0 <= i < |freed| ==> freed[i] != a[k]
    ensures forall i :: 0 <= i < |a| && i != k ==> a[i] != a[k]
    ensures f[0] != a[k]
  {
  }

  lemma DistinctFromFree(a: seq<Node>, f: seq<Node>, j: nat)
    requires Separate(a, f) && j < |f|
    ensures forall i :: 0 <= i < |a| ==> a[i] != f[j]
    ensures forall i :: 0 <= i < |f| && i != j ==> f[i] != f[j]
  {
  }

  lemma DistinctFromActive(a: seq<Node>, f: seq<Node>, j: nat)
    requires Separate(a, f) && j < |a|
    ensures forall i :: 0 <= i < |a| && i != j ==> a[i] != a[j]
    ensures forall i :: 0 <= i < |f| ==> f[i] != a[j]
  {
  }

  lemma FreedNotFirst(a: seq<Node>, f: seq<Node>, freed: seq<Node>, q: nat, k: nat)
    requires Separate(a, f) && IsFreed(freed, a, f, q, k)
    ensures forall i :: 0 <= i < |freed| ==> freed[i] != f[0]
  {
  }

  /** The active list with `node` in the place of a[q..k]. */
  ghost function Spliced(a: seq<Node>, node: Node, q: nat, k: nat): seq<Node>
    requires q <= k <= |a|
  {
    a[..q] + [node] + a[k..]
  }

  /** After the splice the two lists are apart again and hold the same nodes as before. */
  lemma SplicedApart(pool: set<Node>, a: seq<Node>, f: seq<Node>, freed: seq<Node>, q: nat, k: nat)
    requires Separate(a, f) && IsFreed(freed, a, f, q, k) && k < |a| && Holds(pool, a, f)
    ensures var a' := Spliced(a, f[0], q, k);
            && Separate(a', freed) && Holds(pool, a', freed)
            && |a'| + |freed| == |a| + |f| && |a'| >= 2 && a'[|a'| - 1] == a[|a| - 1]
  {
    SplicedSeparate(a, f, freed, q, k);
    SplicedHolds(pool, a, f, freed, q, k);
    hide Separate, Holds;
  }

  lemma SplicedSeparate(a: seq<Node>, f: seq<Node>, freed: seq<Node>, q: nat, k: nat)
    requires Separate(a, f) && IsFreed(freed, a, f, q, k) && k < |a|
    ensures Separate(Spliced(a, f[0], q, k), freed)
  {
  }

  lemma SplicedHolds(pool: set<Node>, a: seq<Node>, f: seq<Node>, freed: seq<Node>, q: nat, k: nat)
    requires IsFreed(freed, a, f, q, k) && k < |a| && Holds(pool, a, f)
    ensures Holds(pool, Spliced(a, f[0], q, k), freed)
  {
    var a' := Spliced(a, f[0], q, k);
    forall n | n in pool ensures n in a' || n in freed {
      if n in a {
        var i :| 0 <= i < |a| && a[i] == n;
        if i < q {
          assert a'[i] == n;
        } else if i < k {
          assert freed[k - 1 - i] == n;
        } else {
          assert a'[i - k + q + 1] == n;
        }
      } else {
        var i :| 0 <= i < |f| && f[i] == n;
        if i == 0 {
          assert a'[q] == n;
        } else {
          assert freed[i - 1 + k - q] == n;
        }
      }
    }
  }

  lemma InitialNodesApart(e0: Node, e1: Node, nodes: seq<Node>)
    requires NoDuplicates(nodes) && e0 !in nodes && e1 !in nodes && e0 != e1
    ensures Separate([e0, e1], nodes)
    ensures Holds((set n | n in nodes) + {e0, e1}, [e0, e1], nodes)
  {
  }
}
