/**
  Permutations of 0, ..., n - 1 as sequences: how a sort rearranges an array, and what that preserves.
 */
module Permutations {

  ghost predicate IsPermutation(p: seq<int>, n: nat) {
    && |p| == n
    && (forall i :: 0 <= i < n ==> 0 <= p[i] < n)
    && forall i, j :: 0 <= i < j < n ==> p[i] != p[j]
  }

  /** The sequence that has s[p[k]] at position k. */
  ghost function Rearranged<T>(s: seq<T>, p: seq<int>): (t: seq<T>)
    requires forall k :: 0 <= k < |p| ==> 0 <= p[k] < |s|
    ensures |t| == |p| && forall k :: 0 <= k < |p| ==> t[k] == s[p[k]]
  {
    seq(|p|, k requires 0 <= k < |p| => s[p[k]])
  }

  lemma {:induction false} ElementCount(p: seq<int>)
    requires forall i, j :: 0 <= i < j < |p| ==> p[i] != p[j]
    ensures |set i | 0 <= i < |p| :: p[i]| == |p|
  {
    if p != [] {
      var q := p[..|p| - 1];
      ElementCount(q);
      assert (set i | 0 <= i < |p| :: p[i]) == (set i | 0 <= i < |q| :: q[i]) + {p[|p| - 1]};
    }
  }

  /** The set of the numbers below n. */
  function Below(n: nat): (s: set<int>)
    ensures |s| == n
    ensures forall i :: i in s <==> 0 <= i < n
  {
    if n == 0 then {} else Below(n - 1) + {n - 1}
  }

  lemma SubsetOfEqualSize(a: set<int>, b: set<int>)
    requires a <= b && |a| >= |b|
    ensures a == b
  {
    assert |b - a| == |b| - |a|;
  }

  lemma PermutationIsOnto(p: seq<int>, n: nat, v: int) returns (k: nat)
    requires IsPermutation(p, n) && 0 <= v < n
    ensures k < n && p[k] == v
  {
    var elements := set i | 0 <= i < |p| :: p[i];
    ElementCount(p);
    SubsetOfEqualSize(elements, Below(n));
    assert v in elements;
    k :| 0 <= k < n && p[k] == v;
  }

  /** The only nondecreasing permutation is the identity. */
  lemma SortedPermutationIsIdentity(p: seq<int>, n: nat)
    requires IsPermutation(p, n)
    requires forall i, j :: 0 <= i < j < n ==> p[i] <= p[j]
    ensures forall i :: 0 <= i < n ==> p[i] == i
  {
    forall i | 0 <= i < n ensures p[i] == i {
      AtLeastIndex(p, i);
      AtMostIndex(p, n, i);
    }
  }

  lemma {:induction false} AtLeastIndex(p: seq<int>, i: nat)
    requires i < |p| && p[0] >= 0 && forall j, k :: 0 <= j < k < |p| ==> p[j] < p[k]
    ensures p[i] >= i
  {
    if i > 0 {
      AtLeastIndex(p, i - 1);
    }
  }

  lemma {:induction false} AtMostIndex(p: seq<int>, n: nat, i: nat)
    requires i < |p| == n && p[n - 1] < n && forall j, k :: 0 <= j < k < n ==> p[j] < p[k]
    ensures p[i] <= i
    decreases n - i
  {
    if i + 1 < n {
      AtMostIndex(p, n, i + 1);
    }
  }

  // ----- rearranging keeps the multiset

  ghost function Where<T>(s: seq<T>, v: T): set<int> {
    set i | 0 <= i < |s| && s[i] == v
  }

  lemma {:induction false} CountIsWhere<T>(s: seq<T>, v: T)
    ensures multiset(s)[v] == |Where(s, v)|
  {
    if s != [] {
      var t := s[..|s| - 1];
      assert s == t + [s[|s| - 1]];
      CountIsWhere(t, v);
      assert Where(s, v) == Where(t, v) + if s[|s| - 1] == v then {|s| - 1} else {};
    }
  }

  lemma AnElement<T>(a: set<T>) returns (i: T)
    requires a != {}
    ensures i in a
  {
    i :| i in a;
  }

  lemma {:induction false} ImageSize(a: set<int>, p: seq<int>)
    requires forall i :: i in a ==> 0 <= i < |p|
    requires forall i, j :: 0 <= i < j < |p| ==> p[i] != p[j]
    ensures |set i | i in a :: p[i]| == |a|
    decreases |a|
  {
    if a != {} {
      var i := AnElement(a);
      var rest := a - {i};
      ImageSize(rest, p);
      assert (set k | k in a :: p[k]) == (set k | k in rest :: p[k]) + {p[i]};
      forall k | k in rest ensures p[k] != p[i] {
        assert if k < i then p[k] != p[i] else p[i] != p[k];
      }
    }
  }

  lemma RearrangedIsPermuted<T>(s: seq<T>, p: seq<int>)
    requires IsPermutation(p, |s|)
    ensures multiset(Rearranged(s, p)) == multiset(s)
  {
    var t := Rearranged(s, p);
    forall v ensures multiset(t)[v] == multiset(s)[v] {
      CountIsWhere(s, v);
      CountIsWhere(t, v);
      ImageSize(Where(t, v), p);
      forall i | i in Where(s, v) ensures i in set k | k in Where(t, v) :: p[k] {
        var k := PermutationIsOnto(p, |s|, i);
        assert k in Where(t, v);
      }
      assert (set k | k in Where(t, v) :: p[k]) == Where(s, v);
    }
  }

  /** Two permutations composed. */
  lemma ComposedPermutation(p: seq<int>, q: seq<int>, n: nat)
    requires IsPermutation(p, n) && IsPermutation(q, n)
    ensures IsPermutation(Rearranged(p, q), n)
  {
  }

  // ----- a sorted arrangement is unique up to equal elements

  ghost predicate TotalPreorder<T(!new)>(le: (T, T) -> bool) {
    && (forall a, b :: le(a, b) || le(b, a))
    && forall a, b, c :: le(a, b) && le(b, c) ==> le(a, c)
  }

  ghost predicate SortedBy<T>(s: seq<T>, le: (T, T) -> bool) {
    forall i, j :: 0 <= i < j < |s| ==> le(s[i], s[j])
  }

  /** Two sorted arrangements of the same sequence have equivalent elements at every position. */
  lemma SortedArrangementsAgree<T(!new)>(s: seq<T>, p: seq<int>, q: seq<int>, le: (T, T) -> bool, j: nat)
    requires IsPermutation(p, |s|) && IsPermutation(q, |s|) && TotalPreorder(le)
    requires SortedBy(Rearranged(s, p), le) && SortedBy(Rearranged(s, q), le) && j < |s|
    ensures le(s[p[j]], s[q[j]])
  {
    if !le(s[p[j]], s[q[j]]) {
      var a, b := q[..j + 1], p[..j];
      ElementCount(a);
      ElementCount(b);
      var sa, sb := set i | 0 <= i < |a| :: a[i], set i | 0 <= i < |b| :: b[i];
      forall v | v in sa ensures v in sb {
        var k :| 0 <= k < |a| && a[k] == v;
        var m := PermutationIsOnto(p, |s|, v);
        assert le(Rearranged(s, q)[k], Rearranged(s, q)[j]);
        assert m < j;
        assert b[m] == v;
      }
      SubsetOfEqualSize(sa, sb);
    }
  }
}
