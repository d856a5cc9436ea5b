/** Disjoint intervals that add up to the length of the range holding them leave no gap in it. */
module Tiling {

  datatype Interval = Interval(start: int, len: nat)

  predicate Inside(v: Interval, k: int) { v.start <= k < v.start + v.len }

  predicate Apart(v: Interval, w: Interval) {
    v.start + v.len <= w.start || w.start + w.len <= v.start
  }

  ghost predicate AllApart(vs: seq<Interval>) {
    forall i, j :: 0 <= i < j < |vs| ==> Apart(vs[i], vs[j])
  }

  ghost predicate AllWithin(vs: seq<Interval>, lo: int, hi: int) {
    forall i :: 0 <= i < |vs| && vs[i].len > 0 ==> lo <= vs[i].start && vs[i].start + vs[i].len <= hi
  }

  ghost predicate Hit(vs: seq<Interval>, k: int) {
    exists i :: 0 <= i < |vs| && Inside(vs[i], k)
  }

  function Total(vs: seq<Interval>): nat {
    if vs == [] then 0 else Total(vs[..|vs| - 1]) + vs[|vs| - 1].len
  }

  function Range(lo: int, hi: int): (r: set<int>)
    ensures forall k :: k in r <==> lo <= k < hi
    ensures |r| == if lo <= hi then hi - lo else 0
    decreases hi - lo
  {
    if lo >= hi then {} else Range(lo, hi - 1) + {hi - 1}
  }

  function Points(vs: seq<Interval>): set<int> {
    if vs == [] then {}
    else
      var v := vs[|vs| - 1];
      Points(vs[..|vs| - 1]) + Range(v.start, v.start + v.len)
  }

  lemma {:induction false} PointsAreHits(vs: seq<Interval>, k: int)
    ensures k in Points(vs) <==> Hit(vs, k)
  {
    if vs != [] {
      var n := |vs| - 1;
      PointsAreHits(vs[..n], k);
      if Hit(vs, k) && !Inside(vs[n], k) {
        var i :| 0 <= i < |vs| && Inside(vs[i], k);
        assert Inside(vs[..n][i], k);
      }
      if Hit(vs[..n], k) {
        var i :| 0 <= i < n && Inside(vs[..n][i], k);
        assert Inside(vs[i], k);
      }
    }
  }

  lemma DisjointSizes(a: set<int>, b: set<int>)
    requires a * b == {}
    ensures |a + b| == |a| + |b|
  {
  }

  lemma {:induction false} PointsCount(vs: seq<Interval>)
    requires AllApart(vs)
    ensures |Points(vs)| == Total(vs)
  {
    if vs != [] {
      var n := |vs| - 1;
      PointsCount(vs[..n]);
      var last := Range(vs[n].start, vs[n].start + vs[n].len);
      forall k | k in Points(vs[..n]) ensures k !in last {
        PointsAreHits(vs[..n], k);
        var i :| 0 <= i < n && Inside(vs[..n][i], k);
        assert Apart(vs[i], vs[n]);
      }
      DisjointSizes(Points(vs[..n]), last);
    }
  }

  lemma SubsetSameSize(a: set<int>, b: set<int>)
    requires a <= b && |a| == |b|
    ensures a == b
  {
    DisjointSizes(a, b - a);
    assert a + (b - a) == b;
  }

  lemma {:induction false} IntervalsTile(vs: seq<Interval>, lo: int, hi: int, k: int)
    requires AllApart(vs) && AllWithin(vs, lo, hi) && lo <= hi && Total(vs) == hi - lo
    ensures lo <= k < hi <==> Hit(vs, k)
  {
    PointsCount(vs);
    forall p | p in Points(vs) ensures p in Range(lo, hi) {
      PointsAreHits(vs, p);
    }
    SubsetSameSize(Points(vs), Range(lo, hi));
    PointsAreHits(vs, k);
  }
}
