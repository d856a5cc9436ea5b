/** The level chains of a skip list.  Nodes are listed by `order` in level-0 order, from the
  * start node to the sentinel, and `hs` gives the number of chains each of them is on. */
module SkipListChain {
  import opened SkipListNode

  type PageId = int
  const LEVELS := 20

  datatype Node = Node(level: int, lsn: int, entries: seq<Entry>, forward: seq<PageId>)
  type Nodes = map<PageId, Node>

  function Inserted<T>(s: seq<T>, p: nat, x: T): (r: seq<T>)
    requires p < |s|
    ensures |r| == |s| + 1
    ensures forall i :: 0 <= i < |r| ==> r[i] == if i <= p then s[i] else if i == p + 1 then x else s[i - 1]
  {
    s[..p + 1] + [x] + s[p + 1..]
  }

  function Removed<T>(s: seq<T>, t: nat): (r: seq<T>)
    requires t < |s|
    ensures |r| == |s| - 1
    ensures forall i :: 0 <= i < |r| ==> r[i] == if i < t then s[i] else s[i + 1]
  {
    s[..t] + s[t + 1..]
  }

  ghost predicate Distinct(order: seq<PageId>) {
    forall i, j :: 0 <= i < j < |order| ==> order[i] != order[j]
  }

  /** `q` is the first position behind `p` that is on chain `l`. */
  ghost predicate IsNext(hs: seq<int>, p: int, q: int, l: int) {
    0 <= p < q < |hs| && hs[q] > l && forall r :: p < r < q ==> hs[r] <= l
  }

  /** `c` is the last position below `bound` that is on chain `l`. */
  ghost predicate LastBelow(hs: seq<int>, bound: int, l: int, c: int) {
    0 <= c < bound <= |hs| && hs[c] > l && forall r :: c < r < bound ==> hs[r] <= l
  }

  ghost predicate Present(ns: Nodes, order: seq<PageId>) {
    forall p :: 0 <= p < |order| ==> order[p] in ns && |ns[order[p]].forward| == LEVELS
  }

  /** From `p`, chain `l` goes on at the next position that is on it. */
  ghost predicate LinkOk(ns: Nodes, order: seq<PageId>, hs: seq<int>, l: int, p: int)
    requires |order| == |hs| && Present(ns, order) && 0 <= l < LEVELS && 0 <= p < |order|
  {
    exists q :: IsNext(hs, p, q, l) && ns[order[p]].forward[l] == order[q]
  }

  /** Chain `l` visits exactly the nodes of level above `l`, in order, up to the sentinel. */
  ghost predicate LinkedAt(ns: Nodes, order: seq<PageId>, hs: seq<int>, l: int)
    requires |order| == |hs| && Present(ns, order) && 0 <= l < LEVELS
  {
    forall p {:trigger LinkOk(ns, order, hs, l, p)} :: 0 <= p < |order| - 1 && hs[p] > l ==> LinkOk(ns, order, hs, l, p)
  }

  // ---- linking a new node in behind position p ----

  lemma NextBelow(hs: seq<int>, p: nat, h: int, r: int, q: int, l: int)
    requires p < |hs| && IsNext(hs, r, q, l) && q <= p
    ensures IsNext(Inserted(hs, p, h), r, q, l)
  {
  }

  lemma NextAcross(hs: seq<int>, p: nat, h: int, r: int, q: int, l: int)
    requires p < |hs| && IsNext(hs, r, q, l) && r <= p < q && h <= l
    ensures IsNext(Inserted(hs, p, h), r, q + 1, l)
  {
  }

  lemma NextAbove(hs: seq<int>, p: nat, h: int, r: int, q: int, l: int)
    requires p < |hs| && IsNext(hs, r, q, l) && p < r
    ensures IsNext(Inserted(hs, p, h), r + 1, q + 1, l)
  {
  }

  lemma NextToNew(hs: seq<int>, p: nat, h: int, c: int, l: int)
    requires p < |hs| && LastBelow(hs, p + 1, l, c) && h > l
    ensures IsNext(Inserted(hs, p, h), c, p + 1, l)
  {
  }

  lemma NextFromNew(hs: seq<int>, p: nat, h: int, c: int, q: int, l: int)
    requires p < |hs| && LastBelow(hs, p + 1, l, c) && IsNext(hs, c, q, l)
    ensures p < q && IsNext(Inserted(hs, p, h), p + 1, q + 1, l)
  {
  }

  ghost predicate SameLinks(ns: Nodes, ns': Nodes, order: seq<PageId>, l: int, except: PageId)
    requires Present(ns, order) && 0 <= l < LEVELS
  {
    && Present(ns', order)
    && forall p :: 0 <= p < |order| && order[p] != except ==> ns'[order[p]].forward[l] == ns[order[p]].forward[l]
  }

  ghost predicate KeptLinks(ns: Nodes, ns': Nodes, order: seq<PageId>, l: int)
    requires Present(ns, order) && 0 <= l < LEVELS
  {
    && Present(ns', order)
    && forall p :: 0 <= p < |order| ==> ns'[order[p]].forward[l] == ns[order[p]].forward[l]
  }

  /** The corner now leads to the new node, and the new node to where the corner led. */
  lemma LinkIn(ns: Nodes, ns': Nodes, order: seq<PageId>, hs: seq<int>, l: int, p: nat, c: nat, id: PageId, h: int)
    requires |order| == |hs| && p < |order| - 1 && Distinct(order) && Present(ns, order) && 0 <= l < LEVELS
    requires LinkedAt(ns, order, hs, l) && LastBelow(hs, p + 1, l, c) && h > l
    requires SameLinks(ns, ns', order, l, order[c]) && id in ns' && |ns'[id].forward| == LEVELS
    requires ns'[order[c]].forward[l] == id && ns'[id].forward[l] == ns[order[c]].forward[l]
    ensures Present(ns', Inserted(order, p, id))
    ensures LinkedAt(ns', Inserted(order, p, id), Inserted(hs, p, h), l)
  {
    var order', hs' := Inserted(order, p, id), Inserted(hs, p, h);
    forall r | 0 <= r < |order'| - 1 && hs'[r] > l ensures LinkOk(ns', order', hs', l, r) {
      if r == c {
        NextToNew(hs, p, h, c, l);
      } else if r == p + 1 {
        assert LinkOk(ns, order, hs, l, c);
        var q :| IsNext(hs, c, q, l) && ns[order[c]].forward[l] == order[q];
        NextFromNew(hs, p, h, c, q, l);
      } else {
        LinkElsewhere(ns, ns', order, hs, l, p, c, id, h, r);
      }
    }
  }

  lemma LinkElsewhere(ns: Nodes, ns': Nodes, order: seq<PageId>, hs: seq<int>, l: int, p: nat, c: nat,
                      id: PageId, h: int, r: nat)
    requires |order| == |hs| && p < |order| - 1 && Distinct(order) && Present(ns, order) && 0 <= l < LEVELS
    requires LinkedAt(ns, order, hs, l) && LastBelow(hs, p + 1, l, c)
    requires SameLinks(ns, ns', order, l, order[c]) && id in ns' && |ns'[id].forward| == LEVELS
    requires r < |order| && r != c && r != p + 1 && Inserted(hs, p, h)[r] > l
    ensures Present(ns', Inserted(order, p, id))
    ensures LinkOk(ns', Inserted(order, p, id), Inserted(hs, p, h), l, r)
  {
    var r0 := if r <= p then r else r - 1;
    assert LinkOk(ns, order, hs, l, r0);
    var q :| IsNext(hs, r0, q, l) && ns[order[r0]].forward[l] == order[q];
    if r <= p { NextBelow(hs, p, h, r, q, l); } else { NextAbove(hs, p, h, r0, q, l); }
  }

  /** Chains above the new node's level pass over it. */
  lemma LinkPast(ns: Nodes, ns': Nodes, order: seq<PageId>, hs: seq<int>, l: int, p: nat, id: PageId, h: int)
    requires |order| == |hs| && p < |order| - 1 && Present(ns, order) && 0 <= l < LEVELS
    requires LinkedAt(ns, order, hs, l) && h <= l
    requires KeptLinks(ns, ns', order, l) && id in ns' && |ns'[id].forward| == LEVELS
    ensures Present(ns', Inserted(order, p, id))
    ensures LinkedAt(ns', Inserted(order, p, id), Inserted(hs, p, h), l)
  {
    var order', hs' := Inserted(order, p, id), Inserted(hs, p, h);
    forall r | 0 <= r < |order'| - 1 && hs'[r] > l ensures LinkOk(ns', order', hs', l, r) {
      LinkPastOne(ns, ns', order, hs, l, p, id, h, r);
    }
  }

  lemma LinkPastOne(ns: Nodes, ns': Nodes, order: seq<PageId>, hs: seq<int>, l: int, p: nat, id: PageId, h: int, r: nat)
    requires |order| == |hs| && p < |order| - 1 && Present(ns, order) && 0 <= l < LEVELS
    requires LinkedAt(ns, order, hs, l) && h <= l
    requires KeptLinks(ns, ns', order, l) && id in ns' && |ns'[id].forward| == LEVELS
    requires r < |order| && Inserted(hs, p, h)[r] > l
    ensures Present(ns', Inserted(order, p, id))
    ensures LinkOk(ns', Inserted(order, p, id), Inserted(hs, p, h), l, r)
  {
    var r0 := if r <= p then r else r - 1;
    assert LinkOk(ns, order, hs, l, r0);
    var q :| IsNext(hs, r0, q, l) && ns[order[r0]].forward[l] == order[q];
    NextPast(hs, p, h, r0, q, l);
  }

  lemma NextPast(hs: seq<int>, p: nat, h: int, r: int, q: int, l: int)
    requires p < |hs| && IsNext(hs, r, q, l) && h <= l
    ensures IsNext(Inserted(hs, p, h), if r <= p then r else r + 1, if q <= p then q else q + 1, l)
  {
    if r > p { NextAbove(hs, p, h, r, q, l); }
    else if q <= p { NextBelow(hs, p, h, r, q, l); }
    else { NextAcross(hs, p, h, r, q, l); }
  }

  // ---- taking the node at position t out ----

  lemma NextWithout(hs: seq<int>, t: nat, r: int, q: int, l: int)
    requires t < |hs| && IsNext(hs, r, q, l) && r != t && q != t
    ensures IsNext(Removed(hs, t), if r < t then r else r - 1, if q < t then q else q - 1, l)
  {
  }

  lemma NextOver(hs: seq<int>, t: nat, c: int, q: int, l: int)
    requires t < |hs| && LastBelow(hs, t, l, c) && IsNext(hs, t, q, l)
    ensures IsNext(Removed(hs, t), c, q - 1, l)
  {
  }

  /** The node's predecessor on the chain now leads to where the node led. */
  lemma LinkOut(ns: Nodes, ns': Nodes, order: seq<PageId>, hs: seq<int>, l: int, t: nat, c: nat)
    requires |order| == |hs| && t < |order| - 1 && Distinct(order) && Present(ns, order) && 0 <= l < LEVELS
    requires LinkedAt(ns, order, hs, l) && hs[t] > l && LastBelow(hs, t, l, c)
    requires SameLinks(ns, ns', order, l, order[c]) && ns'[order[c]].forward[l] == ns[order[t]].forward[l]
    ensures LinkedAt(ns', Removed(order, t), Removed(hs, t), l)
  {
    var order', hs' := Removed(order, t), Removed(hs, t);
    forall r | 0 <= r < |order'| - 1 && hs'[r] > l ensures LinkOk(ns', order', hs', l, r) {
      if r == c {
        assert LinkOk(ns, order, hs, l, t);
        var q :| IsNext(hs, t, q, l) && ns[order[t]].forward[l] == order[q];
        NextOver(hs, t, c, q, l);
      } else {
        LinkOutElsewhere(ns, ns', order, hs, l, t, c, r);
      }
    }
  }

  lemma LinkOutElsewhere(ns: Nodes, ns': Nodes, order: seq<PageId>, hs: seq<int>, l: int, t: nat, c: nat, r: nat)
    requires |order| == |hs| && t < |order| - 1 && Distinct(order) && Present(ns, order) && 0 <= l < LEVELS
    requires LinkedAt(ns, order, hs, l) && hs[t] > l && LastBelow(hs, t, l, c)
    requires SameLinks(ns, ns', order, l, order[c])
    requires r < |order| - 2 && r != c && Removed(hs, t)[r] > l
    ensures Present(ns', Removed(order, t)) && LinkOk(ns', Removed(order, t), Removed(hs, t), l, r)
  {
    var r0 := if r < t then r else r + 1;
    assert LinkOk(ns, order, hs, l, r0);
    var q :| IsNext(hs, r0, q, l) && ns[order[r0]].forward[l] == order[q];
    NextWithout(hs, t, r0, q, l);
  }

  /** Chains the node was not on stay as they are. */
  lemma LinkAround(ns: Nodes, ns': Nodes, order: seq<PageId>, hs: seq<int>, l: int, t: nat)
    requires |order| == |hs| && t < |order| - 1 && Present(ns, order) && 0 <= l < LEVELS
    requires LinkedAt(ns, order, hs, l) && hs[t] <= l
    requires Present(ns, Removed(order, t)) && KeptLinks(ns, ns', Removed(order, t), l)
    ensures LinkedAt(ns', Removed(order, t), Removed(hs, t), l)
  {
    var order', hs' := Removed(order, t), Removed(hs, t);
    forall r | 0 <= r < |order'| - 1 && hs'[r] > l ensures LinkOk(ns', order', hs', l, r) {
      var r0 := if r < t then r else r + 1;
      assert LinkOk(ns, order, hs, l, r0);
      var q :| IsNext(hs, r0, q, l) && ns[order[r0]].forward[l] == order[q];
      NextWithout(hs, t, r0, q, l);
    }
  }
}
