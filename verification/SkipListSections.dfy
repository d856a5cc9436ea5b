/** The update sections of the skip list as single steps.  A thread performs each of them while
  * it holds the latches of every node the section changes. */
module SkipListSections {
  import opened SkipListNode
  import opened SkipListChain
  import opened SkipListContents
  import opened SkipListLinks
  import opened SkipList

  datatype View = View(order: seq<PageId>, hs: seq<int>, es: Blocks)

  ghost predicate Sound(ns: Nodes, v: View) {
    ListOk(ns, v.order, v.hs, v.es)
  }

  /** What every section does to every node it leaves in place: either nothing or the LSN goes
    * up, the level stays, and the smallest key never goes down. */
  ghost predicate Evolved(n: Node, n': Node) {
    && (n' == n || n'.lsn > n.lsn)
    && n'.level == n.level
    && (n.entries != [] ==> n'.entries != [] && n'.entries[0].key >= n.entries[0].key)
  }

  ghost predicate Evolves(ns: Nodes, ns': Nodes) {
    forall id {:trigger id in ns'} :: id in ns && id in ns' ==> Evolved(ns[id], ns'[id])
  }

  // ---- one entry more ----

  function PutSection(ns: Nodes, node: PageId, index: int, e: Entry): Nodes
    requires node in ns && -1 <= index < |ns[node].entries|
  {
    ns[node := ns[node].(entries := InsertAfter(ns[node].entries, index, e), lsn := ns[node].lsn + 1)]
  }

  lemma PutSectionSound(ns: Nodes, v: View, h: nat, index: nat, e: Entry)
    requires Sound(ns, v) && IsHome(v.es, e.key, h) && Neighbour(v.es[h], e.key, index)
    requires Need(e) <= LIMIT && Used(v.es[h]) + Need(e) <= CAPACITY
    ensures ns[v.order[h]].entries == v.es[h]
    ensures var ns' := PutSection(ns, v.order[h], index, e);
            var v' := v.(es := v.es[h := InsertAfter(v.es[h], index, e)]);
            Sound(ns', v') && All(v'.es) == All(v.es) + {e} && Evolves(ns, ns') && ns'.Keys == ns.Keys
  {
    var node := v.order[h];
    PutKeepsList(ns, v.order, v.hs, v.es, h, index, e, PutSection(ns, node, index, e)[node]);
  }

  // ---- one entry less ----

  function DropSection(ns: Nodes, node: PageId, index: nat): Nodes
    requires node in ns && index < |ns[node].entries|
  {
    ns[node := ns[node].(entries := RemoveAt(ns[node].entries, index), lsn := ns[node].lsn + 1)]
  }

  lemma DropSectionSound(ns: Nodes, v: View, h: nat, index: nat)
    requires Sound(ns, v) && h < |v.order| - 1 && index < |v.es[h]| && |v.es[h]| > 1 && v.es[h][index].key != INF_MIN
    ensures ns[v.order[h]].entries == v.es[h]
    ensures var ns' := DropSection(ns, v.order[h], index);
            var v' := v.(es := v.es[h := RemoveAt(v.es[h], index)]);
            Sound(ns', v') && All(v'.es) == All(v.es) - {v.es[h][index]} && Evolves(ns, ns') && ns'.Keys == ns.Keys
  {
    var node := v.order[h];
    var n := DropSection(ns, node, index)[node];
    RemoveKeepsOrdered(v.es, h, index);
    EntriesKeepShape(ns, v.order, v.hs, node, n);
    EntriesHeld(ns, v.order, v.es, h, n);
    assert BlockOk(v.es[h]);
    RemoveKeepsBlock(v.es[h], index);
  }

  // ---- a split ----

  predicate Linkable(ns: Nodes, cs: seq<PageId>) {
    forall k :: 0 <= k < |cs| ==> cs[k] in ns && |ns[cs[k]].forward| == LEVELS
  }

  /** The chain update after its first `i` turns. */
  ghost function LinkUpTo(ns: Nodes, cs: seq<PageId>, id: PageId, i: nat): (r: Nodes)
    requires i <= |cs| <= LEVELS && Linkable(ns, cs) && id in ns && |ns[id].forward| == LEVELS
    ensures SameNodes(ns, r)
  {
    if i == 0 then ns else LinkNode(LinkUpTo(ns, cs, id, i - 1), cs[i - 1], id, i - 1)
  }

  ghost predicate AreCorners(v: View, h: nat, cs: seq<PageId>) {
    && h < |v.order| - 1
    && forall l :: 0 <= l < |cs| ==> CornerIs(v.order, v.hs, h + 1, l, cs[l])
  }

  lemma CornersLinkable(ns: Nodes, v: View, h: nat, cs: seq<PageId>)
    requires Present(ns, v.order) && AreCorners(v, h, cs)
    ensures Linkable(ns, cs)
  {
    forall k | 0 <= k < |cs| ensures cs[k] in ns && |ns[cs[k]].forward| == LEVELS {
      var c := CornerBelow(v.order, v.hs, h + 1, k, cs[k]);
    }
  }

  lemma {:induction false} LinkUpToLinks(ns: Nodes, v: View, h: nat, cs: seq<PageId>, id: PageId, i: nat)
    requires h < |v.order| - 1 && |v.order| == |v.hs| && Distinct(v.order) && id !in v.order
    requires Linkable(ns, cs) && AreCorners(v, h, cs) && i <= |cs| <= LEVELS
    requires LinkedBelow(ns, v.order, v.hs, h, id, |cs|, 0)
    ensures LinkedBelow(LinkUpTo(ns, cs, id, i), v.order, v.hs, h, id, |cs|, i)
  {
    if i > 0 {
      LinkUpToLinks(ns, v, h, cs, id, i - 1);
      LinkOneUp(LinkUpTo(ns, cs, id, i - 1), v, h, cs, id, i - 1);
    }
  }

  lemma {:induction false} LinkOneUp(ns: Nodes, v: View, h: nat, cs: seq<PageId>, id: PageId, i: nat)
    requires h < |v.order| - 1 && |v.order| == |v.hs| && Distinct(v.order) && id !in v.order
    requires AreCorners(v, h, cs) && i < |cs| <= LEVELS && cs[i] in ns && |ns[cs[i]].forward| == LEVELS
    requires LinkedBelow(ns, v.order, v.hs, h, id, |cs|, i)
    ensures LinkedBelow(LinkNode(ns, cs[i], id, i), v.order, v.hs, h, id, |cs|, i + 1)
  {
    assert CornerIs(v.order, v.hs, h + 1, i, cs[i]);
    var c := CornerBelow(v.order, v.hs, h + 1, i, cs[i]);
    LinkNodeStep(ns, v.order, v.hs, h, id, |cs|, i, c);
  }

  /** Every corner's LSN goes up, and nothing else but the new node changes. */
  lemma {:induction false} LinkUpToRaises(ns: Nodes, cs: seq<PageId>, id: PageId, i: nat, x: PageId)
    requires i <= |cs| <= LEVELS && Linkable(ns, cs) && id in ns && |ns[id].forward| == LEVELS
    requires x in ns && x != id
    ensures x in cs[..i] ==> LinkUpTo(ns, cs, id, i)[x].lsn > ns[x].lsn
    ensures x !in cs[..i] ==> LinkUpTo(ns, cs, id, i)[x] == ns[x]
  {
    if i > 0 {
      LinkUpToRaises(ns, cs, id, i - 1, x);
      assert cs[..i] == cs[..i - 1] + [cs[i - 1]];
    }
  }

  ghost function SplitLinks(ns: Nodes, cs: seq<PageId>, node: PageId, id: PageId, split: nat): (r: Nodes)
    requires 1 <= |cs| <= LEVELS && Linkable(ns, cs) && node in ns && id !in ns && split + 1 < |ns[node].entries|
    ensures SameNodes(ns[id := NewNode(|cs|, ns[node].entries[split + 1])], r)
  {
    LinkUpTo(ns[id := NewNode(|cs|, ns[node].entries[split + 1])], cs, id, |cs|)
  }

  ghost function SplitSection(ns: Nodes, cs: seq<PageId>, node: PageId, id: PageId, split: nat): (r: Nodes)
    requires 1 <= |cs| <= LEVELS && Linkable(ns, cs) && node in ns && id !in ns && split + 1 < |ns[node].entries|
    ensures r.Keys == ns.Keys + {id}
  {
    Divided(SplitLinks(ns, cs, node, id, split), node, id, ns[node].entries, split)
  }

  function SplitView(v: View, h: nat, id: PageId, level: int, split: nat): View
    requires h < |v.order| == |v.hs| == |v.es| && split < |v.es[h]|
  {
    View(Inserted(v.order, h, id), Inserted(v.hs, h, level), SplitBlocks(v.es, h, split))
  }

  lemma SplitSectionSound(ns: Nodes, v: View, h: nat, cs: seq<PageId>, id: PageId, split: nat)
    requires Sound(ns, v) && AreCorners(v, h, cs) && 1 <= |cs| <= LEVELS && id !in ns && split + 1 < |v.es[h]|
    ensures Linkable(ns, cs) && ns[v.order[h]].entries == v.es[h]
    ensures Sound(SplitSection(ns, cs, v.order[h], id, split), SplitView(v, h, id, |cs|, split))
    ensures All(SplitView(v, h, id, |cs|, split).es) == All(v.es)
  {
    CornersLinkable(ns, v, h, cs);
    var first := v.es[h][split + 1];
    var ns1 := ns[id := NewNode(|cs|, first)];
    NewNodeUnlinked(ns, ns1, v.order, v.hs, h, id, |cs|);
    LinkUpToLinks(ns1, v, h, cs, id, |cs|);
    SplitKeepsList(ns, SplitLinks(ns, cs, v.order[h], id, split), v.order, v.hs, v.es, h, split, id, |cs|, first);
  }

  lemma SplitSectionEvolves(ns: Nodes, cs: seq<PageId>, node: PageId, id: PageId, split: nat)
    requires 1 <= |cs| <= LEVELS && Linkable(ns, cs) && node in ns && id !in ns && split + 1 < |ns[node].entries|
    requires cs[0] == node
    ensures Evolves(ns, SplitSection(ns, cs, node, id, split))
    ensures SplitSection(ns, cs, node, id, split)[node].lsn > ns[node].lsn
    ensures forall x :: x in ns && x !in cs ==> SplitSection(ns, cs, node, id, split)[x] == ns[x]
  {
    var ns1 := ns[id := NewNode(|cs|, ns[node].entries[split + 1])];
    assert cs[..|cs|] == cs;
    forall x | x in ns
      ensures Evolved(ns[x], SplitSection(ns, cs, node, id, split)[x])
      ensures x in cs ==> SplitSection(ns, cs, node, id, split)[x].lsn > ns[x].lsn
      ensures x !in cs ==> SplitSection(ns, cs, node, id, split)[x] == ns[x]
    {
      LinkUpToRaises(ns1, cs, id, |cs|, x);
    }
  }

  // ---- an unlink ----

  ghost function UnlinkUpTo(ns: Nodes, ps: seq<PageId>, id: PageId, i: nat): (r: Nodes)
    requires i <= |ps| <= LEVELS && Linkable(ns, ps) && id in ns && |ns[id].forward| == LEVELS
    ensures SameNodes(ns, r)
  {
    if i == 0 then ns else UnlinkNode(UnlinkUpTo(ns, ps, id, i - 1), ps[i - 1], id, i - 1)
  }

  ghost predicate ArePredecessors(v: View, t: nat, ps: seq<PageId>) {
    && 0 < t < |v.order| - 1
    && forall l :: 0 <= l < |ps| ==> CornerIs(v.order, v.hs, t, l, ps[l])
  }

  lemma {:induction false} UnlinkUpToUnlinks(ns: Nodes, v: View, t: nat, ps: seq<PageId>, i: nat)
    requires |v.order| == |v.hs| && Distinct(v.order) && ArePredecessors(v, t, ps) && Linkable(ns, ps)
    requires i <= |ps| <= LEVELS && |ps| <= v.hs[t] && v.order[t] in ns && |ns[v.order[t]].forward| == LEVELS
    requires UnlinkedOn(ns, v.order, v.hs, t, 0, 0)
    ensures UnlinkedOn(UnlinkUpTo(ns, ps, v.order[t], i), v.order, v.hs, t, 0, i)
  {
    if i > 0 {
      UnlinkUpToUnlinks(ns, v, t, ps, i - 1);
      var c := CornerBelow(v.order, v.hs, t, i - 1, ps[i - 1]);
      UnlinkNodeStep(UnlinkUpTo(ns, ps, v.order[t], i - 1), v.order, v.hs, t, 0, i - 1, i - 1, c);
    }
  }

  lemma {:induction false} UnlinkUpToRaises(ns: Nodes, ps: seq<PageId>, id: PageId, i: nat, x: PageId)
    requires i <= |ps| <= LEVELS && Linkable(ns, ps) && id in ns && |ns[id].forward| == LEVELS && x in ns
    ensures x in ps[..i] ==> UnlinkUpTo(ns, ps, id, i)[x].lsn > ns[x].lsn
    ensures x !in ps[..i] ==> UnlinkUpTo(ns, ps, id, i)[x] == ns[x]
  {
    if i > 0 {
      UnlinkUpToRaises(ns, ps, id, i - 1, x);
      assert ps[..i] == ps[..i - 1] + [ps[i - 1]];
    }
  }

  ghost function UnlinkSection(ns: Nodes, ps: seq<PageId>, id: PageId): (r: Nodes)
    requires 1 <= |ps| <= LEVELS && Linkable(ns, ps) && id in ns && |ns[id].forward| == LEVELS
    ensures r.Keys == ns.Keys - {id}
  {
    UnlinkUpTo(ns, ps, id, |ps|) - {id}
  }

  function UnlinkView(v: View, t: nat): View
    requires t < |v.order| == |v.hs| == |v.es|
  {
    View(Removed(v.order, t), Removed(v.hs, t), Removed(v.es, t))
  }

  lemma UnlinkSectionSound(ns: Nodes, v: View, t: nat, ps: seq<PageId>)
    requires Sound(ns, v) && ArePredecessors(v, t, ps) && |ps| == v.hs[t] && |v.es[t]| == 1
    ensures Linkable(ns, ps) && |ps| <= LEVELS
    ensures Sound(UnlinkSection(ns, ps, v.order[t]), UnlinkView(v, t))
    ensures All(UnlinkView(v, t).es) == All(v.es) - {v.es[t][0]}
  {
    forall k | 0 <= k < |ps| ensures ps[k] in ns && |ns[ps[k]].forward| == LEVELS {
      var c := CornerBelow(v.order, v.hs, t, k, ps[k]);
    }
    UnlinkUpToUnlinks(ns, v, t, ps, |ps|);
    UnlinkKeepsList(ns, UnlinkUpTo(ns, ps, v.order[t], |ps|), v.order, v.hs, v.es, t);
  }

  lemma UnlinkSectionEvolves(ns: Nodes, ps: seq<PageId>, id: PageId)
    requires 1 <= |ps| <= LEVELS && Linkable(ns, ps) && id in ns && |ns[id].forward| == LEVELS
    ensures Evolves(ns, UnlinkSection(ns, ps, id))
    ensures forall x :: x in ns && x != id && x !in ps ==> UnlinkSection(ns, ps, id)[x] == ns[x]
  {
    assert ps[..|ps|] == ps;
    forall x | x in ns && x != id
      ensures Evolved(ns[x], UnlinkSection(ns, ps, id)[x])
      ensures x !in ps ==> UnlinkSection(ns, ps, id)[x] == ns[x]
    {
      UnlinkUpToRaises(ns, ps, id, |ps|, x);
    }
  }
}
