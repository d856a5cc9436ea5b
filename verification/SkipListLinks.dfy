/** Linking a new node into its chains and unlinking a node from them, one level at a time. */
module SkipListLinks {
  import opened SkipListNode
  import opened SkipListChain
  import opened SkipListContents

  ghost predicate Shape(ns: Nodes, order: seq<PageId>, hs: seq<int>) {
    && |order| == |hs| >= 2 && Distinct(order) && Present(ns, order)
    && hs[0] == LEVELS && hs[|hs| - 1] == LEVELS
    && (forall p :: 0 <= p < |hs| ==> 1 <= hs[p] <= LEVELS)
    && (forall p :: 0 < p < |hs| ==> hs[p] == ns[order[p]].level)
    && (forall l :: 0 <= l < LEVELS ==> LinkedAt(ns, order, hs, l))
  }

  ghost predicate Holds(ns: Nodes, order: seq<PageId>, es: Blocks) {
    && |es| == |order|
    && forall p :: 0 <= p < |order| ==> order[p] in ns && es[p] == ns[order[p]].entries
  }

  lemma KeepsLinked(ns: Nodes, ns': Nodes, order: seq<PageId>, hs: seq<int>, l: int)
    requires |order| == |hs| && Present(ns, order) && 0 <= l < LEVELS
    requires LinkedAt(ns, order, hs, l) && KeptLinks(ns, ns', order, l)
    ensures LinkedAt(ns', order, hs, l)
  {
    forall p | 0 <= p < |order| - 1 && hs[p] > l ensures LinkOk(ns', order, hs, l, p) {
      assert LinkOk(ns, order, hs, l, p);
      var q :| IsNext(hs, p, q, l) && ns[order[p]].forward[l] == order[q];
    }
  }

  /** Same levels and entries, whatever happened to the links. */
  ghost predicate SameNodes(ns: Nodes, ns': Nodes) {
    && ns'.Keys == ns.Keys
    && forall id :: id in ns ==>
         && ns'[id].level == ns[id].level && ns'[id].entries == ns[id].entries
         && |ns'[id].forward| == |ns[id].forward|
  }

  // ---- in ----

  /** One turn of the loop in `newNodeAndUpdateChain`. */
  function LinkNode(ns: Nodes, c: PageId, id: PageId, l: nat): Nodes
    requires c in ns && id in ns && l < |ns[c].forward| && l < |ns[id].forward|
  {
    var n := ns[c];
    ns[id := ns[id].(forward := ns[id].forward[l := n.forward[l]])]
      [c := n.(forward := n.forward[l := id], lsn := n.lsn + 1)]
  }

  /** The chains below `i` already lead through the new node at `h + 1`, the others not yet. */
  ghost predicate LinkedBelow(ns: Nodes, order: seq<PageId>, hs: seq<int>, h: nat, id: PageId, level: int, i: int)
    requires |order| == |hs| && h < |order|
  {
    && Present(ns, order) && id in ns && |ns[id].forward| == LEVELS
    && Present(ns, Inserted(order, h, id))
    && (forall l :: 0 <= l < i && l < LEVELS ==> LinkedAt(ns, Inserted(order, h, id), Inserted(hs, h, level), l))
    && (forall l :: i <= l < LEVELS && 0 <= l ==> LinkedAt(ns, order, hs, l))
  }

  lemma LinkNodeOtherLevel(ns: Nodes, c: PageId, id: PageId, i: nat, order: seq<PageId>, l: int)
    requires Present(ns, order) && c in ns && id in ns && |ns[c].forward| == LEVELS == |ns[id].forward|
    requires 0 <= l < LEVELS && i < LEVELS && l != i && c != id
    ensures KeptLinks(ns, LinkNode(ns, c, id, i), order, l)
  {
  }

  lemma LinkNodeStep(ns: Nodes, order: seq<PageId>, hs: seq<int>, h: nat, id: PageId, level: int, i: nat, c: nat)
    requires |order| == |hs| && h < |order| - 1 && Distinct(order) && id !in order
    requires LinkedBelow(ns, order, hs, h, id, level, i) && i < level <= LEVELS && LastBelow(hs, h + 1, i, c)
    ensures var ns' := LinkNode(ns, order[c], id, i);
            LinkedBelow(ns', order, hs, h, id, level, i + 1) && SameNodes(ns, ns')
  {
    var ns' := LinkNode(ns, order[c], id, i);
    var order', hs' := Inserted(order, h, id), Inserted(hs, h, level);
    assert order[c] != id;
    assert LinkedAt(ns, order, hs, i);
    LinkIn(ns, ns', order, hs, i, h, c, id, level);
    forall l | 0 <= l < i ensures LinkedAt(ns', order', hs', l) {
      LinkNodeOtherLevel(ns, order[c], id, i, order', l);
      KeepsLinked(ns, ns', order', hs', l);
    }
    forall l | i + 1 <= l < LEVELS ensures LinkedAt(ns', order, hs, l) {
      LinkNodeOtherLevel(ns, order[c], id, i, order, l);
      KeepsLinked(ns, ns', order, hs, l);
    }
  }

  lemma LinkedInAll(ns: Nodes, order: seq<PageId>, hs: seq<int>, h: nat, id: PageId, level: int)
    requires |order| == |hs| && h < |order| - 1 && id !in order
    requires LinkedBelow(ns, order, hs, h, id, level, level) && 1 <= level <= LEVELS
    ensures forall l :: 0 <= l < LEVELS ==> LinkedAt(ns, Inserted(order, h, id), Inserted(hs, h, level), l)
  {
    forall l | level <= l < LEVELS ensures LinkedAt(ns, Inserted(order, h, id), Inserted(hs, h, level), l) {
      assert LinkedAt(ns, order, hs, l);
      LinkPast(ns, ns, order, hs, l, h, id, level);
    }
  }

  lemma InsertedDistinct(order: seq<PageId>, h: nat, id: PageId)
    requires Distinct(order) && id !in order && h < |order|
    ensures Distinct(Inserted(order, h, id))
  {
  }

  /** A new node linked on all its levels gives a well-shaped list. */
  lemma ShapeWithNode(ns: Nodes, ns0: Nodes, order: seq<PageId>, hs: seq<int>, h: nat, id: PageId, level: int)
    requires Shape(ns0, order, hs) && h < |order| - 1 && id !in order && 1 <= level <= LEVELS
    requires LinkedBelow(ns, order, hs, h, id, level, level) && ns[id].level == level
    requires forall p :: 0 <= p < |order| ==> ns[order[p]].level == ns0[order[p]].level
    ensures Shape(ns, Inserted(order, h, id), Inserted(hs, h, level))
  {
    InsertedDistinct(order, h, id);
    LinkedInAll(ns, order, hs, h, id, level);
    var order', hs' := Inserted(order, h, id), Inserted(hs, h, level);
    forall p | 0 < p < |hs'| ensures hs'[p] == ns[order'[p]].level {
      if p <= h { assert order'[p] == order[p]; } else if p > h + 1 { assert order'[p] == order[p - 1]; }
    }
  }

  // ---- out ----

  /** One turn of the unlinking loop in `Remove`. */
  function UnlinkNode(ns: Nodes, c: PageId, id: PageId, l: nat): Nodes
    requires c in ns && id in ns && l < |ns[c].forward| && l < |ns[id].forward|
  {
    ns[c := ns[c].(forward := ns[c].forward[l := ns[id].forward[l]], lsn := ns[c].lsn + 1)]
  }

  lemma RemovedDistinct(order: seq<PageId>, t: nat)
    requires Distinct(order) && t < |order|
    ensures Distinct(Removed(order, t)) && order[t] !in Removed(order, t)
  {
  }

  /** The chains `lo` to `hi` already pass over the node at `t`, the others still lead through it. */
  ghost predicate UnlinkedOn(ns: Nodes, order: seq<PageId>, hs: seq<int>, t: nat, lo: int, hi: int)
    requires |order| == |hs| && t < |order|
  {
    && Present(ns, order)
    && Present(ns, Removed(order, t))
    && (forall l :: 0 <= l < LEVELS && lo <= l < hi ==> LinkedAt(ns, Removed(order, t), Removed(hs, t), l))
    && (forall l :: 0 <= l < LEVELS && !(lo <= l < hi) ==> LinkedAt(ns, order, hs, l))
  }

  lemma UnlinkNodeOtherLevel(ns: Nodes, c: PageId, id: PageId, i: nat, order: seq<PageId>, l: int)
    requires Present(ns, order) && c in ns && id in ns && |ns[c].forward| == LEVELS == |ns[id].forward|
    requires 0 <= l < LEVELS && i < LEVELS && l != i
    ensures KeptLinks(ns, UnlinkNode(ns, c, id, i), order, l)
  {
  }

  lemma UnlinkNodeStep(ns: Nodes, order: seq<PageId>, hs: seq<int>, t: nat, lo: int, hi: int, i: nat, c: nat)
    requires |order| == |hs| && t < |order| - 1 && Distinct(order) && i < LEVELS && (i == hi || i == lo - 1) && lo <= hi
    requires UnlinkedOn(ns, order, hs, t, lo, hi) && hs[t] > i && LastBelow(hs, t, i, c)
    ensures var ns' := UnlinkNode(ns, order[c], order[t], i);
            && UnlinkedOn(ns', order, hs, t, if i == hi then lo else i, if i == hi then i + 1 else hi)
            && SameNodes(ns, ns')
  {
    var ns' := UnlinkNode(ns, order[c], order[t], i);
    var order', hs' := Removed(order, t), Removed(hs, t);
    assert order[c] != order[t];
    assert LinkedAt(ns, order, hs, i);
    LinkOut(ns, ns', order, hs, i, t, c);
    forall l | 0 <= l < LEVELS && lo <= l < hi ensures LinkedAt(ns', order', hs', l) {
      UnlinkNodeOtherLevel(ns, order[c], order[t], i, order', l);
      KeepsLinked(ns, ns', order', hs', l);
    }
    forall l | 0 <= l < LEVELS && !(lo <= l < hi) && l != i ensures LinkedAt(ns', order, hs, l) {
      UnlinkNodeOtherLevel(ns, order[c], order[t], i, order, l);
      KeepsLinked(ns, ns', order, hs, l);
    }
  }

  lemma UnlinkedAll(ns: Nodes, order: seq<PageId>, hs: seq<int>, t: nat)
    requires |order| == |hs| && 0 < t < |order| - 1
    requires UnlinkedOn(ns, order, hs, t, 0, hs[t])
    ensures forall l :: 0 <= l < LEVELS ==> LinkedAt(ns, Removed(order, t), Removed(hs, t), l)
  {
    forall l | 0 <= l < LEVELS && l >= hs[t] ensures LinkedAt(ns, Removed(order, t), Removed(hs, t), l) {
      LinkAround(ns, ns, order, hs, l, t);
    }
  }

  /** A node unlinked on all its levels can go. */
  lemma ShapeWithoutNode(ns: Nodes, ns0: Nodes, order: seq<PageId>, hs: seq<int>, t: nat)
    requires Shape(ns0, order, hs) && 0 < t < |order| - 1
    requires UnlinkedOn(ns, order, hs, t, 0, hs[t])
    requires forall p :: 0 <= p < |order| ==> ns[order[p]].level == ns0[order[p]].level
    ensures Shape(ns - {order[t]}, Removed(order, t), Removed(hs, t))
  {
    var ns' := ns - {order[t]};
    var order', hs' := Removed(order, t), Removed(hs, t);
    RemovedDistinct(order, t);
    UnlinkedAll(ns, order, hs, t);
    assert Present(ns', order');
    forall l | 0 <= l < LEVELS ensures LinkedAt(ns', order', hs', l) {
      KeepsLinked(ns, ns', order', hs', l);
    }
    forall p | 0 < p < |hs'| ensures hs'[p] == ns'[order'[p]].level {
      assert order'[p] == order[if p < t then p else p + 1];
    }
  }

  // ---- contents ----

  /** Changing what one node holds does not touch the chains. */
  lemma EntriesKeepShape(ns: Nodes, order: seq<PageId>, hs: seq<int>, id: PageId, n: Node)
    requires Shape(ns, order, hs) && id in ns && n.level == ns[id].level && n.forward == ns[id].forward
    ensures Shape(ns[id := n], order, hs)
  {
    var ns' := ns[id := n];
    forall l | 0 <= l < LEVELS ensures LinkedAt(ns', order, hs, l) { KeepsLinked(ns, ns', order, hs, l); }
  }

  lemma EntriesHeld(ns: Nodes, order: seq<PageId>, es: Blocks, p: nat, n: Node)
    requires Holds(ns, order, es) && Distinct(order) && p < |order|
    ensures Holds(ns[order[p] := n], order, es[p := n.entries])
  {
  }
}
