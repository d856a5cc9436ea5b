/** The skip list: search with corner collection, insertion with node split, removal with
  * node unlink.  One caller at a time; interleaved callers are the subject of
  * `OptimisticValidation`. */
module SkipList {
  import opened SkipListNode
  import opened SkipListChain
  import opened SkipListContents
  import opened SkipListLinks

  const INVALID_PAGE: PageId := -1
  const NOT_FOUND := 0xffff_ffff_ffff_ffff

  /** `id` is the last node below position `bound` on chain `l`. */
  ghost predicate CornerIs(order: seq<PageId>, hs: seq<int>, bound: int, l: int, id: PageId) {
    exists c :: LastBelow(hs, bound, l, c) && bound <= |order| && order[c] == id
  }

  lemma NoNextBelow(hs: seq<int>, p: int, q: int, l: int, h: int)
    requires IsNext(hs, p, q, l) && hs[p] > l && p <= h < q
    ensures LastBelow(hs, h + 1, l, p)
  {
  }

  lemma NextIsLastBelow(hs: seq<int>, p: int, q: int, l: int)
    requires IsNext(hs, p, q, l) && hs[p] > l
    ensures LastBelow(hs, q, l, p)
  {
  }

  /** On the lowest chain neighbours are neighbours in `order`. */
  lemma LowestLevel(ns: Nodes, order: seq<PageId>, hs: seq<int>, h: nat, p: nat, q: int)
    requires Shape(ns, order, hs) && LastBelow(hs, h + 1, 0, p)
    ensures p == h && (IsNext(hs, q, p, 0) ==> q == h - 1)
  {
    assert hs[h] >= 1 && (h > 0 ==> hs[h - 1] >= 1);
  }

  lemma NextOf(ns: Nodes, order: seq<PageId>, hs: seq<int>, l: int, p: nat) returns (n: nat)
    requires Shape(ns, order, hs) && 0 <= l < LEVELS && p < |order| - 1 && hs[p] > l
    ensures IsNext(hs, p, n, l) && ns[order[p]].forward[l] == order[n]
  {
    assert LinkedAt(ns, order, hs, l);
    assert LinkOk(ns, order, hs, l, p);
    n :| IsNext(hs, p, n, l) && ns[order[p]].forward[l] == order[n];
  }

  class SkipList {
    var nodes: Nodes
    const start: PageId
    const sentinel: PageId

    /** The nodes in level-0 order, the number of chains each is on, and what each holds. */
    ghost var order: seq<PageId>
    ghost var hs: seq<int>
    ghost var es: Blocks

    ghost predicate Valid()
      reads this
    {
      && ListOk(nodes, order, hs, es)
      && order[0] == start && order[|order| - 1] == sentinel
    }

    /** The entries stored, the two markers left out. */
    ghost function Contents(): set<Entry>
      reads this
    {
      set e | e in All(es) && INF_MIN < e.key < INF_MAX
    }

    /** Start node and sentinel, linked on every level. */
    constructor (startId: PageId, sentinelId: PageId, markerSize: nat)
      requires startId != sentinelId && markerSize + 4 <= LIMIT
      ensures Valid() && Contents() == {} && start == startId && sentinel == sentinelId
    {
      var least, greatest := Entry(INF_MIN, markerSize, 0), Entry(INF_MAX, markerSize, 0);
      var links := seq(LEVELS, _ => sentinelId);
      var none := seq(LEVELS, _ => INVALID_PAGE);
      nodes := map[startId := Node(1, 0, [least], links), sentinelId := Node(LEVELS, 0, [greatest], none)];
      start, sentinel := startId, sentinelId;
      order, hs, es := [startId, sentinelId], [LEVELS, LEVELS], [[least], [greatest]];
      new;
      UsedOne(least);
      UsedOne(greatest);
      forall l | 0 <= l < LEVELS ensures LinkedAt(nodes, order, hs, l) {
        assert IsNext(hs, 0, 1, l);
      }
      forall e | Has(es, e) ensures e == least || e == greatest {
        var p :| 0 <= p < |es| && e in es[p];
      }
    }

    /** Walk along chain `l` as far as the key allows. */
    method Advance(l: int, from: PageId, fromPred: PageId, key: real, ghost p0: nat, ghost h: nat)
      returns (pred: PageId, predOfPred: PageId, ghost p: nat, ghost q: int)
      requires Valid() && IsHome(es, key, h) && key < INF_MAX && 0 <= l < LEVELS
      requires p0 <= h && order[p0] == from && hs[p0] > l
      ensures LastBelow(hs, h + 1, l, p) && p0 <= p && pred == order[p]
      ensures p == p0 || (p0 <= q && IsNext(hs, q, p, l) && hs[q] > l && predOfPred == order[q])
    {
      pred, predOfPred, p, q := from, fromPred, p0, -1;
      ghost var n := NextOf(nodes, order, hs, l, p);
      while true
        invariant p0 <= p <= h && pred == order[p] && hs[p] > l
        invariant p == p0 || (p0 <= q && IsNext(hs, q, p, l) && hs[q] > l && predOfPred == order[q])
        invariant IsNext(hs, p, n, l) && nodes[pred].forward[l] == order[n]
        decreases h - p
      {
        HomeSplitsNodes(es, key, h, n);
        if pred == start && nodes[pred].forward[l] == sentinel {
          break;
        }
        var curr := nodes[pred].forward[l];
        if !(nodes[curr].entries[0].key <= key) {
          break;
        }
        predOfPred, q := pred, p;
        pred, p := curr, n;
        n := NextOf(nodes, order, hs, l, p);
      }
      NoNextBelow(hs, p, n, l, h);
    }

    /** One level of the search: its corner, and where the next lower level starts. */
    method Descend(level: int, from: PageId, fromPred: PageId, key: real, remove: bool, ghost p0: nat, ghost h: nat)
      returns (pred: PageId, predOfPred: PageId, corner: PageId, predCorner: PageId, ghost p: nat)
      requires Valid() && IsHome(es, key, h) && key < INF_MAX && 0 <= level < LEVELS
      requires p0 < Bound(h, key, remove) && order[p0] == from && hs[p0] > level
      ensures p <= h && pred == order[p] && hs[p] > level
      ensures level > 0 ==> p < Bound(h, key, remove) && CornerIs(order, hs, Bound(h, key, remove), level, corner)
      ensures level == 0 ==> p == h && corner == pred
      ensures level == 0 && Unlinks(h, key, remove) ==> h > 0 && predCorner == order[h - 1]
    {
      ghost var q;
      pred, predOfPred, p, q := Advance(level, from, fromPred, key, p0, h);
      HomeSplitsNodes(es, key, h, p);
      if level == 0 { LowestLevel(nodes, order, hs, h, p, q); }
      if remove && level != 0 && |nodes[pred].entries| == 1 && key == nodes[pred].entries[0].key {
        NextIsLastBelow(hs, q, p, level);
        corner, predCorner := predOfPred, INVALID_PAGE;
        pred, p := predOfPred, q;
      } else {
        assert level > 0 ==> LastBelow(hs, Bound(h, key, remove), level, p);
        corner, predCorner := pred, predOfPred;
      }
    }

    /** The node to search and, level by level, the nodes a split or an unlink has to change.
      * Looking for a node to unlink, the search steps back from it on every level but the
      * lowest, so that the corners become its predecessors. */
    method FindNode(key: real, remove: bool)
      returns (node: PageId, predOfCorners: seq<PageId>, corners: seq<PageId>, ghost h: nat)
      requires Valid() && INF_MIN < key < INF_MAX
      ensures IsHome(es, key, h) && node == order[h]
      ensures |corners| == LEVELS == |predOfCorners| && corners[0] == node
      ensures forall l :: 1 <= l < LEVELS ==>
                CornerIs(order, hs, Bound(h, key, remove), l, corners[l])
      ensures Unlinks(h, key, remove) ==> h > 0 && predOfCorners[0] == order[h - 1]
    {
      h := HomeExists(es, key);
      ghost var unlinks := Unlinks(h, key, remove);
      ghost var bound := Bound(h, key, remove);
      var pred, predOfPred := start, INVALID_PAGE;
      ghost var p: nat := 0;
      corners, predOfCorners := seq(LEVELS, _ => INVALID_PAGE), seq(LEVELS, _ => INVALID_PAGE);
      var level := LEVELS - 1;
      while level >= 0
        invariant -1 <= level < LEVELS && |corners| == LEVELS == |predOfCorners|
        invariant p <= h && pred == order[p] && (level >= 0 ==> p < bound && hs[p] > level)
        invariant forall l :: level < l < LEVELS && l != 0 ==> CornerIs(order, hs, bound, l, corners[l])
        invariant level < 0 ==> p == h && corners[0] == pred && (unlinks ==> h > 0 && predOfCorners[0] == order[h - 1])
        decreases level
      {
        var corner, predCorner;
        pred, predOfPred, corner, predCorner, p := Descend(level, pred, predOfPred, key, remove, p, h);
        corners, predOfCorners := corners[level := corner], predOfCorners[level := predCorner];
        level := level - 1;
      }
      node := pred;
    }

    /** Corners are looked for below this position. */
    ghost function Bound(h: nat, key: real, remove: bool): nat
      reads this
      requires h < |es|
    {
      if Unlinks(h, key, remove) then h else h + 1
    }

    ghost predicate Unlinks(h: nat, key: real, remove: bool)
      reads this
      requires h < |es|
    {
      remove && |es[h]| == 1 && es[h][0].key == key
    }

    method GetValue(key: real) returns (value: int)
      requires Valid() && INF_MIN < key < INF_MAX
      ensures forall e :: e in Contents() && e.key == key ==> value == e.value
      ensures !HasKey(es, key) ==> value == NOT_FOUND
    {
      var node, _, _, h := FindNode(key, false);
      assert BlockOk(es[h]);
      var found, index := FindEntryByKey(nodes[node].entries, key);
      HasKeyAtHome(es, key, h);
      if found {
        ghost var e := es[h][index];
        assert Has(es, e);
        forall x | x in Contents() && x.key == key ensures x == e { KeysAreUnique(es, x, e); }
        return nodes[node].entries[index].value;
      }
      forall x | x in Contents() && x.key == key ensures false { assert HasKey(es, key); }
      return NOT_FOUND;
    }

    /** `InsertInner` on a node with room. */
    method PutEntry(node: PageId, index: int, e: Entry, lsn: int, ghost h: nat)
      requires Valid() && IsHome(es, e.key, h) && order[h] == node && 0 <= index && Neighbour(es[h], e.key, index)
      requires Need(e) <= LIMIT && Used(es[h]) + Need(e) <= CAPACITY
      modifies this`nodes, this`es
      ensures Valid() && All(es) == old(All(es)) + {e}
    {
      var n := nodes[node].(entries := InsertAfter(nodes[node].entries, index, e), lsn := lsn);
      PutKeepsList(nodes, order, hs, es, h, index, e, n);
      nodes := nodes[node := n];
      es := es[h := n.entries];
    }

    /** `newNodeAndUpdateChain`: the new node behind `node` on the first `level` chains. */
    method NewNodeAndUpdateChain(node: PageId, first: Entry, corners: seq<PageId>, level: int, newId: PageId, ghost h: nat)
      requires Valid() && h < |order| - 1 && order[h] == node && newId !in nodes && 1 <= level <= LEVELS
      requires |corners| == LEVELS && corners[0] == node
      requires forall l :: 1 <= l < LEVELS ==> CornerIs(order, hs, h + 1, l, corners[l])
      modifies this`nodes
      ensures SameNodes(old(nodes)[newId := NewNode(level, first)], nodes)
      ensures LinkedBelow(nodes, order, hs, h, newId, level, level)
    {
      nodes := nodes[newId := NewNode(level, first)];
      ghost var ns0 := nodes;
      NewNodeUnlinked(old(nodes), nodes, order, hs, h, newId, level);
      for i := 0 to level
        invariant LinkedBelow(nodes, order, hs, h, newId, level, i) && SameNodes(ns0, nodes)
      {
        ghost var c := CornerAt(order, hs, h, i, corners[i]);
        LinkNodeStep(nodes, order, hs, h, newId, level, i, c);
        nodes := LinkNode(nodes, corners[i], newId, i);
      }
    }

    /** `SplitNode`: entries behind `index` move to a new node that follows `node`. */
    method SplitNode(node: PageId, index: nat, corners: seq<PageId>, level: int, newId: PageId, ghost h: nat)
      requires Valid() && h < |order| - 1 && order[h] == node && newId !in nodes && 1 <= level <= LEVELS
      requires index + 1 < |es[h]|
      requires |corners| == LEVELS && corners[0] == node
      requires forall l :: 1 <= l < LEVELS ==> CornerIs(order, hs, h + 1, l, corners[l])
      modifies this
      ensures Valid() && All(es) == old(All(es)) && es == SplitBlocks(old(es), h, index)
      ensures order == Inserted(old(order), h, newId) && hs == Inserted(old(hs), h, level)
    {
      var entries := nodes[node].entries;
      NewNodeAndUpdateChain(node, entries[index + 1], corners, level, newId, h);
      SplitKeepsList(old(nodes), nodes, order, hs, es, h, index, newId, level, entries[index + 1]);
      nodes := Divided(nodes, node, newId, entries, index);
      ghost var order1, hs1, es1 := Inserted(order, h, newId), Inserted(hs, h, level), SplitBlocks(es, h, index);
      assert order1[0] == start && order1[|order1| - 1] == sentinel;
      order, hs, es := order1, hs1, es1;
      assert ListOk(nodes, order1, hs1, es1);
    }

    /** A key not yet in the list becomes part of it; the node level on a split is the caller's
      * choice.  Neither size check of a split can fail. */
    method Insert(e: Entry, level: int, newId: PageId) returns (ghost h: nat)
      requires Valid() && INF_MIN < e.key < INF_MAX && !HasKey(es, e.key) && Need(e) <= LIMIT
      requires 1 <= level <= LEVELS && newId !in nodes
      modifies this
      ensures Valid() && Contents() == old(Contents()) + {e}
      // exactly a node without room is split, and the new node right behind it gets the level asked for
      ensures IsHome(old(es), e.key, h)
      ensures if CAPACITY - Used(old(es)[h]) < Need(e)
              then order == Inserted(old(order), h, newId) && hs == Inserted(old(hs), h, level)
              else order == old(order) && hs == old(hs)
    {
      var node, _, corners, home := FindNode(e.key, false);
      h := home;
      assert BlockOk(es[h]);
      var found, index := FindEntryByKey(nodes[node].entries, e.key);
      HasKeyAtHome(es, e.key, h);
      if CAPACITY - Used(nodes[node].entries) < Need(e) {
        InsertWithSplit(node, index, e, corners, level, newId, h);
      } else {
        PutEntry(node, index, e, nodes[node].lsn + 1, h);
      }
    }

    /** The split index; the panic of a node that cannot be split does not happen, and either
      * half has room for the pending entry. */
    method ChooseSplit(entries: seq<Entry>, e: Entry) returns (splitIdx: nat)
      requires BlockOk(entries) && Need(e) <= LIMIT && CAPACITY - Used(entries) < Need(e)
      ensures splitIdx + 1 < |entries|
      ensures Used(entries[..splitIdx + 1]) + Need(e) <= CAPACITY
      ensures Used(entries[splitIdx + 1..]) + Need(e) <= CAPACITY
    {
      var split := SplitIndex(entries);
      SplitLeavesRoom(entries, Place(split, entries), e);
      splitIdx := split.idx;
    }

    method InsertWithSplit(node: PageId, index: int, e: Entry, corners: seq<PageId>, level: int, newId: PageId, ghost h: nat)
      requires Valid() && IsHome(es, e.key, h) && order[h] == node && 0 <= index && Neighbour(es[h], e.key, index)
      requires Need(e) <= LIMIT && CAPACITY - Used(es[h]) < Need(e)
      requires newId !in nodes && 1 <= level <= LEVELS && |corners| == LEVELS && corners[0] == node
      requires forall l :: 1 <= l < LEVELS ==> CornerIs(order, hs, h + 1, l, corners[l])
      modifies this
      ensures Valid() && All(es) == old(All(es)) + {e}
      ensures order == Inserted(old(order), h, newId) && hs == Inserted(old(hs), h, level)
    {
      var target, at, h1 := SplitForPending(node, index, e, corners, level, newId, h);
      PutEntry(target, at, e, nodes[target].lsn, h1);
    }

    /** The split, and where the pending entry goes afterwards. */
    method SplitForPending(node: PageId, index: int, e: Entry, corners: seq<PageId>, level: int, newId: PageId, ghost h: nat)
      returns (target: PageId, at: int, ghost h1: nat)
      requires Valid() && IsHome(es, e.key, h) && order[h] == node && 0 <= index && Neighbour(es[h], e.key, index)
      requires Need(e) <= LIMIT && CAPACITY - Used(es[h]) < Need(e)
      requires newId !in nodes && 1 <= level <= LEVELS && |corners| == LEVELS && corners[0] == node
      requires forall l :: 1 <= l < LEVELS ==> CornerIs(order, hs, h + 1, l, corners[l])
      modifies this
      ensures Valid() && All(es) == old(All(es))
      ensures order == Inserted(old(order), h, newId) && hs == Inserted(old(hs), h, level)
      ensures IsHome(es, e.key, h1) && order[h1] == target && 0 <= at && Neighbour(es[h1], e.key, at)
      ensures Used(es[h1]) + Need(e) <= CAPACITY
    {
      assert BlockOk(es[h]);
      var splitIdx := ChooseSplit(nodes[node].entries, e);
      var behind := index > splitIdx;
      target, at := if behind then newId else node, if behind then index - splitIdx - 1 else index;
      h1 := if behind then h + 1 else h;
      PendingHome(es, h, splitIdx, index, e, h1, at);
      SplitNode(node, splitIdx, corners, level, newId, h);
    }

    /** The loops of `Remove`: every predecessor leads past the node. */
    method UnlinkFromChains(node: PageId, predOfCorners: seq<PageId>, corners: seq<PageId>, ghost h: nat)
      requires Valid() && 0 < h < |order| - 1 && order[h] == node
      requires |corners| == LEVELS == |predOfCorners| && predOfCorners[0] == order[h - 1]
      requires forall l :: 1 <= l < LEVELS ==> CornerIs(order, hs, h, l, corners[l])
      modifies this`nodes
      ensures SameNodes(old(nodes), nodes)
      ensures UnlinkedOn(nodes, order, hs, h, 0, hs[h])
    {
      var updateLen := nodes[node].level;
      assert hs[h] == updateLen && hs[h - 1] >= 1;
      NothingUnlinked(nodes, order, hs, h);
      for i := 1 to updateLen
        invariant SameNodes(old(nodes), nodes)
        invariant UnlinkedOn(nodes, order, hs, h, 1, i)
      {
        ghost var c := CornerBelow(order, hs, h, i, corners[i]);
        UnlinkNodeStep(nodes, order, hs, h, 1, i, i, c);
        nodes := UnlinkNode(nodes, corners[i], node, i);
      }
      UnlinkNodeStep(nodes, order, hs, h, 1, updateLen, 0, h - 1);
      nodes := UnlinkNode(nodes, predOfCorners[0], node, 0);
    }

    /** A node with a single entry is taken out and its page given back. */
    method RemoveNode(node: PageId, predOfCorners: seq<PageId>, corners: seq<PageId>, ghost h: nat)
      requires Valid() && 0 < h < |order| - 1 && order[h] == node && |es[h]| == 1
      requires |corners| == LEVELS == |predOfCorners| && predOfCorners[0] == order[h - 1]
      requires forall l :: 1 <= l < LEVELS ==> CornerIs(order, hs, h, l, corners[l])
      modifies this
      ensures Valid() && All(es) == old(All(es)) - {old(es)[h][0]}
      ensures nodes.Keys == old(nodes).Keys - {node}
    {
      UnlinkFromChains(node, predOfCorners, corners, h);
      UnlinkKeepsList(old(nodes), nodes, order, hs, es, h);
      ghost var order1, hs1, es1 := Removed(order, h), Removed(hs, h), Removed(es, h);
      var nodes1 := nodes - {node};
      assert ListOk(nodes1, order1, hs1, es1);
      assert order1[0] == start && order1[|order1| - 1] == sentinel;
      nodes, order, hs, es := nodes1, order1, hs1, es1;
      assert ListOk(nodes, order, hs, es);
    }

    /** The entry with the key is gone, and with its last entry a node. */
    method Remove(key: real) returns (isDeleted: bool)
      requires Valid() && INF_MIN < key < INF_MAX
      modifies this
      ensures Valid() && isDeleted == old(HasKey(es, key))
      ensures Contents() == set e | e in old(Contents()) && e.key != key
      ensures nodes.Keys <= old(nodes).Keys
    {
      var node, predOfCorners, corners, h := FindNode(key, true);
      assert BlockOk(es[h]);
      HasKeyAtHome(es, key, h);
      var found, index := FindEntryByKey(nodes[node].entries, key);
      if found && |nodes[node].entries| == 1 {
        OthersRemain(es, h, 0);
        RemoveNode(node, predOfCorners, corners, h);
        isDeleted := true;
      } else if found {
        OthersRemain(es, h, index);
        RemoveEntry(node, index, h);
        isDeleted := true;
      } else {
        forall e | e in Contents() ensures e.key != key { OthersKey(es, key, e); }
        isDeleted := false;
      }
    }

    /** `RemoveInner` on a node with more than one entry. */
    method RemoveEntry(node: PageId, index: int, ghost h: nat)
      requires Valid() && h < |order| - 1 && order[h] == node && 0 <= index < |es[h]| && |es[h]| > 1
      requires es[h][index].key != INF_MIN
      modifies this
      ensures Valid() && All(es) == old(All(es)) - {old(es)[h][index]} && nodes.Keys == old(nodes).Keys
    {
      var n := nodes[node].(entries := RemoveAt(nodes[node].entries, index), lsn := nodes[node].lsn + 1);
      RemoveKeepsOrdered(es, h, index);
      EntriesKeepShape(nodes, order, hs, node, n);
      EntriesHeld(nodes, order, es, h, n);
      nodes := nodes[node := n];
      es := es[h := n.entries];
    }
  }

  lemma NothingUnlinked(ns: Nodes, order: seq<PageId>, hs: seq<int>, t: nat)
    requires Shape(ns, order, hs) && t < |order|
    ensures UnlinkedOn(ns, order, hs, t, 1, 1)
  {
  }

  lemma CornerBelow(order: seq<PageId>, hs: seq<int>, bound: nat, l: nat, id: PageId) returns (c: nat)
    requires bound <= |order| && CornerIs(order, hs, bound, l, id)
    ensures LastBelow(hs, bound, l, c) && order[c] == id
  {
    c :| LastBelow(hs, bound, l, c) && order[c] == id;
  }

  lemma UnlinkKeepsList(ns0: Nodes, ns: Nodes, order: seq<PageId>, hs: seq<int>, es: Blocks, t: nat)
    requires ListOk(ns0, order, hs, es) && 0 < t < |order| - 1 && |es[t]| == 1
    requires SameNodes(ns0, ns) && UnlinkedOn(ns, order, hs, t, 0, hs[t])
    ensures ListOk(ns - {order[t]}, Removed(order, t), Removed(hs, t), Removed(es, t))
    ensures All(Removed(es, t)) == All(es) - {es[t][0]}
  {
    ShapeWithoutNode(ns, ns0, order, hs, t);
    UnlinkKeepsOrdered(es, t);
    UnlinkHeld(ns0, ns, order, es, t);
  }

  lemma UnlinkHeld(ns0: Nodes, ns: Nodes, order: seq<PageId>, es: Blocks, t: nat)
    requires Holds(ns0, order, es) && Distinct(order) && t < |order| && SameNodes(ns0, ns)
    ensures Holds(ns - {order[t]}, Removed(order, t), Removed(es, t))
  {
  }

  /** Taking out one entry takes out exactly what has its key. */
  lemma OthersRemain(es: Blocks, p: nat, i: nat)
    requires Ordered(es) && p < |es| && i < |es[p]|
    ensures forall e :: Has(es, e) && e.key == es[p][i].key ==> e == es[p][i]
    ensures Has(es, es[p][i])
  {
    assert es[p][i] in es[p];
    forall e | Has(es, e) && e.key == es[p][i].key ensures e == es[p][i] { KeysAreUnique(es, e, es[p][i]); }
  }

  lemma OthersKey(es: Blocks, key: real, e: Entry)
    requires !HasKey(es, key) && Has(es, e)
    ensures e.key != key
  {
  }

  function Place(split: SplitResult, entries: seq<Entry>): nat
    requires entries != []
  {
    if split.SplitAt? then split.idx else |entries| - 1
  }

  ghost predicate ListOk(ns: Nodes, order: seq<PageId>, hs: seq<int>, es: Blocks) {
    Shape(ns, order, hs) && Holds(ns, order, es) && Ordered(es)
  }

  lemma PutKeepsList(ns: Nodes, order: seq<PageId>, hs: seq<int>, es: Blocks, h: nat, index: nat, e: Entry, n: Node)
    requires ListOk(ns, order, hs, es) && IsHome(es, e.key, h) && Neighbour(es[h], e.key, index)
    requires Need(e) <= LIMIT && Used(es[h]) + Need(e) <= CAPACITY
    requires n.level == ns[order[h]].level && n.forward == ns[order[h]].forward
    requires n.entries == InsertAfter(es[h], index, e)
    ensures ListOk(ns[order[h] := n], order, hs, es[h := n.entries])
    ensures All(es[h := n.entries]) == All(es) + {e}
  {
    InsertKeepsOrdered(es, h, index, e);
    EntriesKeepShape(ns, order, hs, order[h], n);
    EntriesHeld(ns, order, es, h, n);
  }

  lemma CornerAt(order: seq<PageId>, hs: seq<int>, h: nat, l: nat, id: PageId) returns (c: nat)
    requires h < |order| == |hs| && l < LEVELS && hs[h] > 0
    requires if l == 0 then id == order[h] else CornerIs(order, hs, h + 1, l, id)
    ensures LastBelow(hs, h + 1, l, c) && order[c] == id
  {
    if l == 0 { c := h; } else { c :| LastBelow(hs, h + 1, l, c) && order[c] == id; }
  }

  lemma NewNodeUnlinked(ns: Nodes, ns': Nodes, order: seq<PageId>, hs: seq<int>, h: nat, id: PageId, level: int)
    requires Shape(ns, order, hs) && id !in ns && h < |order|
    requires id in ns' && |ns'[id].forward| == LEVELS && ns' == ns[id := ns'[id]]
    ensures LinkedBelow(ns', order, hs, h, id, level, 0)
  {
    forall l | 0 <= l < LEVELS ensures LinkedAt(ns', order, hs, l) { KeepsLinked(ns, ns', order, hs, l); }
  }

  function NewNode(level: int, first: Entry): Node {
    Node(level, 0, [first], seq(LEVELS, _ => INVALID_PAGE))
  }

  /** The node's entries divided between it and the new node behind it. */
  function Divided(ns: Nodes, node: PageId, id: PageId, b: seq<Entry>, index: nat): Nodes
    requires node in ns && id in ns && index < |b|
  {
    var ns1 := ns[id := ns[id].(entries := b[index + 1..])];
    ns1[node := ns1[node].(entries := b[..index + 1])]
  }

  lemma SplitKeepsList(ns0: Nodes, ns: Nodes, order: seq<PageId>, hs: seq<int>, es: Blocks,
                       h: nat, index: nat, id: PageId, level: int, first: Entry)
    requires ListOk(ns0, order, hs, es) && h < |order| - 1 && index + 1 < |es[h]| && id !in ns0 && 1 <= level <= LEVELS
    requires LinkedBelow(ns, order, hs, h, id, level, level) && SameNodes(ns0[id := NewNode(level, first)], ns)
    ensures ListOk(Divided(ns, order[h], id, es[h], index),
                   Inserted(order, h, id), Inserted(hs, h, level), SplitBlocks(es, h, index))
    ensures All(SplitBlocks(es, h, index)) == All(es)
  {
    ShapeWithNode(ns, ns0, order, hs, h, id, level);
    SplitKeepsOrdered(es, h, index);
    SplitHeld(ns0, ns, order, es, h, index, id);
    var order', hs' := Inserted(order, h, id), Inserted(hs, h, level);
    var ns1 := ns[id := ns[id].(entries := es[h][index + 1..])];
    EntriesKeepShape(ns, order', hs', id, ns1[id]);
    EntriesKeepShape(ns1, order', hs', order[h], ns1[order[h]].(entries := es[h][..index + 1]));
  }

  lemma SplitHeld(ns0: Nodes, ns: Nodes, order: seq<PageId>, es: Blocks, h: nat, index: nat, id: PageId)
    requires Holds(ns0, order, es) && Distinct(order) && id !in ns0 && h < |order| && index < |es[h]|
    requires id in ns && forall p :: 0 <= p < |order| ==> order[p] in ns && ns[order[p]].entries == ns0[order[p]].entries
    ensures Holds(Divided(ns, order[h], id, es[h], index), Inserted(order, h, id), SplitBlocks(es, h, index))
  {
  }

  /** After a split the home of the pending key is the half that the split sends it to. */
  /** The half of a split that the pending entry belongs to, and its room. */
  lemma PendingHome(es: Blocks, h: nat, split: nat, index: nat, e: Entry, h': nat, at: int)
    requires Ordered(es) && IsHome(es, e.key, h) && Neighbour(es[h], e.key, index) && split + 1 < |es[h]|
    requires Used(es[h][..split + 1]) + Need(e) <= CAPACITY && Used(es[h][split + 1..]) + Need(e) <= CAPACITY
    requires if index > split then h' == h + 1 && at == index - split - 1 else h' == h && at == index
    ensures var es' := SplitBlocks(es, h, split);
            && Ordered(es') && IsHome(es', e.key, h') && 0 <= at && Neighbour(es'[h'], e.key, at)
            && Used(es'[h']) + Need(e) <= CAPACITY
  {
    SplitHome(es, h, split, index, e);
  }

  lemma SplitHome(es: Blocks, h: nat, split: nat, index: nat, e: Entry)
    requires Ordered(es) && IsHome(es, e.key, h) && Neighbour(es[h], e.key, index) && split + 1 < |es[h]|
    ensures Ordered(SplitBlocks(es, h, split))
    ensures SplitBlocks(es, h, split)[h] == es[h][..split + 1] && SplitBlocks(es, h, split)[h + 1] == es[h][split + 1..]
    ensures var es' := SplitBlocks(es, h, split);
            if index > split
            then IsHome(es', e.key, h + 1) && Neighbour(es'[h + 1], e.key, index - split - 1)
            else IsHome(es', e.key, h) && Neighbour(es'[h], e.key, index)
  {
    SplitKeepsOrdered(es, h, split);
    var es', b := SplitBlocks(es, h, split), es[h];
    assert BlockOk(b);
    assert es'[h] == b[..split + 1] && es'[h + 1] == b[split + 1..] && es'[h + 2] == es[h + 1];
    if index > split {
      assert b[split + 1].key <= b[index].key;
    } else {
      assert b[index + 1].key <= b[split + 1].key;
    }
  }
}
