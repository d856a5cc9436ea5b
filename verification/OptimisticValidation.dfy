/** Interleaved skip list updates.  A thread notes nodes while it searches, lets go of them,
  * then latches them again one by one and checks that their LSNs have not moved.  Other threads
  * may act between any two of its sections. */
module OptimisticValidation {
  import opened Wrappers
  import opened SkipListNode
  import opened SkipListChain
  import opened SkipListContents
  import opened SkipListLinks
  import opened SkipList
  import opened SkipListSections

  type Tid = int

  /** A node as it was when the search passed it on chain `level`, and the node it led to, both
    * latched at that moment. */
  datatype Seen = Seen(level: nat, id: PageId, node: Node, next: PageId, nextNode: Node)

  /** An ordinary corner: the next node lay beyond the key. */
  predicate Beyond(w: Seen, key: real)
    requires w.nextNode.entries != []
  {
    w.nextNode.entries[0].key > key
  }

  /** A corner stepped back to: the next node was a node to remove. */
  predicate Removable(n: Node, key: real) { |n.entries| == 1 && n.entries[0].key == key }

  /** What a removing search records on a chain: the node it stands on if the next one lies beyond
    * the key, unless that node is itself one to remove; then the node before it. */
  predicate RemovalCorner(w: Seen, key: real)
    requires w.nextNode.entries != []
  {
    (Beyond(w, key) && !Removable(w.node, key)) || Removable(w.nextNode, key)
  }

  /** A search: its key, what it noted, and how many of those are latched and found unchanged. */
  datatype Thread = Thread(key: real, seen: seq<Seen>, locked: nat)

  /** `used` are all page ids ever handed out; they are not handed out again. */
  datatype State = State(ns: Nodes, view: View, start: PageId, used: set<PageId>,
                         latches: map<PageId, Tid>, threads: map<Tid, Thread>)

  datatype Event =
    | Begin(t: Tid, key: real)
    | Look(t: Tid, level: nat, id: PageId)
    | Lock(t: Tid)
    | Put(t: Tid, e: Entry, index: int)
    | Drop(t: Tid, index: int)
    | Split(t: Tid, newId: PageId, split: nat, e: Entry, index: int)
    | Unlink(t: Tid)

  predicate Free(s: State, id: PageId, t: Tid) { id in s.latches ==> s.latches[id] == t }

  /** Everything noted is latched. */
  predicate Validated(th: Thread) { th.seen != [] && th.locked == |th.seen| }

  /** The node the section works on: the last one noted. */
  function Target(th: Thread): Seen
    requires th.seen != []
  {
    th.seen[|th.seen| - 1]
  }

  /** Nodes noted from level `n - 1` down to level 0, as page ids by level. */
  function ByLevel(seen: seq<Seen>, n: nat): (cs: seq<PageId>)
    requires n <= |seen|
    ensures |cs| == n && forall l :: 0 <= l < n ==> cs[l] == seen[n - 1 - l].id
  {
    seq(n, l requires 0 <= l < n => seen[n - 1 - l].id)
  }

  predicate LevelsDown(seen: seq<Seen>, n: nat)
    requires n <= |seen|
  {
    forall i :: 0 <= i < n ==> seen[i].level == n - 1 - i
  }

  predicate SawBeyond(th: Thread, i: nat)
    requires i < |th.seen|
  {
    th.seen[i].nextNode.entries != [] && Beyond(th.seen[i], th.key)
  }

  predicate SawForRemoval(th: Thread, i: nat)
    requires i < |th.seen|
  {
    th.seen[i].nextNode.entries != [] && RemovalCorner(th.seen[i], th.key)
  }

  /** What the code has checked when it enters each section. */
  ghost predicate Enabled(s: State, e: Event) {
    if e.Begin? then e.t !in s.threads && INF_MIN < e.key < INF_MAX
    else
      && e.t in s.threads
      && var th := s.threads[e.t];
      match e
      case Look(t, l, id) =>
        && th.locked == 0 && l < LEVELS && id in s.ns && Free(s, id, t)
        && |s.ns[id].forward| == LEVELS && s.ns[id].entries != [] && s.ns[id].entries[0].key <= th.key
        && (s.ns[id].level > l || id == s.start)
        && var next := s.ns[id].forward[l];
        next in s.ns && Free(s, next, t) && s.ns[next].entries != []
      case Lock(t) => th.locked < |th.seen| && Free(s, th.seen[th.locked].id, t)
      case Put(t, entry, index) =>
        && Validated(th) && |th.seen| == 1 && LevelsDown(th.seen, 1) && SawBeyond(th, 0) && entry.key == th.key
        && Target(th).id in s.ns
        && var b := s.ns[Target(th).id].entries;
        Need(entry) <= LIMIT && Neighbour(b, entry.key, index) && Used(b) + Need(entry) <= CAPACITY
      case Drop(t, index) =>
        && Validated(th) && |th.seen| == 1 && LevelsDown(th.seen, 1) && SawBeyond(th, 0) && Target(th).id in s.ns
        && var b := s.ns[Target(th).id].entries;
        |b| > 1 && 0 <= index < |b| && b[index].key == th.key
      case Split(t, newId, split, entry, index) =>
        && Validated(th) && |th.seen| <= LEVELS && LevelsDown(th.seen, |th.seen|)
        && (forall i :: 0 <= i < |th.seen| ==> SawBeyond(th, i)) && entry.key == th.key
        && newId !in s.used && Target(th).id in s.ns
        && var b := s.ns[Target(th).id].entries;
        && Need(entry) <= LIMIT && Neighbour(b, entry.key, index) && CAPACITY - Used(b) < Need(entry)
        && IsSplit(b, split)
      case Unlink(t) =>
        && Validated(th) && 2 <= |th.seen| <= LEVELS + 1 && LevelsDown(th.seen, |th.seen| - 1)
        && (forall i :: 0 <= i < |th.seen| - 1 ==> SawForRemoval(th, i))
        && Target(th).node.level == |th.seen| - 1
        && Removable(Target(th).node, th.key)
  }

  // ---- what holds in every reachable state ----

  ghost predicate SeenOk(ns: Nodes, used: set<PageId>, start: PageId, key: real, w: Seen) {
    && w.level < LEVELS && w.id in used && w.next in used
    && |w.node.forward| == LEVELS && w.node.forward[w.level] == w.next
    && (w.node.level > w.level || w.id == start)
    && w.node.entries != [] && w.node.entries[0].key <= key
    && (w.id in ns ==> ns[w.id].lsn >= w.node.lsn && (ns[w.id].lsn == w.node.lsn ==> ns[w.id] == w.node))
    && w.nextNode.entries != [] && w.node.entries[0].key < w.nextNode.entries[0].key
    && (w.next in ns ==> ns[w.next].entries != [] && ns[w.next].entries[0].key >= w.nextNode.entries[0].key)
  }

  /** A latched node is in place and exactly as it was noted. */
  ghost predicate HeldOk(ns: Nodes, latches: map<PageId, Tid>, t: Tid, w: Seen) {
    w.id in latches && latches[w.id] == t && w.id in ns && ns[w.id] == w.node
  }

  ghost predicate ThreadOk(s: State, t: Tid, th: Thread) {
    && INF_MIN < th.key < INF_MAX && th.locked <= |th.seen|
    && (forall i :: 0 <= i < |th.seen| ==> SeenOk(s.ns, s.used, s.start, th.key, th.seen[i]))
    && (forall i :: 0 <= i < th.locked ==> HeldOk(s.ns, s.latches, t, th.seen[i]))
  }

  ghost predicate Listed(ns: Nodes, v: View) {
    forall id :: id in ns ==> id in v.order
  }

  ghost predicate Good(s: State) {
    && Sound(s.ns, s.view) && Listed(s.ns, s.view) && s.view.order[0] == s.start
    && s.ns.Keys <= s.used
    && (forall t :: t in s.threads ==> ThreadOk(s, t, s.threads[t]))
  }

  // ---- a validated node is where the search found it ----

  /** A node noted as the last one before the key is, once validated, the corner of its level
    * for the key's present home. */
  lemma CornerHolds(s: State, t: Tid, i: nat, h: nat)
    requires Good(s) && t in s.threads && i < s.threads[t].locked && i < |s.threads[t].seen| && SawBeyond(s.threads[t], i)
    requires IsHome(s.view.es, s.threads[t].key, h)
    ensures var w := s.threads[t].seen[i];
            CornerIs(s.view.order, s.view.hs, h + 1, w.level, w.id)
    ensures s.threads[t].seen[i].level == 0 ==> s.threads[t].seen[i].id == s.view.order[h]
  {
    var th := s.threads[t];
    var w := th.seen[i];
    assert SeenOk(s.ns, s.used, s.start, th.key, w) && HeldOk(s.ns, s.latches, t, w);
    var c := PositionOf(s, w.id, w.level);
    HomeSplitsNodes(s.view.es, th.key, h, c);
    var q := NextOf(s.ns, s.view.order, s.view.hs, w.level, c);
    assert s.view.order[q] == w.next;
    HomeSplitsNodes(s.view.es, th.key, h, q);
    NoNextBelow(s.view.hs, c, q, w.level, h);
    if w.level == 0 { LowestLevel(s.ns, s.view.order, s.view.hs, h, c, q); }
  }

  lemma PositionOf(s: State, id: PageId, level: nat) returns (c: nat)
    requires Good(s) && id in s.ns && level < LEVELS && (s.ns[id].level > level || id == s.start)
    requires s.ns[id].entries != [] && s.ns[id].entries[0].key < INF_MAX
    ensures c < |s.view.order| - 1 && s.view.order[c] == id && s.view.hs[c] > level
    ensures s.view.es[c] == s.ns[id].entries
  {
    assert id in s.view.order;
    c :| 0 <= c < |s.view.order| && s.view.order[c] == id;
  }

  /** The node to remove, once validated, is where its key lives. */
  lemma TargetPosition(s: State, t: Tid, n: nat) returns (p: nat)
    requires Good(s) && t in s.threads && n < s.threads[t].locked && n < |s.threads[t].seen|
    requires Removable(s.threads[t].seen[n].node, s.threads[t].key)
    ensures var w := s.threads[t].seen[n];
            && 0 < p < |s.view.order| - 1 && s.view.order[p] == w.id && s.view.hs[p] == w.node.level
            && s.view.es[p] == w.node.entries
  {
    var th := s.threads[t];
    assert ThreadOk(s, t, th);
    assert SeenOk(s.ns, s.used, s.start, th.key, th.seen[n]) && HeldOk(s.ns, s.latches, t, th.seen[n]);
    p := PositionOf(s, th.seen[n].id, th.seen[n].level);
  }

  /** Whatever a removing search noted on a chain that the node to remove is on: once both are
    * validated, the noted node is the predecessor of that node on the chain, although the node
    * may not have been the one the search met there. */
  lemma PredecessorHolds(s: State, t: Tid, i: nat, n: nat, p: nat)
    requires Good(s) && t in s.threads && i < s.threads[t].locked <= |s.threads[t].seen| && n < s.threads[t].locked
    requires SawForRemoval(s.threads[t], i) && Removable(s.threads[t].seen[n].node, s.threads[t].key)
    requires p < |s.view.order| - 1 && s.view.order[p] == s.threads[t].seen[n].id && s.view.hs[p] > s.threads[t].seen[i].level
    requires s.view.es[p] == s.threads[t].seen[n].node.entries
    ensures var w := s.threads[t].seen[i];
            CornerIs(s.view.order, s.view.hs, p, w.level, w.id) && w.next == s.view.order[p]
  {
    var th := s.threads[t];
    var w := th.seen[i];
    assert SeenOk(s.ns, s.used, s.start, th.key, w) && HeldOk(s.ns, s.latches, t, w);
    assert HeldOk(s.ns, s.latches, t, th.seen[n]);
    var c := PositionOf(s, w.id, w.level);
    var q := NextOf(s.ns, s.view.order, s.view.hs, w.level, c);
    assert s.view.order[q] == w.next && s.ns[w.next].entries == s.view.es[q];
    FirstKeysOrder(s.view.es, c, p);
    FirstKeysOrder(s.view.es, q, p);
    NextIsLastBelow(s.view.hs, c, q, w.level);
  }

  lemma FirstKeysOrder(es: Blocks, a: nat, b: nat)
    requires Ordered(es) && a < |es| && b < |es|
    ensures es[a][0].key < es[b][0].key <==> a < b
    ensures es[a][0].key == es[b][0].key <==> a == b
  {
    if a < b { assert Precedes(es[a], es[b]); } else if b < a { assert Precedes(es[b], es[a]); }
  }

  // ---- one thread's section seen by the others ----

  /** Thread `u` changed, removed or added only nodes nobody else may touch. */
  ghost predicate OwnChange(s: State, ns': Nodes, u: Tid) {
    && Evolves(s.ns, ns')
    && (forall x :: x in s.ns && (x !in ns' || ns'[x] != s.ns[x]) ==> x in s.latches && s.latches[x] == u)
    && (forall x :: x in ns' ==> x in s.ns || x !in s.used)
  }

  lemma SeenSurvives(s: State, ns': Nodes, used': set<PageId>, u: Tid, key: real, w: Seen)
    requires OwnChange(s, ns', u) && s.used <= used' && SeenOk(s.ns, s.used, s.start, key, w)
    ensures SeenOk(ns', used', s.start, key, w)
  {
    if w.id in ns' { assert w.id in s.ns && Evolved(s.ns[w.id], ns'[w.id]); }
    if w.next in ns' { assert w.next in s.ns && Evolved(s.ns[w.next], ns'[w.next]); }
  }

  function Released(latches: map<PageId, Tid>, u: Tid): map<PageId, Tid> {
    map x | x in latches && latches[x] != u :: latches[x]
  }

  /** The state after thread `u` has finished its section. */
  function Finished(s: State, u: Tid, ns': Nodes, v': View): State {
    s.(ns := ns', view := v', used := s.used + ns'.Keys,
       latches := Released(s.latches, u), threads := map t | t in s.threads && t != u :: s.threads[t])
  }

  lemma FinishedIsGood(s: State, u: Tid, ns': Nodes, v': View)
    requires Good(s) && OwnChange(s, ns', u) && Sound(ns', v') && Listed(ns', v') && v'.order[0] == s.start
    ensures Good(Finished(s, u, ns', v'))
  {
    var s' := Finished(s, u, ns', v');
    forall t | t in s'.threads ensures ThreadOk(s', t, s'.threads[t]) {
      var th := s.threads[t];
      assert t != u && ThreadOk(s, t, th);
      forall i | 0 <= i < |th.seen| ensures SeenOk(ns', s'.used, s.start, th.key, th.seen[i]) {
        SeenSurvives(s, ns', s'.used, u, th.key, th.seen[i]);
      }
      forall i | 0 <= i < th.locked ensures HeldOk(ns', s'.latches, t, th.seen[i]) {
        assert HeldOk(s.ns, s.latches, t, th.seen[i]);
      }
    }
  }

  // ---- the sections ----

  ghost predicate Changed(s: State, ns': Nodes, v': View, u: Tid) {
    && OwnChange(s, ns', u) && Sound(ns', v') && Listed(ns', v') && v'.order[0] == s.start
  }

  /** The latched node of a one-node section is the home of the key. */
  lemma TargetIsHome(s: State, t: Tid) returns (h: nat)
    requires Good(s) && t in s.threads && Validated(s.threads[t])
    requires LevelsDown(s.threads[t].seen, |s.threads[t].seen|) && SawBeyond(s.threads[t], |s.threads[t].seen| - 1)
    ensures h < |s.view.order| - 1 && IsHome(s.view.es, s.threads[t].key, h) && s.view.order[h] == Target(s.threads[t]).id
    ensures HeldOk(s.ns, s.latches, t, Target(s.threads[t])) && s.view.es[h] == s.ns[Target(s.threads[t]).id].entries
  {
    var th := s.threads[t];
    assert ThreadOk(s, t, th);
    h := HomeExists(s.view.es, th.key);
    CornerHolds(s, t, |th.seen| - 1, h);
    assert HeldOk(s.ns, s.latches, t, th.seen[|th.seen| - 1]);
  }

  /** The key to put is not in the list, and afterwards it is. */
  lemma PutIsSound(s: State, t: Tid, e: Entry, index: int) returns (v': View)
    requires Good(s) && Enabled(s, Put(t, e, index))
    ensures Changed(s, PutSection(s.ns, Target(s.threads[t]).id, index, e), v', t)
    ensures !HasKey(s.view.es, e.key) && All(v'.es) == All(s.view.es) + {e}
  {
    var h := TargetIsHome(s, t);
    assert BlockOk(s.view.es[h]);
    NeighbourIsAbsent(s.view.es, h, index, e.key);
    PutSectionSound(s.ns, s.view, h, index, e);
    v' := s.view.(es := s.view.es[h := InsertAfter(s.view.es[h], index, e)]);
  }

  lemma NeighbourIsAbsent(es: Blocks, h: nat, index: int, key: real)
    requires Ordered(es) && IsHome(es, key, h) && Neighbour(es[h], key, index)
    ensures index >= 0 && !HasKey(es, key)
  {
    assert BlockOk(es[h]);
    HasKeyAtHome(es, key, h);
  }

  lemma DropIsSound(s: State, t: Tid, index: int) returns (v': View)
    requires Good(s) && Enabled(s, Drop(t, index))
    ensures Changed(s, DropSection(s.ns, Target(s.threads[t]).id, index), v', t)
    ensures All(v'.es) == All(s.view.es) - {s.ns[Target(s.threads[t]).id].entries[index]}
  {
    var h := TargetIsHome(s, t);
    assert ThreadOk(s, t, s.threads[t]);
    DropSectionSound(s.ns, s.view, h, index);
    v' := s.view.(es := s.view.es[h := RemoveAt(s.view.es[h], index)]);
  }

  /** The pending entry goes into the half that covers it, still under the latch of the split. */
  function PutPending(ns: Nodes, node: PageId, id: PageId, split: int, index: int, e: Entry): Nodes
    requires node in ns && id in ns
    requires if index > split then index - split - 1 < |ns[id].entries| else -1 <= index < |ns[node].entries|
  {
    var target := if index > split then id else node;
    var at := if index > split then index - split - 1 else index;
    ns[target := ns[target].(entries := InsertAfter(ns[target].entries, at, e))]
  }

  ghost predicate LatchedBy(s: State, t: Tid, cs: seq<PageId>) {
    forall x :: x in cs ==> x in s.latches && s.latches[x] == t
  }

  lemma ByLevelLatched(s: State, t: Tid, n: nat)
    requires t in s.threads && n <= s.threads[t].locked && ThreadOk(s, t, s.threads[t])
    ensures LatchedBy(s, t, ByLevel(s.threads[t].seen, n))
  {
    var th := s.threads[t];
    forall x | x in ByLevel(th.seen, n) ensures x in s.latches && s.latches[x] == t {
      var l :| 0 <= l < n && ByLevel(th.seen, n)[l] == x;
      assert HeldOk(s.ns, s.latches, t, th.seen[n - 1 - l]);
    }
  }

  lemma SplitCorners(s: State, t: Tid, h: nat)
    requires Good(s) && t in s.threads && Validated(s.threads[t]) && |s.threads[t].seen| <= LEVELS
    requires LevelsDown(s.threads[t].seen, |s.threads[t].seen|)
    requires forall i :: 0 <= i < |s.threads[t].seen| ==> SawBeyond(s.threads[t], i)
    requires IsHome(s.view.es, s.threads[t].key, h)
    ensures AreCorners(s.view, h, ByLevel(s.threads[t].seen, |s.threads[t].seen|))
    ensures LatchedBy(s, t, ByLevel(s.threads[t].seen, |s.threads[t].seen|))
  {
    var th := s.threads[t];
    var n := |th.seen|;
    var cs := ByLevel(th.seen, n);
    assert ThreadOk(s, t, th);
    forall l | 0 <= l < n ensures CornerIs(s.view.order, s.view.hs, h + 1, l, cs[l]) {
      CornerHolds(s, t, n - 1 - l, h);
    }
    ByLevelLatched(s, t, n);
  }

  lemma SplitOwnChange(s: State, t: Tid, cs: seq<PageId>, node: PageId, newId: PageId, split: nat)
    requires s.ns.Keys <= s.used && newId !in s.used && LatchedBy(s, t, cs)
    requires 1 <= |cs| <= LEVELS && Linkable(s.ns, cs) && node in s.ns && split + 1 < |s.ns[node].entries| && cs[0] == node
    ensures OwnChange(s, SplitSection(s.ns, cs, node, newId, split), t)
    ensures SplitSection(s.ns, cs, node, newId, split)[node].lsn > s.ns[node].lsn
  {
    SplitSectionEvolves(s.ns, cs, node, newId, split);
  }

  /** Before the pending entry is put: the list is whole. */
  lemma SplitChanges(s: State, t: Tid, cs: seq<PageId>, newId: PageId, split: nat, h: nat) returns (v1: View)
    requires Good(s) && AreCorners(s.view, h, cs) && LatchedBy(s, t, cs) && 1 <= |cs| <= LEVELS
    requires newId !in s.used && split + 1 < |s.view.es[h]| && cs[0] == s.view.order[h]
    ensures var node := s.view.order[h];
            && Linkable(s.ns, cs) && s.ns[node].entries == s.view.es[h]
            && v1 == SplitView(s.view, h, newId, |cs|, split)
            && Changed(s, SplitSection(s.ns, cs, node, newId, split), v1, t)
            && All(v1.es) == All(s.view.es)
            && SplitSection(s.ns, cs, node, newId, split)[node].lsn > s.ns[node].lsn
            && node in s.latches && s.latches[node] == t
  {
    v1 := SplitView(s.view, h, newId, |cs|, split);
    SplitSectionSound(s.ns, s.view, h, cs, newId, split);
    SplitOwnChange(s, t, cs, s.view.order[h], newId, split);
    SplitListed(s, cs, s.view.order[h], newId, split, h);
    assert cs[0] in cs;
  }

  lemma SplitListed(s: State, cs: seq<PageId>, node: PageId, newId: PageId, split: nat, h: nat)
    requires Good(s) && h < |s.view.order| - 1 && split < |s.view.es[h]|
    requires 1 <= |cs| <= LEVELS && Linkable(s.ns, cs) && node in s.ns && newId !in s.ns && split + 1 < |s.ns[node].entries|
    ensures Listed(SplitSection(s.ns, cs, node, newId, split), SplitView(s.view, h, newId, |cs|, split))
  {
    InsertedMembers(s.view.order, h, newId);
  }

  lemma InsertedMembers(order: seq<PageId>, h: nat, id: PageId)
    requires h < |order|
    ensures forall x :: x in Inserted(order, h, id) <==> x in order || x == id
  {
    assert order == order[..h + 1] + order[h + 1..];
  }

  /** What the split leaves for the pending entry: a home half with room. */
  lemma SplitRoom(es: Blocks, h: nat, split: nat, index: int, e: Entry)
    requires Ordered(es) && IsHome(es, e.key, h) && Neighbour(es[h], e.key, index)
    requires Need(e) <= LIMIT && CAPACITY - Used(es[h]) < Need(e) && IsSplit(es[h], split)
    ensures index >= 0 && !HasKey(es, e.key) && split + 1 < |es[h]| && Ordered(SplitBlocks(es, h, split))
    ensures var es' := SplitBlocks(es, h, split);
            var h' := if index > split then h + 1 else h;
            && IsHome(es', e.key, h') && Neighbour(es'[h'], e.key, if index > split then index - split - 1 else index)
            && Used(es'[h']) + Need(e) <= CAPACITY
  {
    assert BlockOk(es[h]);
    NeighbourIsAbsent(es, h, index, e.key);
    SplitLeavesRoom(es[h], split, e);
    SplitHome(es, h, split, index, e);
  }

  lemma SplitIsSound(s: State, t: Tid, newId: PageId, split: nat, e: Entry, index: int) returns (ns': Nodes, v': View)
    requires Good(s) && Enabled(s, Split(t, newId, split, e, index))
    ensures SplitPossible(s, s.threads[t], newId, split, index) && ns' == SplitNodes(s, s.threads[t], newId, split, e, index)
    ensures Changed(s, ns', v', t)
    ensures !HasKey(s.view.es, e.key) && All(v'.es) == All(s.view.es) + {e}
  {
    ns', v' := SplitWorks(s, t, newId, split, e, index);
  }

  lemma SplitWorks(s: State, t: Tid, newId: PageId, split: nat, e: Entry, index: int) returns (ns': Nodes, v': View)
    requires Good(s) && Enabled(s, Split(t, newId, split, e, index))
    ensures var cs, node := ByLevel(s.threads[t].seen, |s.threads[t].seen|), Target(s.threads[t]).id;
            && newId !in s.ns && Linkable(s.ns, cs) && split + 1 < |s.ns[node].entries|
            && (var d := SplitSection(s.ns, cs, node, newId, split);
                && (if index > split then index - split - 1 < |d[newId].entries| else -1 <= index < |d[node].entries|)
                && ns' == PutPending(d, node, newId, split, index, e))
    ensures Changed(s, ns', v', t)
    ensures !HasKey(s.view.es, e.key) && All(v'.es) == All(s.view.es) + {e}
  {
    var th := s.threads[t];
    var cs, node := ByLevel(th.seen, |th.seen|), Target(th).id;
    var h := TargetIsHome(s, t);
    SplitCorners(s, t, h);
    SplitRoom(s.view.es, h, split, index, e);
    var v1 := SplitChanges(s, t, cs, newId, split, h);
    var d := SplitSection(s.ns, cs, node, newId, split);
    var h' := if index > split then h + 1 else h;
    assert v1.order[h] == node && v1.order[h + 1] == newId;
    v' := PendingPut(s, t, d, v1, node, newId, h', if index > split then index - split - 1 else index, e);
    ns' := PutPending(d, node, newId, split, index, e);
  }

  /** Putting the pending entry, with no further step of the LSN. */
  lemma PendingPut(s: State, t: Tid, d: Nodes, v1: View, node: PageId, newId: PageId, h: nat, at: nat, e: Entry) returns (v': View)
    requires Good(s) && Changed(s, d, v1, t) && node in s.ns && newId !in s.ns && node in d && newId in d
    requires node in s.latches && s.latches[node] == t && d[node].lsn > s.ns[node].lsn
    requires IsHome(v1.es, e.key, h) && Neighbour(v1.es[h], e.key, at)
    requires Need(e) <= LIMIT && Used(v1.es[h]) + Need(e) <= CAPACITY
    requires v1.order[h] == node || v1.order[h] == newId
    ensures d[v1.order[h]].entries == v1.es[h]
    ensures var x := v1.order[h];
            Changed(s, d[x := d[x].(entries := InsertAfter(d[x].entries, at, e))], v', t)
    ensures All(v'.es) == All(v1.es) + {e}
  {
    var x := v1.order[h];
    var n := d[x].(entries := InsertAfter(d[x].entries, at, e));
    PutKeepsList(d, v1.order, v1.hs, v1.es, h, at, e, n);
    v' := v1.(es := v1.es[h := n.entries]);
    assert BlockOk(v1.es[h]);
    PendingOwnChange(s, t, d, node, newId, x, n);
  }

  lemma PendingOwnChange(s: State, t: Tid, d: Nodes, node: PageId, newId: PageId, x: PageId, n: Node)
    requires OwnChange(s, d, t) && node in s.ns && newId !in s.ns && node in d && newId in d && (x == node || x == newId)
    requires node in s.latches && s.latches[node] == t && d[node].lsn > s.ns[node].lsn
    requires n.level == d[x].level && n.lsn == d[x].lsn && d[x].entries != [] && n.entries != [] && n.entries[0] == d[x].entries[0]
    ensures OwnChange(s, d[x := n], t)
  {
    forall id | id in s.ns && id in d[x := n] ensures Evolved(s.ns[id], d[x := n][id]) {
      assert id in d && Evolved(s.ns[id], d[id]);
    }
  }

  lemma UnlinkIsSound(s: State, t: Tid) returns (v': View)
    requires Good(s) && Enabled(s, Unlink(t))
    ensures var th := s.threads[t]; var ps := ByLevel(th.seen, |th.seen| - 1);
            && Target(th).id in s.ns && s.ns[Target(th).id] == Target(th).node && |Target(th).node.forward| == LEVELS
            && Linkable(s.ns, ps)
            && Changed(s, UnlinkSection(s.ns, ps, Target(th).id), v', t)
            && All(v'.es) == All(s.view.es) - {Target(th).node.entries[0]}
  {
    var p := UnlinkReady(s, t);
    v' := UnlinkChanges(s, t, ByLevel(s.threads[t].seen, |s.threads[t].seen| - 1), p);
  }

  lemma UnlinkReady(s: State, t: Tid) returns (p: nat)
    requires Good(s) && Enabled(s, Unlink(t))
    ensures var th := s.threads[t]; var ps := ByLevel(th.seen, |th.seen| - 1);
            && ArePredecessors(s.view, p, ps) && LatchedBy(s, t, ps) && |ps| == s.view.hs[p]
            && s.view.order[p] == Target(th).id && s.view.es[p] == Target(th).node.entries
            && Target(th).id in s.ns && s.ns[Target(th).id] == Target(th).node && |Target(th).node.forward| == LEVELS
            && Target(th).id in s.latches && s.latches[Target(th).id] == t
  {
    var n := |s.threads[t].seen| - 1;
    p := TargetPosition(s, t, n);
    assert HeldOk(s.ns, s.latches, t, s.threads[t].seen[n]) by { assert ThreadOk(s, t, s.threads[t]); }
    PredecessorsHold(s, t, n, p);
    ByLevelLatched(s, t, n);
  }

  lemma PredecessorsHold(s: State, t: Tid, n: nat, p: nat)
    requires Good(s) && t in s.threads && n < s.threads[t].locked <= |s.threads[t].seen|
    requires LevelsDown(s.threads[t].seen, n) && 0 < p < |s.view.order| - 1 && s.view.hs[p] == n
    requires Removable(s.threads[t].seen[n].node, s.threads[t].key)
    requires s.view.order[p] == s.threads[t].seen[n].id && s.view.es[p] == s.threads[t].seen[n].node.entries
    requires forall i :: 0 <= i < n ==> SawForRemoval(s.threads[t], i)
    ensures ArePredecessors(s.view, p, ByLevel(s.threads[t].seen, n))
  {
    forall l | 0 <= l < n ensures CornerIs(s.view.order, s.view.hs, p, l, ByLevel(s.threads[t].seen, n)[l]) {
      PredecessorHolds(s, t, n - 1 - l, n, p);
    }
  }

  lemma UnlinkChanges(s: State, t: Tid, ps: seq<PageId>, p: nat) returns (v': View)
    requires Good(s) && ArePredecessors(s.view, p, ps) && LatchedBy(s, t, ps) && |ps| == s.view.hs[p]
    requires |s.view.es[p]| == 1 && s.view.order[p] in s.latches && s.latches[s.view.order[p]] == t
    ensures Linkable(s.ns, ps) && |ps| <= LEVELS
    ensures Changed(s, UnlinkSection(s.ns, ps, s.view.order[p]), v', t)
    ensures All(v'.es) == All(s.view.es) - {s.view.es[p][0]}
  {
    UnlinkSectionSound(s.ns, s.view, p, ps);
    UnlinkOwnChange(s, t, ps, s.view.order[p]);
    v' := UnlinkView(s.view, p);
    RemovedMembers(s.view.order, p);
  }

  lemma UnlinkOwnChange(s: State, t: Tid, ps: seq<PageId>, id: PageId)
    requires LatchedBy(s, t, ps) && id in s.latches && s.latches[id] == t
    requires 1 <= |ps| <= LEVELS && Linkable(s.ns, ps) && id in s.ns && |s.ns[id].forward| == LEVELS
    ensures OwnChange(s, UnlinkSection(s.ns, ps, id), t)
  {
    UnlinkSectionEvolves(s.ns, ps, id);
  }

  lemma RemovedMembers(order: seq<PageId>, p: nat)
    requires p < |order|
    ensures forall x :: x in order && x != order[p] ==> x in Removed(order, p)
  {
    assert order == order[..p] + [order[p]] + order[p + 1..];
  }

  // ---- steps and runs ----

  predicate IsSection(e: Event) { e.Put? || e.Drop? || e.Split? || e.Unlink? }

  /** The section finds every node it changes, with all its links. */
  ghost predicate Possible(s: State, e: Event)
    requires Enabled(s, e) && IsSection(e)
  {
    var th := s.threads[e.t];
    match e
    case Put(_, _, _) => true
    case Drop(_, _) => true
    case Split(t, newId, split, entry, index) => SplitPossible(s, th, newId, split, index)
    case Unlink(t) => UnlinkPossible(s, th)
  }

  ghost predicate SplitPossible(s: State, th: Thread, newId: PageId, split: nat, index: int)
    requires th.seen != [] && Target(th).id in s.ns && 1 <= |th.seen| <= LEVELS
  {
    var cs, node := ByLevel(th.seen, |th.seen|), Target(th).id;
    && newId !in s.ns && Linkable(s.ns, cs) && split + 1 < |s.ns[node].entries|
    && var d := SplitSection(s.ns, cs, node, newId, split);
    if index > split then index - split - 1 < |d[newId].entries| else -1 <= index < |d[node].entries|
  }

  ghost predicate UnlinkPossible(s: State, th: Thread)
    requires th.seen != []
  {
    var ps, node := ByLevel(th.seen, |th.seen| - 1), Target(th).id;
    node in s.ns && |s.ns[node].forward| == LEVELS && Linkable(s.ns, ps)
  }

  ghost function SplitNodes(s: State, th: Thread, newId: PageId, split: nat, e: Entry, index: int): Nodes
    requires th.seen != [] && Target(th).id in s.ns && 1 <= |th.seen| <= LEVELS && SplitPossible(s, th, newId, split, index)
  {
    PutPending(SplitSection(s.ns, ByLevel(th.seen, |th.seen|), Target(th).id, newId, split), Target(th).id, newId, split, index, e)
  }

  /** The nodes after a section, computed as the code computes them. */
  ghost function NodesAfter(s: State, e: Event): (ns': Nodes)
    requires Enabled(s, e) && IsSection(e) && Possible(s, e)
  {
    var th := s.threads[e.t];
    match e
    case Put(t, entry, index) => PutSection(s.ns, Target(th).id, index, entry)
    case Drop(t, index) => DropSection(s.ns, Target(th).id, index)
    case Split(t, newId, split, entry, index) => SplitNodes(s, th, newId, split, entry, index)
    case Unlink(t) => UnlinkSection(s.ns, ByLevel(th.seen, |th.seen| - 1), Target(th).id)
  }

  /** The section can be carried out, and leaves a whole list. */
  ghost predicate SectionOk(s: State, e: Event)
    requires Enabled(s, e) && IsSection(e)
  {
    Possible(s, e) && exists v' :: Changed(s, NodesAfter(s, e), v', e.t)
  }

  lemma SectionIsSound(s: State, e: Event)
    requires Good(s) && Enabled(s, e) && IsSection(e)
    ensures SectionOk(s, e)
  {
    match e
    case Put(t, entry, index) => var v' := PutIsSound(s, t, entry, index); assert Changed(s, NodesAfter(s, e), v', t);
    case Drop(t, index) => var v' := DropIsSound(s, t, index); assert Changed(s, NodesAfter(s, e), v', t);
    case Split(t, newId, split, entry, index) => SplitSectionOk(s, t, newId, split, entry, index);
    case Unlink(t) => UnlinkSectionOk(s, t);
  }

  lemma SplitSectionOk(s: State, t: Tid, newId: PageId, split: nat, e: Entry, index: int)
    requires Good(s) && Enabled(s, Split(t, newId, split, e, index))
    ensures SectionOk(s, Split(t, newId, split, e, index))
  {
    var ns', v' := SplitIsSound(s, t, newId, split, e, index);
    assert Possible(s, Split(t, newId, split, e, index));
    assert ns' == NodesAfter(s, Split(t, newId, split, e, index));
  }

  lemma UnlinkSectionOk(s: State, t: Tid)
    requires Good(s) && Enabled(s, Unlink(t))
    ensures SectionOk(s, Unlink(t))
  {
    var v' := UnlinkIsSound(s, t);
    assert Possible(s, Unlink(t));
    assert Changed(s, NodesAfter(s, Unlink(t)), v', t);
  }

  function Noted(s: State, th: Thread, l: nat, id: PageId): Thread
    requires id in s.ns && l < |s.ns[id].forward| && s.ns[id].forward[l] in s.ns && s.ns[s.ns[id].forward[l]].entries != []
  {
    var next := s.ns[id].forward[l];
    th.(seen := th.seen + [Seen(l, id, s.ns[id], next, s.ns[next])])
  }

  /** Latch the next noted node; if it is gone or its LSN has moved, let go of everything. */
  function LockNext(s: State, t: Tid): State
    requires t in s.threads && s.threads[t].locked < |s.threads[t].seen|
  {
    var th := s.threads[t];
    var w := th.seen[th.locked];
    if w.id !in s.ns || s.ns[w.id].lsn != w.node.lsn
    then Finished(s, t, s.ns, s.view)
    else s.(latches := s.latches[w.id := t], threads := s.threads[t := th.(locked := th.locked + 1)])
  }

  ghost function Step(s: State, e: Event): (s': State)
    requires Good(s) && Enabled(s, e)
  {
    match e
    case Begin(t, key) => s.(threads := s.threads[t := Thread(key, [], 0)])
    case Look(t, l, id) => s.(threads := s.threads[t := Noted(s, s.threads[t], l, id)])
    case Lock(t) => LockNext(s, t)
    case _ =>
      SectionIsSound(s, e);
      var ns' := NodesAfter(s, e);
      var v' :| Changed(s, ns', v', e.t);
      Finished(s, e.t, ns', v')
  }

  lemma ThreadsKeepGood(s: State, s': State, t: Tid)
    requires Good(s) && s'.ns == s.ns && s'.view == s.view && s'.used == s.used && s'.start == s.start
    requires t in s'.threads && s'.threads == s.threads[t := s'.threads[t]] && ThreadOk(s', t, s'.threads[t])
    requires forall x :: x in s.latches && s.latches[x] != t ==> x in s'.latches && s'.latches[x] == s.latches[x]
    ensures Good(s')
  {
    forall u | u in s'.threads ensures ThreadOk(s', u, s'.threads[u]) {
      if u != t {
        assert ThreadOk(s, u, s.threads[u]);
        forall i | 0 <= i < s.threads[u].locked ensures HeldOk(s'.ns, s'.latches, u, s.threads[u].seen[i]) {
          assert HeldOk(s.ns, s.latches, u, s.threads[u].seen[i]);
        }
      }
    }
  }

  /** Along a chain the smallest keys go up. */
  lemma NotedInOrder(s: State, id: PageId, l: nat)
    requires Good(s) && id in s.ns && l < LEVELS && |s.ns[id].forward| == LEVELS && (s.ns[id].level > l || id == s.start)
    requires s.ns[id].entries != [] && s.ns[id].entries[0].key < INF_MAX
    ensures var next := s.ns[id].forward[l];
            next in s.ns && s.ns[next].entries != [] && s.ns[id].entries[0].key < s.ns[next].entries[0].key
  {
    var c := PositionOf(s, id, l);
    var q := NextOf(s.ns, s.view.order, s.view.hs, l, c);
    FirstKeysOrder(s.view.es, c, q);
  }

  lemma LookKeepsGood(s: State, t: Tid, l: nat, id: PageId)
    requires Good(s) && Enabled(s, Look(t, l, id))
    ensures Good(Step(s, Look(t, l, id)))
  {
    var th := s.threads[t];
    var s' := Step(s, Look(t, l, id));
    assert ThreadOk(s, t, th);
    NotedInOrder(s, id, l);
    ThreadsKeepGood(s, s', t);
  }

  lemma LockKeepsGood(s: State, t: Tid)
    requires Good(s) && Enabled(s, Lock(t))
    ensures Good(LockNext(s, t))
  {
    var th := s.threads[t];
    var w := th.seen[th.locked];
    assert ThreadOk(s, t, th);
    assert SeenOk(s.ns, s.used, s.start, th.key, w);
    if w.id !in s.ns || s.ns[w.id].lsn != w.node.lsn {
      FinishedIsGood(s, t, s.ns, s.view);
    } else {
      var s' := LockNext(s, t);
      forall i | 0 <= i < th.locked + 1 ensures HeldOk(s'.ns, s'.latches, t, th.seen[i]) {
        assert i < th.locked ==> HeldOk(s.ns, s.latches, t, th.seen[i]);
      }
      ThreadsKeepGood(s, s', t);
    }
  }

  /** Every section of every thread leaves a whole list, and every thread's notes good. */
  lemma StepKeepsGood(s: State, e: Event)
    requires Good(s) && Enabled(s, e)
    ensures Good(Step(s, e))
  {
    match e
    case Begin(t, key) => ThreadsKeepGood(s, Step(s, e), t);
    case Look(t, l, id) => LookKeepsGood(s, t, l, id);
    case Lock(t) => LockKeepsGood(s, t);
    case _ => SectionKeepsGood(s, e);
  }

  lemma SectionKeepsGood(s: State, e: Event)
    requires Good(s) && Enabled(s, e) && IsSection(e)
    ensures Good(Step(s, e))
  {
    SectionIsSound(s, e);
    var ns' := NodesAfter(s, e);
    var v' :| Changed(s, ns', v', e.t) && Step(s, e) == Finished(s, e.t, ns', v');
    FinishedIsGood(s, e.t, ns', v');
  }

  /** A run from a list with no thread yet. */
  ghost function Run(s0: State, events: seq<Event>): (r: Option<State>)
    requires Good(s0)
    ensures r.Some? ==> Good(r.value)
  {
    if events == [] then Some(s0)
    else
      var n := |events| - 1;
      match Run(s0, events[..n])
      case None => None
      case Some(s) => if Enabled(s, events[n]) then StepKeepsGood(s, events[n]); Some(Step(s, events[n])) else None
  }

  // ---- the list as a set ----

  /** Everything stored in any node. */
  ghost function Stored(ns: Nodes): (r: set<Entry>)
    ensures forall e :: e in r <==> exists id :: id in ns && e in ns[id].entries
  {
    set id, e | id in ns && e in ns[id].entries :: e
  }

  lemma StoredIsAll(ns: Nodes, v: View)
    requires Sound(ns, v) && Listed(ns, v)
    ensures Stored(ns) == All(v.es)
  {
    forall e ensures e in Stored(ns) <==> Has(v.es, e) {
      if e in Stored(ns) {
        var id :| id in ns && e in ns[id].entries;
        assert id in v.order;
        var p :| 0 <= p < |v.order| && v.order[p] == id;
        assert e in v.es[p];
      }
      if Has(v.es, e) {
        var p :| 0 <= p < |v.es| && e in v.es[p];
        assert v.order[p] in ns && e in ns[v.order[p]].entries;
      }
    }
  }

  /** Whatever the interleaving, a section acts on the stored set as one insertion of a key not
    * in it, or one removal of the entry with the thread's key. */
  lemma SectionActsOnSet(s: State, e: Event)
    requires Good(s) && Enabled(s, e) && IsSection(e)
    ensures SectionOk(s, e)
    ensures e.Put? || e.Split? ==>
              Stored(NodesAfter(s, e)) == Stored(s.ns) + {e.e} && forall x :: x in Stored(s.ns) ==> x.key != e.e.key
    ensures e.Drop? || e.Unlink? ==>
              exists x :: x in Stored(s.ns) && x.key == s.threads[e.t].key && Stored(NodesAfter(s, e)) == Stored(s.ns) - {x}
  {
    SectionIsSound(s, e);
    StoredIsAll(s.ns, s.view);
    var v' := SectionEffect(s, e);
    StoredIsAll(NodesAfter(s, e), v');
  }

  lemma SectionEffect(s: State, e: Event) returns (v': View)
    requires Good(s) && Enabled(s, e) && IsSection(e) && SectionOk(s, e)
    ensures Changed(s, NodesAfter(s, e), v', e.t)
    ensures e.Put? || e.Split? ==> All(v'.es) == All(s.view.es) + {e.e} && forall x :: Has(s.view.es, x) ==> x.key != e.e.key
    ensures e.Drop? || e.Unlink? ==>
              exists x :: Has(s.view.es, x) && x.key == s.threads[e.t].key && All(v'.es) == All(s.view.es) - {x}
  {
    match e
    case Put(t, entry, index) => v' := PutIsSound(s, t, entry, index);
    case Drop(t, index) => v' := DropIsSound(s, t, index); DropTakes(s, t, index);
    case Split(t, newId, split, entry, index) => v' := SplitEffect(s, t, newId, split, entry, index);
    case Unlink(t) => v' := UnlinkEffect(s, t);
  }

  lemma SplitEffect(s: State, t: Tid, newId: PageId, split: nat, e: Entry, index: int) returns (v': View)
    requires Good(s) && Enabled(s, Split(t, newId, split, e, index)) && SectionOk(s, Split(t, newId, split, e, index))
    ensures Changed(s, NodesAfter(s, Split(t, newId, split, e, index)), v', t)
    ensures All(v'.es) == All(s.view.es) + {e} && forall x :: Has(s.view.es, x) ==> x.key != e.key
  {
    var ns';
    ns', v' := SplitIsSound(s, t, newId, split, e, index);
  }

  lemma UnlinkEffect(s: State, t: Tid) returns (v': View)
    requires Good(s) && Enabled(s, Unlink(t)) && SectionOk(s, Unlink(t))
    ensures Changed(s, NodesAfter(s, Unlink(t)), v', t)
    ensures exists x :: Has(s.view.es, x) && x.key == s.threads[t].key && All(v'.es) == All(s.view.es) - {x}
  {
    v' := UnlinkIsSound(s, t);
    UnlinkTakes(s, t);
  }

  lemma DropTakes(s: State, t: Tid, index: int)
    requires Good(s) && Enabled(s, Drop(t, index))
    ensures var x := s.ns[Target(s.threads[t]).id].entries[index];
            Has(s.view.es, x) && x.key == s.threads[t].key
  {
    var h := TargetIsHome(s, t);
    assert s.view.es[h][index] in s.view.es[h];
  }

  lemma UnlinkTakes(s: State, t: Tid)
    requires Good(s) && Enabled(s, Unlink(t))
    ensures var x := Target(s.threads[t]).node.entries[0];
            Has(s.view.es, x) && x.key == s.threads[t].key
  {
    var p := UnlinkReady(s, t);
    assert s.view.es[p][0] in s.view.es[p];
  }

  /** A run can start from the empty list. */
  lemma EmptyListIsGood(ns: Nodes, start: PageId, sentinel: PageId, size: nat) returns (s: State)
    requires start != sentinel && size + 4 <= LIMIT
    requires ns == map[start := Node(1, 0, [Entry(INF_MIN, size, 0)], seq(LEVELS, _ => sentinel)),
                       sentinel := Node(LEVELS, 0, [Entry(INF_MAX, size, 0)], seq(LEVELS, _ => INVALID_PAGE))]
    ensures Good(s) && s.ns == ns && s.threads == map[] && s.latches == map[] && s.used == {start, sentinel}
  {
    var least, greatest := Entry(INF_MIN, size, 0), Entry(INF_MAX, size, 0);
    var v := View([start, sentinel], [LEVELS, LEVELS], [[least], [greatest]]);
    UsedOne(least);
    UsedOne(greatest);
    forall l | 0 <= l < LEVELS ensures LinkedAt(ns, v.order, v.hs, l) {
      assert IsNext(v.hs, 0, 1, l);
    }
    s := State(ns, v, start, {start, sentinel}, map[], map[]);
  }
}
