/** A thread that nobody disturbs: from every reachable state of the list it inserts any new key and
  * removes any stored one. */
module SoloThread {
  import opened Wrappers
  import opened SkipListNode
  import opened SkipListChain
  import opened SkipListContents
  import opened SkipListLinks
  import opened SkipList
  import opened SkipListSections
  import opened OptimisticValidation
  import opened OptimisticProgress

  // ---- runs of one thread ----

  predicate OnlyBy(es: seq<Event>, t: Tid) {
    forall i :: 0 <= i < |es| ==> es[i].t == t
  }

  /** Thread `t` is the only difference between `s0` and `s`; only it holds latches. */
  ghost predicate Apart(s0: State, s: State, t: Tid) {
    && s.ns == s0.ns && s.view == s0.view && s.start == s0.start && s.used == s0.used
    && t !in s0.threads && t in s.threads && s.threads == s0.threads[t := s.threads[t]]
    && forall x :: x in s.latches ==> s.latches[x] == t
  }

  /** Thread `t` has got from `s0` to `s` on its own, the list untouched. */
  ghost predicate Alone(s0: State, es: seq<Event>, s: State, t: Tid) {
    Good(s0) && Run(s0, es) == Some(s) && OnlyBy(es, t) && Apart(s0, s, t)
  }

  lemma Starts(s0: State, t: Tid, key: real) returns (es: seq<Event>, s: State)
    requires Good(s0) && t !in s0.threads && s0.latches == map[] && INF_MIN < key < INF_MAX
    ensures Alone(s0, es, s, t) && s.threads[t] == Thread(key, [], 0)
  {
    var none: seq<Event> := [];
    es := none + [Begin(t, key)];
    s := Step(s0, Begin(t, key));
    RunOneMore(s0, none, s0, Begin(t, key));
  }

  lemma LookKeepsApart(s0: State, s: State, t: Tid, l: nat, id: PageId)
    requires Good(s) && Apart(s0, s, t) && Enabled(s, Look(t, l, id))
    ensures var s', next := Step(s, Look(t, l, id)), s.ns[id].forward[l];
            && Apart(s0, s', t)
            && s'.threads[t] == s.threads[t].(seen := s.threads[t].seen + [Seen(l, id, s.ns[id], next, s.ns[next])])
  {
  }

  /** One node more noted. */
  lemma Notes(s0: State, es: seq<Event>, s: State, t: Tid, l: nat, id: PageId) returns (es': seq<Event>, s': State)
    requires Alone(s0, es, s, t) && Enabled(s, Look(t, l, id))
    ensures Alone(s0, es', s', t)
    ensures s'.threads[t].key == s.threads[t].key && s'.threads[t].locked == 0
    ensures var next := s.ns[id].forward[l];
            s'.threads[t].seen == s.threads[t].seen + [Seen(l, id, s.ns[id], next, s.ns[next])]
  {
    es' := es + [Look(t, l, id)];
    s' := Step(s, Look(t, l, id));
    RunOneMore(s0, es, s, Look(t, l, id));
    LookKeepsApart(s0, s, t, l, id);
  }

  lemma LockKeepsApart(s0: State, s: State, t: Tid)
    requires Good(s) && Apart(s0, s, t) && s.threads[t].locked < |s.threads[t].seen| && StillThere(s, t, s.threads[t].locked)
    ensures Enabled(s, Lock(t)) && Apart(s0, Step(s, Lock(t)), t)
    ensures Step(s, Lock(t)).threads[t] == s.threads[t].(locked := s.threads[t].locked + 1)
  {
    LockOutcome(s, t);
  }

  lemma NoteKept(s: State, s1: State, t: Tid, i: nat)
    requires t in s.threads && t in s1.threads && s1.threads[t].seen == s.threads[t].seen && s1.ns == s.ns
    requires forall x :: x in s1.latches ==> s1.latches[x] == t
    requires i < |s.threads[t].seen| && StillThere(s, t, i)
    ensures StillThere(s1, t, i)
  {
  }

  /** The same behind what the thread has done so far. */
  lemma {:induction false} Validates(s0: State, es: seq<Event>, s: State, t: Tid, k: nat) returns (es': seq<Event>, s': State)
    requires Alone(s0, es, s, t) && s.threads[t].locked == 0 && k <= |s.threads[t].seen| && Unchanged(s, t, 0)
    ensures Alone(s0, es', s', t) && s'.threads[t] == s.threads[t].(locked := k)
    decreases k, 1
  {
    if k == 0 {
      es', s' := es, s;
    } else {
      es', s' := ValidatesOneMore(s0, es, s, t, k);
    }
  }

  lemma ValidatesOneMore(s0: State, es: seq<Event>, s: State, t: Tid, k: nat) returns (es': seq<Event>, s': State)
    requires Alone(s0, es, s, t) && s.threads[t].locked == 0 && 0 < k <= |s.threads[t].seen| && Unchanged(s, t, 0)
    ensures Alone(s0, es', s', t) && s'.threads[t] == s.threads[t].(locked := k)
    decreases k, 0
  {
    var es1, s1 := Validates(s0, es, s, t, k - 1);
    assert StillThere(s, t, k - 1);
    NoteKept(s, s1, t, k - 1);
    LockKeepsApart(s0, s1, t);
    RunOneMore(s0, es1, s1, Lock(t));
    es', s' := es1 + [Lock(t)], Step(s1, Lock(t));
  }

  // ---- what a search finds to note ----

  lemma {:induction false} LastBelowExists(hs: seq<int>, bound: nat, l: int) returns (c: nat)
    requires 0 < bound <= |hs| && hs[0] > l
    ensures LastBelow(hs, bound, l, c)
  {
    if hs[bound - 1] > l { c := bound - 1; } else { c := LastBelowExists(hs, bound - 1, l); }
  }

  /** Any node of the list on chain `l` that starts at or below the key can be noted. */
  lemma CanLook(s: State, t: Tid, l: nat, c: nat) returns (q: nat)
    requires Good(s) && t in s.threads && s.threads[t].locked == 0 && l < LEVELS
    requires forall x :: x in s.latches ==> s.latches[x] == t
    requires c < |s.view.order| - 1 && s.view.hs[c] > l && s.view.es[c][0].key <= s.threads[t].key
    ensures var id := s.view.order[c];
            && Enabled(s, Look(t, l, id)) && s.ns[id].entries == s.view.es[c]
            && IsNext(s.view.hs, c, q, l) && s.ns[id].forward[l] == s.view.order[q]
            && s.ns[s.view.order[q]].entries == s.view.es[q]
  {
    q := NextOf(s.ns, s.view.order, s.view.hs, l, c);
    assert s.view.order[c] in s.ns && s.view.order[q] in s.ns;
  }

  /** `w` is what a search for the key notes on chain `l`, and it is so now. */
  ghost predicate NewNote(s: State, w: Seen, l: nat) {
    w.level == l && w.id in s.ns && s.ns[w.id] == w.node
  }

  /** On every chain the search finds a node whose next one lies beyond the key. */
  lemma NoteBeyond(s0: State, es: seq<Event>, s: State, t: Tid, l: nat, h: nat) returns (es': seq<Event>, s': State, w: Seen)
    requires Alone(s0, es, s, t) && s.threads[t].locked == 0 && l < LEVELS && INF_MIN < s.threads[t].key < INF_MAX
    requires IsHome(s.view.es, s.threads[t].key, h)
    ensures Alone(s0, es', s', t) && s'.threads[t] == s.threads[t].(seen := s.threads[t].seen + [w])
    ensures NewNote(s, w, l) && w.nextNode.entries != [] && Beyond(w, s.threads[t].key)
  {
    var c := LastBelowExists(s.view.hs, h + 1, l);
    HomeSplitsNodes(s.view.es, s.threads[t].key, h, c);
    var q := CanLook(s, t, l, c);
    HomeSplitsNodes(s.view.es, s.threads[t].key, h, q);
    var id := s.view.order[c];
    w := Seen(l, id, s.ns[id], s.view.order[q], s.ns[s.view.order[q]]);
    es', s' := Notes(s0, es, s, t, l, id);
  }

  /** On every chain of a node with one entry the search for its key finds the node before it. */
  lemma NoteBefore(s0: State, es: seq<Event>, s: State, t: Tid, l: nat, p: nat) returns (es': seq<Event>, s': State, w: Seen)
    requires Alone(s0, es, s, t) && s.threads[t].locked == 0 && l < LEVELS
    requires 0 < p < |s.view.order| - 1 && s.view.hs[p] > l && |s.view.es[p]| == 1 && s.view.es[p][0].key == s.threads[t].key
    ensures Alone(s0, es', s', t) && s'.threads[t] == s.threads[t].(seen := s.threads[t].seen + [w])
    ensures NewNote(s, w, l) && w.nextNode.entries != [] && RemovalCorner(w, s.threads[t].key)
  {
    var c := LastBelowExists(s.view.hs, p, l);
    FirstKeysOrder(s.view.es, c, p);
    var q := CanLook(s, t, l, c);
    assert q == p;
    var id := s.view.order[c];
    w := Seen(l, id, s.ns[id], s.view.order[q], s.ns[s.view.order[q]]);
    es', s' := Notes(s0, es, s, t, l, id);
  }

  lemma NoteTarget(s0: State, es: seq<Event>, s: State, t: Tid, p: nat) returns (es': seq<Event>, s': State, w: Seen)
    requires Alone(s0, es, s, t) && s.threads[t].locked == 0
    requires 0 < p < |s.view.order| - 1 && |s.view.es[p]| == 1 && s.view.es[p][0].key == s.threads[t].key
    ensures Alone(s0, es', s', t) && s'.threads[t] == s.threads[t].(seen := s.threads[t].seen + [w])
    ensures NewNote(s, w, 0) && w.node.level == s.view.hs[p] && Removable(w.node, s.threads[t].key)
  {
    var q := CanLook(s, t, 0, p);
    var id := s.view.order[p];
    w := Seen(0, id, s.ns[id], s.view.order[q], s.ns[s.view.order[q]]);
    es', s' := Notes(s0, es, s, t, 0, id);
  }

  /** `j` corners noted, from level `n - 1` down, each of the kind asked for and unchanged. */
  ghost predicate CornersNoted(s: State, t: Tid, key: real, n: nat, j: nat, removal: bool)
    requires t in s.threads
  {
    var th := s.threads[t];
    && th.key == key && th.locked == 0 && |th.seen| == j <= n
    && (forall i :: 0 <= i < j ==> th.seen[i].level == n - 1 - i)
    && (forall i :: 0 <= i < j ==> StillThere(s, t, i))
    && (!removal ==> forall i :: 0 <= i < j ==> SawBeyond(th, i))
    && (removal ==> forall i :: 0 <= i < j ==> SawForRemoval(th, i))
  }

  lemma OneCornerMore(s: State, s': State, t: Tid, key: real, n: nat, j: nat, removal: bool, w: Seen)
    requires t in s.threads && CornersNoted(s, t, key, n, j, removal) && j < n
    requires t in s'.threads && s'.threads[t] == s.threads[t].(seen := s.threads[t].seen + [w])
    requires s'.ns == s.ns && forall x :: x in s'.latches ==> s'.latches[x] == t
    requires NewNote(s, w, n - 1 - j) && w.nextNode.entries != []
    requires if removal then RemovalCorner(w, key) else Beyond(w, key)
    ensures CornersNoted(s', t, key, n, j + 1, removal)
  {
    var th, th' := s.threads[t], s'.threads[t];
    assert forall i :: 0 <= i < j ==> th'.seen[i] == th.seen[i];
    forall i | 0 <= i < j + 1 ensures StillThere(s', t, i) && th'.seen[i].level == n - 1 - i {
      if i < j { assert StillThere(s, t, i); }
    }
    forall i | 0 <= i < j + 1 ensures if removal then SawForRemoval(th', i) else SawBeyond(th', i) {
      if i < j { assert if removal then SawForRemoval(th, i) else SawBeyond(th, i); }
    }
  }

  /** A state from which a new thread may work alone. */
  ghost predicate Quiet(s: State, t: Tid) {
    Good(s) && t !in s.threads && s.latches == map[]
  }

  /** Where corners are looked for: behind the home of a key to insert, before a node to remove. */
  ghost predicate Place(s: State, key: real, n: nat, p: nat, removal: bool)
    requires Good(s)
  {
    && INF_MIN < key < INF_MAX && n <= LEVELS
    && if removal then 0 < p < |s.view.order| - 1 && s.view.hs[p] == n && |s.view.es[p]| == 1 && s.view.es[p][0].key == key
       else IsHome(s.view.es, key, p)
  }

  lemma {:induction false} NotesCorners(s0: State, t: Tid, key: real, n: nat, j: nat, p: nat, removal: bool)
    returns (es: seq<Event>, s: State)
    requires Quiet(s0, t) && Place(s0, key, n, p, removal) && j <= n
    ensures Alone(s0, es, s, t) && CornersNoted(s, t, key, n, j, removal)
  {
    if j == 0 {
      es, s := Starts(s0, t, key);
    } else {
      var es1, s1 := NotesCorners(s0, t, key, n, j - 1, p, removal);
      var w;
      if removal {
        es, s, w := NoteBefore(s0, es1, s1, t, n - j, p);
      } else {
        es, s, w := NoteBeyond(s0, es1, s1, t, n - j, p);
      }
      OneCornerMore(s1, s, t, key, n, j - 1, removal, w);
    }
  }

  // ---- whole insertions and removals ----

  /** The thread has done its section: `s'` has the nodes of the section, nobody's latch is left over. */
  ghost predicate Did(s0: State, es: seq<Event>, s': State, t: Tid) {
    && Good(s0) && Run(s0, es) == Some(s') && OnlyBy(es, t)
    && s'.threads == s0.threads && s'.latches == map[]
  }

  lemma NoLatch(latches: map<PageId, Tid>)
    requires forall x :: x !in latches
    ensures latches == map[]
  {
    assert forall x :: x !in latches.Keys;
    assert |latches.Keys| == 0;
  }

  lemma NothingLeft(s0: State, s: State, s': State, t: Tid)
    requires t !in s0.threads && t in s.threads && s.threads == s0.threads[t := s.threads[t]] && Gone(s, s', t)
    requires forall x :: x in s.latches ==> s.latches[x] == t
    ensures s'.threads == s0.threads && s'.latches == map[]
  {
    assert s.threads.Keys == s0.threads.Keys + {t};
    assert t !in s0.threads.Keys;
    assert s'.threads.Keys == s0.threads.Keys;
    assert forall u :: u in s'.threads ==> s'.threads[u] == s0.threads[u];
    NoLatch(s'.latches);
  }

  lemma Does(s0: State, es: seq<Event>, s: State, e: Event) returns (es': seq<Event>, s': State)
    requires Alone(s0, es, s, e.t) && Enabled(s, e) && IsSection(e)
    ensures Did(s0, es', s', e.t) && Possible(s, e) && s'.ns == NodesAfter(s, e)
  {
    RunOneMore(s0, es, s, e);
    es', s' := es + [e], Step(s, e);
    SectionEnds(s, e);
    NothingLeft(s0, s, s', e.t);
  }

  lemma {:induction false} NeighbourExists(b: seq<Entry>, key: real, n: nat) returns (index: nat)
    requires n < |b| && b[0].key < key && (n + 1 < |b| ==> key < b[n + 1].key)
    requires Sorted(b) && forall i :: 0 <= i < |b| ==> b[i].key != key
    ensures Neighbour(b, key, index)
  {
    if b[n].key < key { index := n; } else { index := NeighbourExists(b, key, n - 1); }
  }

  lemma {:induction false} SplitExists(b: seq<Entry>, i: nat) returns (split: nat)
    requires i < |b| && Used(b[..i]) < HALF
    ensures IsSplit(b, split)
    decreases |b| - i
  {
    if i == |b| - 1 || Used(b[..i + 1]) >= HALF { split := i; } else { split := SplitExists(b, i + 1); }
  }

  /** What the search for a new key finds: the node it belongs to, and where in it. */
  lemma PlaceToPut(s: State, e: Entry) returns (h: nat, index: nat)
    requires Good(s) && INF_MIN < e.key < INF_MAX && forall x :: x in Stored(s.ns) ==> x.key != e.key
    ensures IsHome(s.view.es, e.key, h) && Neighbour(s.view.es[h], e.key, index)
  {
    h := HomeExists(s.view.es, e.key);
    StoredIsAll(s.ns, s.view);
    var b := s.view.es[h];
    assert BlockOk(b);
    forall i | 0 <= i < |b| ensures b[i].key != e.key {
      assert b[i] in b && Has(s.view.es, b[i]);
    }
    index := NeighbourExists(b, e.key, |b| - 1);
  }

  /** The thread has noted and latched everything its section needs. */
  lemma ReachesSection(s0: State, t: Tid, key: real, n: nat, p: nat, removal: bool) returns (es: seq<Event>, s: State)
    requires Quiet(s0, t) && Place(s0, key, n, p, removal) && n > 0
    ensures Alone(s0, es, s, t) && s.threads[t].key == key && Validated(s.threads[t])
    ensures |s.threads[t].seen| == if removal then n + 1 else n
    ensures LevelsDown(s.threads[t].seen, n)
    ensures forall i :: 0 <= i < n ==> if removal then SawForRemoval(s.threads[t], i) else SawBeyond(s.threads[t], i)
    ensures removal ==> Target(s.threads[t]).node.level == n && Removable(Target(s.threads[t]).node, key)
  {
    var es1, s1 := NotesCorners(s0, t, key, n, n, p, removal);
    if removal {
      var es2, s2, w := NoteTarget(s0, es1, s1, t, p);
      TargetNoted(s1, s2, t, key, n, w);
      es, s := Validates(s0, es2, s2, t, n + 1);
      SameCorners(s2.threads[t], s.threads[t], n, removal);
    } else {
      es, s := Validates(s0, es1, s1, t, n);
      SameCorners(s1.threads[t], s.threads[t], n, removal);
    }
  }

  lemma SameCorners(th: Thread, th': Thread, n: nat, removal: bool)
    requires th'.seen == th.seen && th'.key == th.key && n <= |th.seen|
    requires forall i :: 0 <= i < n ==> th.seen[i].level == n - 1 - i
    requires forall i :: 0 <= i < n ==> if removal then SawForRemoval(th, i) else SawBeyond(th, i)
    ensures LevelsDown(th'.seen, n)
    ensures forall i :: 0 <= i < n ==> if removal then SawForRemoval(th', i) else SawBeyond(th', i)
  {
    forall i | 0 <= i < n ensures if removal then SawForRemoval(th', i) else SawBeyond(th', i) {
      assert if removal then SawForRemoval(th, i) else SawBeyond(th, i);
    }
  }

  lemma TargetNoted(s: State, s': State, t: Tid, key: real, n: nat, w: Seen)
    requires t in s.threads && CornersNoted(s, t, key, n, n, true)
    requires t in s'.threads && s'.threads[t] == s.threads[t].(seen := s.threads[t].seen + [w])
    requires s'.ns == s.ns && (forall x :: x in s'.latches ==> s'.latches[x] == t) && NewNote(s, w, 0)
    ensures Unchanged(s', t, 0) && LevelsDown(s'.threads[t].seen, n) && Target(s'.threads[t]) == w
    ensures forall i :: 0 <= i < n ==> SawForRemoval(s'.threads[t], i)
  {
    var th, th' := s.threads[t], s'.threads[t];
    assert forall i :: 0 <= i < n ==> th'.seen[i] == th.seen[i];
    forall i | 0 <= i < |th'.seen| ensures StillThere(s', t, i) {
      if i < n { assert StillThere(s, t, i); }
    }
    forall i | 0 <= i < n ensures SawForRemoval(th', i) {
      assert SawForRemoval(th, i);
    }
  }

  /** The section of an insertion, once everything is latched: a plain one if the node has room and only
    * it was noted, a split if it has not. */
  lemma CanPut(s: State, t: Tid, e: Entry, newId: PageId) returns (ev: Event)
    requires Good(s) && t in s.threads && s.threads[t].key == e.key && Validated(s.threads[t]) && newId !in s.used
    requires |s.threads[t].seen| <= LEVELS && LevelsDown(s.threads[t].seen, |s.threads[t].seen|)
    requires forall i :: 0 <= i < |s.threads[t].seen| ==> SawBeyond(s.threads[t], i)
    requires Need(e) <= LIMIT && forall x :: x in Stored(s.ns) ==> x.key != e.key
    requires Target(s.threads[t]).id in s.ns ==>
               (Used(s.ns[Target(s.threads[t]).id].entries) + Need(e) <= CAPACITY ==> |s.threads[t].seen| == 1)
    ensures ev.t == t && Enabled(s, ev) && (ev.Put? || ev.Split?) && ev.e == e
    ensures Target(s.threads[t]).id in s.ns
    ensures ev.Put? <==> Used(s.ns[Target(s.threads[t]).id].entries) + Need(e) <= CAPACITY
  {
    assert INF_MIN < e.key < INF_MAX by { assert ThreadOk(s, t, s.threads[t]); }
    var h1, index := PlaceToPut(s, e);
    var h := TargetIsHome(s, t);
    HomeSplitsNodes(s.view.es, e.key, h, h1);
    HomeSplitsNodes(s.view.es, e.key, h1, h);
    var b := s.view.es[h];
    assert BlockOk(b);
    if Used(b) + Need(e) <= CAPACITY {
      ev := Put(t, e, index);
    } else {
      assert b[..0] == [];
      var split := SplitExists(b, 0);
      ev := Split(t, newId, split, e, index);
    }
  }

  /** From every reachable state in which nobody holds a latch, a thread alone inserts any entry of a new
    * key, on as many levels as it likes should the node have to be split. */
  lemma AnyKeyCanBeInserted(s: State, t: Tid, e: Entry, levels: nat, newId: PageId) returns (es: seq<Event>, s': State)
    requires Quiet(s, t) && INF_MIN < e.key < INF_MAX && Need(e) <= LIMIT && 1 <= levels <= LEVELS && newId !in s.used
    requires forall x :: x in Stored(s.ns) ==> x.key != e.key
    ensures Did(s, es, s', t) && Good(s') && Stored(s'.ns) == Stored(s.ns) + {e}
  {
    var h, _ := PlaceToPut(s, e);
    var n := if Used(s.view.es[h]) + Need(e) <= CAPACITY then 1 else levels;
    var es1, s1 := ReachesSection(s, t, e.key, n, h, false);
    var h1 := TargetIsHome(s1, t);
    HomeSplitsNodes(s.view.es, e.key, h, h1);
    HomeSplitsNodes(s.view.es, e.key, h1, h);
    var ev := CanPut(s1, t, e, newId);
    SectionActsOnSet(s1, ev);
    es, s' := Does(s, es1, s1, ev);
  }

  /** From every such state a thread alone removes any entry but the two markers. */
  lemma AnyKeyCanBeRemoved(s: State, t: Tid, x: Entry) returns (es: seq<Event>, s': State)
    requires Quiet(s, t) && x in Stored(s.ns) && INF_MIN < x.key < INF_MAX
    ensures Did(s, es, s', t) && Good(s') && Stored(s'.ns) == Stored(s.ns) - {x}
  {
    StoredIsAll(s.ns, s.view);
    var h := HomeExists(s.view.es, x.key);
    assert HasKey(s.view.es, x.key);
    HasKeyAtHome(s.view.es, x.key, h);
    var index :| 0 <= index < |s.view.es[h]| && s.view.es[h][index].key == x.key;
    if |s.view.es[h]| > 1 {
      es, s' := DropsEntry(s, t, x, h, index);
    } else {
      es, s' := UnlinksNode(s, t, x, h);
    }
  }

  lemma OnlyOneGoes(s: State, x: Entry, y: Entry)
    requires Good(s) && x in Stored(s.ns) && y in Stored(s.ns) && x.key == y.key
    ensures x == y
  {
    StoredIsAll(s.ns, s.view);
    KeysAreUnique(s.view.es, x, y);
  }

  lemma Takes(s: State, es1: seq<Event>, s1: State, e: Event, x: Entry) returns (es: seq<Event>, s': State)
    requires Alone(s, es1, s1, e.t) && Enabled(s1, e) && (e.Drop? || e.Unlink?)
    requires x in Stored(s.ns) && s1.threads[e.t].key == x.key
    ensures Did(s, es, s', e.t) && Good(s') && Stored(s'.ns) == Stored(s.ns) - {x}
  {
    SectionActsOnSet(s1, e);
    es, s' := Does(s, es1, s1, e);
    var y :| y in Stored(s.ns) && y.key == x.key && Stored(s'.ns) == Stored(s.ns) - {y};
    OnlyOneGoes(s, x, y);
  }

  lemma DropsEntry(s: State, t: Tid, x: Entry, h: nat, index: nat) returns (es: seq<Event>, s': State)
    requires Quiet(s, t) && x in Stored(s.ns) && INF_MIN < x.key < INF_MAX && IsHome(s.view.es, x.key, h)
    requires |s.view.es[h]| > 1 && index < |s.view.es[h]| && s.view.es[h][index].key == x.key
    ensures Did(s, es, s', t) && Good(s') && Stored(s'.ns) == Stored(s.ns) - {x}
  {
    var es1, s1 := ReachesSection(s, t, x.key, 1, h, false);
    var h1 := TargetIsHome(s1, t);
    HomeSplitsNodes(s.view.es, x.key, h, h1);
    HomeSplitsNodes(s.view.es, x.key, h1, h);
    es, s' := Takes(s, es1, s1, Drop(t, index), x);
  }

  lemma UnlinksNode(s: State, t: Tid, x: Entry, h: nat) returns (es: seq<Event>, s': State)
    requires Quiet(s, t) && x in Stored(s.ns) && INF_MIN < x.key < INF_MAX && IsHome(s.view.es, x.key, h)
    requires |s.view.es[h]| == 1 && s.view.es[h][0].key == x.key
    ensures Did(s, es, s', t) && Good(s') && Stored(s'.ns) == Stored(s.ns) - {x}
  {
    var es1, s1 := ReachesSection(s, t, x.key, s.view.hs[h], h, true);
    es, s' := Takes(s, es1, s1, Unlink(t), x);
  }

  /** A run from the empty list that ends with the entry stored, and one on from there that ends without it. */
  lemma EmptyListStores(start: PageId, sentinel: PageId, size: nat, t: Tid, e: Entry, newId: PageId)
    returns (s0: State, es: seq<Event>, s1: State, fs: seq<Event>, s2: State)
    requires start != sentinel && size + 4 <= LIMIT && newId != start && newId != sentinel
    requires INF_MIN < e.key < INF_MAX && Need(e) <= LIMIT
    ensures Good(s0) && Stored(s0.ns) == {Entry(INF_MIN, size, 0), Entry(INF_MAX, size, 0)}
    ensures Run(s0, es) == Some(s1) && Good(s1) && Stored(s1.ns) == Stored(s0.ns) + {e}
    ensures Run(s1, fs) == Some(s2) && Stored(s2.ns) == Stored(s0.ns)
  {
    var ns := map[start := Node(1, 0, [Entry(INF_MIN, size, 0)], seq(LEVELS, _ => sentinel)),
                  sentinel := Node(LEVELS, 0, [Entry(INF_MAX, size, 0)], seq(LEVELS, _ => INVALID_PAGE))];
    s0 := EmptyListIsGood(ns, start, sentinel, size);
    assert Stored(s0.ns) == {Entry(INF_MIN, size, 0), Entry(INF_MAX, size, 0)};
    es, s1 := AnyKeyCanBeInserted(s0, t, e, 1, newId);
    fs, s2 := AnyKeyCanBeRemoved(s1, t, e);
  }
}
