/** Searches get through: a validation succeeds exactly when the node has not changed, a thread whose
  * notes still hold is validated by its own steps, and a section ends its thread. */
module OptimisticProgress {
  import opened Wrappers
  import opened SkipListNode
  import opened SkipListChain
  import opened SkipListContents
  import opened SkipListLinks
  import opened SkipList
  import opened SkipListSections
  import opened OptimisticValidation

  /** The thread has ended and holds no latch; nobody else's thread or latch has moved. */
  ghost predicate Gone(s: State, s': State, t: Tid) {
    && s'.threads.Keys == s.threads.Keys - {t}
    && (forall u :: u in s'.threads ==> s'.threads[u] == s.threads[u])
    && (forall x :: x in s'.latches <==> x in s.latches && s.latches[x] != t)
    && (forall x :: x in s'.latches ==> s'.latches[x] == s.latches[x])
  }

  /** A latch is kept if and only if the node is still in the list with the LSN noted, and then it is
    * the node noted; otherwise everything is let go of. */
  lemma LockOutcome(s: State, t: Tid)
    requires Good(s) && Enabled(s, Lock(t))
    ensures var th := s.threads[t];
            var w := th.seen[th.locked];
            var s' := Step(s, Lock(t));
            && s'.ns == s.ns && s'.view == s.view && s'.start == s.start && s'.used == s.used
            && (if w.id in s.ns && s.ns[w.id].lsn == w.node.lsn
                then s'.latches == s.latches[w.id := t] && s'.threads == s.threads[t := th.(locked := th.locked + 1)]
                     && s.ns[w.id] == w.node
                else Gone(s, s', t))
  {
    assert ThreadOk(s, t, s.threads[t]);
    assert s.used + s.ns.Keys == s.used;
  }

  /** A section ends its thread. */
  lemma SectionEnds(s: State, e: Event)
    requires Good(s) && Enabled(s, e) && IsSection(e)
    ensures Possible(s, e) && Step(s, e).ns == NodesAfter(s, e) && Gone(s, Step(s, e), e.t)
    ensures Step(s, e).used == s.used + NodesAfter(s, e).Keys
  {
    SectionIsSound(s, e);
    var ns' := NodesAfter(s, e);
    var v' :| Changed(s, ns', v', e.t) && Step(s, e) == Finished(s, e.t, ns', v');
    FinishedIsGone(s, e.t, ns', v');
  }

  lemma FinishedIsGone(s: State, t: Tid, ns': Nodes, v': View)
    ensures var s' := Finished(s, t, ns', v'); Gone(s, s', t) && s'.ns == ns' && s'.used == s.used + ns'.Keys
  {
  }

  // ---- validation ----

  lemma RunOneMore(s0: State, es: seq<Event>, s: State, e: Event)
    requires Good(s0) && Run(s0, es) == Some(s) && Enabled(s, e)
    ensures Run(s0, es + [e]) == Some(Step(s, e)) && Good(Step(s, e))
  {
    assert (es + [e])[..|es|] == es;
    StepKeepsGood(s, e);
  }

  /** The node noted at index `i` is in the list with its LSN, and nobody else has it latched. */
  predicate StillThere(s: State, t: Tid, i: nat)
    requires t in s.threads && i < |s.threads[t].seen|
  {
    var w := s.threads[t].seen[i];
    w.id in s.ns && s.ns[w.id].lsn == w.node.lsn && Free(s, w.id, t)
  }

  /** So it is with everything noted from index `i` on. */
  ghost predicate Unchanged(s: State, t: Tid, i: nat)
    requires t in s.threads
  {
    forall j :: i <= j < |s.threads[t].seen| ==> StillThere(s, t, j)
  }

  /** `s'` is `s` but for the latches thread `t` has taken. */
  ghost predicate Latched(s: State, s': State, t: Tid, locked: nat)
    requires t in s.threads
  {
    && s'.ns == s.ns && s'.view == s.view && s'.start == s.start && s'.used == s.used
    && s'.threads == s.threads[t := s.threads[t].(locked := locked)]
    && (forall x :: x in s.latches ==> x in s'.latches && s'.latches[x] == s.latches[x])
    && (forall x :: x in s'.latches ==> s'.latches[x] == t || (x in s.latches && s'.latches[x] == s.latches[x]))
  }

  predicate AllLocks(es: seq<Event>, t: Tid) {
    forall i :: 0 <= i < |es| ==> es[i] == Lock(t)
  }

  lemma LatchedMore(s: State, s1: State, t: Tid, i: nat)
    requires Good(s1) && t in s.threads && i < |s.threads[t].seen| && Latched(s, s1, t, i)
    requires StillThere(s, t, i)
    ensures Enabled(s1, Lock(t)) && Latched(s, Step(s1, Lock(t)), t, i + 1)
  {
    LockOutcome(s1, t);
  }

  /** Thread `t` has latched its notes up to `i`, by lock steps alone. */
  ghost predicate Latching(s: State, es: seq<Event>, s1: State, t: Tid, i: nat) {
    && Good(s) && Run(s, es) == Some(s1) && AllLocks(es, t)
    && t in s.threads && i <= |s.threads[t].seen| && Latched(s, s1, t, i)
  }

  lemma RunOneMoreLock(s: State, es: seq<Event>, s1: State, t: Tid, i: nat) returns (s': State)
    requires Good(s) && Run(s, es) == Some(s1) && t in s.threads && 0 < i <= |s.threads[t].seen|
    requires Latched(s, s1, t, i - 1) && StillThere(s, t, i - 1)
    ensures Run(s, es + [Lock(t)]) == Some(s') && Latched(s, s', t, i)
  {
    LatchedMore(s, s1, t, i - 1);
    RunOneMore(s, es, s1, Lock(t));
    s' := Step(s1, Lock(t));
  }

  lemma OneLockMore(s: State, t: Tid, i: nat) returns (es': seq<Event>, s': State)
    requires Good(s) && t in s.threads && s.threads[t].locked < i <= |s.threads[t].seen|
    requires Unchanged(s, t, s.threads[t].locked)
    ensures Latching(s, es', s', t, i) && |es'| == i - s.threads[t].locked
    decreases i, 0
  {
    var es, s1 := LocksSucceed(s, t, i - 1);
    assert StillThere(s, t, i - 1);
    assert s1.threads == s.threads[t := s.threads[t].(locked := i - 1)];
    s' := RunOneMoreLock(s, es, s1, t, i);
    es' := es + [Lock(t)];
  }

  lemma NothingLatched(s: State, t: Tid)
    requires Good(s) && t in s.threads
    ensures s.threads[t].locked <= |s.threads[t].seen| && Latching(s, [], s, t, s.threads[t].locked)
  {
    assert ThreadOk(s, t, s.threads[t]);
  }

  /** Lock steps alone validate a thread whose notes still hold, whoever else holds other latches. */
  lemma {:induction false} LocksSucceed(s: State, t: Tid, i: nat) returns (es: seq<Event>, s': State)
    requires Good(s) && t in s.threads && s.threads[t].locked <= i <= |s.threads[t].seen|
    requires Unchanged(s, t, s.threads[t].locked)
    ensures Latching(s, es, s', t, i) && |es| == i - s.threads[t].locked
    ensures i == |s.threads[t].seen| > 0 ==> Validated(s'.threads[t])
    decreases i, 1
  {
    if i == s.threads[t].locked {
      es, s' := [], s;
      NothingLatched(s, t);
    } else {
      es, s' := OneLockMore(s, t, i);
    }
  }
}
