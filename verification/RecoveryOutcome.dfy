/** What redo followed by undo leaves behind, and where it goes wrong. */
module RecoveryOutcome {
  import opened Wrappers
  import opened Bytes
  import opened SlottedPage
  import opened LockTable
  import opened Transactions
  import opened TransactionSafety
  import opened Serializability
  import opened Recovery
  import opened RecoveryTheorem

  // ---- undoing one loser ----

  ghost predicate AllRewind(ps: Pages, cs: seq<Change>) {
    forall rid :: Rewind(cs, rid, Val(ps, rid)).Some?
  }

  /** The slots after taking back `cs`. */
  ghost predicate TakenBack(ps: Pages, qs: Pages, cs: seq<Change>) {
    && WellFormedPages(qs) && qs.Keys == ps.Keys
    && forall rid :: Some(Val(qs, rid)) == Rewind(cs, rid, Val(ps, rid))
  }

  lemma {:induction false} UndoOneChange(ps: Pages, body: LogBody, cs: seq<Change>, c: Change)
    requires WellFormedPages(ps) && AllRewind(ps, cs + [c]) && Describes(body, c)
    ensures UndoRecord(ps, body).Some?
    ensures var qs := UndoRecord(ps, body).value;
            && WellFormedPages(qs) && qs.Keys == ps.Keys
            && forall rid :: Rewind(cs, rid, Val(qs, rid)) == Rewind(cs + [c], rid, Val(ps, rid))
  {
    RewindLast(cs, c, c.rid, Val(ps, c.rid));
    assert Leaves(c, Val(ps, c.rid));
    var p := ps[c.rid.page];
    PutWellFormed(p, c.rid.slot, Origin(c));
    assert UndoOn(p, body) == Some(Put(p, c.rid.slot, Origin(c)));
    var qs := UndoRecord(ps, body).value;
    assert qs == PutVal(ps, c.rid, Origin(c));
    forall rid ensures Rewind(cs, rid, Val(qs, rid)) == Rewind(cs + [c], rid, Val(ps, rid)) {
      RewindLast(cs, c, rid, Val(ps, rid));
    }
  }

  lemma {:induction false} UndoLoser(ps: Pages, log: seq<LogRecord>, lsn: int, cs: seq<Change>)
    requires WellFormedPages(ps) && ChainsDown(log) && -1 <= lsn < |log|
    requires AllDescribe(ChainBodies(log, lsn), cs) && AllRewind(ps, cs)
    ensures UndoChain(ps, log, lsn).Some? && TakenBack(ps, UndoChain(ps, log, lsn).value, cs)
    decreases lsn
  {
    if lsn == -1 {
    } else if PageOf(log[lsn].body).None? {
      UndoLoser(ps, log, log[lsn].prev, cs);
    } else {
      var was := ChainBodies(log, log[lsn].prev);
      var n := |cs| - 1;
      assert ChainBodies(log, lsn)[n] == log[lsn].body;
      assert cs == cs[..n] + [cs[n]];
      UndoOneChange(ps, log[lsn].body, cs[..n], cs[n]);
      var qs := UndoRecord(ps, log[lsn].body).value;
      assert was == ChainBodies(log, lsn)[..n];
      UndoLoser(qs, log, log[lsn].prev, cs[..n]);
    }
  }

  // ---- undoing all losers ----

  predicate LockedByOneOf(s: State, order: seq<TxnId>, rid: RID) {
    exists i :: 0 <= i < |order| && LockedBy(s, order[i], rid)
  }

  predicate LockedBy(s: State, t: TxnId, rid: RID) {
    t in s.txns && Live(s.txns[t]) && rid in s.txns[t].held.exclusive
  }

  /** After the losers in `order`: what they locked is as they found it, the rest is untouched. */
  ghost predicate LosersUndone(s: State, order: seq<TxnId>, qs: Pages) {
    && WellFormedPages(qs)
    && forall rid :: Val(qs, rid) == if LockedByOneOf(s, order, rid) then Durable(s, rid) else Val(s.pages, rid)
  }

  lemma {:induction false} OneMoreLoser(s: State, order: seq<TxnId>, qs: Pages, t: TxnId, cs: seq<Change>)
    requires Safe(s) && LosersUndone(s, order, qs) && t in s.txns && Open(s.txns[t]) && t !in order
    requires TakesBack(s.pages, s.txns[t], cs)
    ensures AllRewind(qs, cs)
    ensures forall rs :: TakenBack(qs, rs, cs) ==> LosersUndone(s, order + [t], rs)
  {
    var x := s.txns[t];
    forall rid
      ensures rid in x.held.exclusive ==> !LockedByOneOf(s, order, rid)
      ensures Rewind(cs, rid, Val(qs, rid)) ==
              Some(if rid in x.held.exclusive then Durable(s, rid) else Val(qs, rid))
    {
      if rid in x.held.exclusive {
        DurableOfHolder(s, t, rid);
        if i :| 0 <= i < |order| && LockedBy(s, order[i], rid) {
          LocksExclude(s, t, order[i], rid);
        }
      } else {
        RewindUntouched(cs, rid, Val(qs, rid));
      }
    }
    forall rs | TakenBack(qs, rs, cs) ensures LosersUndone(s, order + [t], rs) {
      forall rid
        ensures Val(rs, rid) == if LockedByOneOf(s, order + [t], rid) then Durable(s, rid) else Val(s.pages, rid)
      {
        OneMoreLock(s, order, t, rid);
        assert Some(Val(rs, rid)) == Rewind(cs, rid, Val(qs, rid));
      }
    }
  }

  lemma OneMoreLock(s: State, order: seq<TxnId>, t: TxnId, rid: RID)
    requires t in s.txns
    ensures LockedByOneOf(s, order + [t], rid) <==> LockedByOneOf(s, order, rid) || LockedBy(s, t, rid)
  {
    var all := order + [t];
    if LockedBy(s, t, rid) { assert all[|order|] == t; }
    if LockedByOneOf(s, order, rid) {
      var i :| 0 <= i < |order| && LockedBy(s, order[i], rid);
      assert all[i] == order[i];
    }
  }

  // ---- a transaction that aborted: its whole chain, compensations included, is undone once more ----

  lemma {:induction false} ActiveIsLast(log: seq<LogRecord>, t: TxnId, j: nat)
    requires t in ActiveAfter(log) && j < |log| && log[j].txn == t
    ensures j <= ActiveAfter(log)[t]
  {
    var n := |log| - 1;
    if log[n].txn != t { ActiveIsLast(log[..n], t, j); }
  }

  /** Where an aborted transaction wrote, what it found is still there. */
  lemma {:induction false} QuitterFindsAgain(ps: Pages, s: State, t: TxnId, i: nat, rid: RID)
    requires LogOk(ps, s) && Unfollowed(s.log) && t in s.txns && GaveUp(s.log, s.txns[t])
    requires i < |s.log| && s.log[i].txn == t && RidOf(s.log[i].body) == Some(rid) && rid in s.txns[t].held.exclusive
    ensures rid in s.txns[t].before && Val(s.pages, rid) == s.txns[t].before[rid]
  {
    var x := s.txns[t];
    assert t in ActiveAfter(s.log) && ActiveAfter(s.log)[t] == x.prevLsn;
    assert s.log[x.prevLsn].txn == t;
    ActiveIsLast(s.log, t, i);
    forall j | x.prevLsn <= j < |s.log| && 0 <= j ensures RidOf(s.log[j].body) != Some(rid) {
      if RidOf(s.log[j].body) == Some(rid) {
        assert j != x.prevLsn;
        assert SameRid(s.log[i].body, s.log[j].body);
        assert AbortedIn(s.log, t);
        ActiveIsLast(s.log, t, j);
      }
    }
    assert NotWrittenFrom(s.log, x.prevLsn, rid);
    assert StillThere(s, t);
  }

  /** A loser that holds such a RID has not written it, so there is nothing to take back. */
  lemma {:induction false} LoserLeavesIt(ps: Pages, s: State, t: TxnId, i: nat, rid: RID, u: TxnId)
    requires Safe(s) && LogOk(ps, s) && Unfollowed(s.log) && LosersAppliedNothing(s.log)
    requires t in s.txns && GaveUp(s.log, s.txns[t]) && i < |s.log| && s.log[i].txn == t && RidOf(s.log[i].body) == Some(rid)
    requires u in s.txns && Open(s.txns[u]) && rid in s.txns[u].held.exclusive
    ensures Durable(s, rid) == Val(s.pages, rid)
  {
    var cs := LoserCanBeTakenBack(ps, s, u);
    var bodies := ChainBodies(s.log, s.txns[u].prevLsn);
    forall k: nat | k < |cs| ensures cs[k].rid != rid {
      if cs[k].rid == rid {
        assert Describes(bodies[k], cs[k]);
        var j := ChainIsOwn(s.log, s.txns[u].prevLsn, u, k);
        NotBoth(s, t, i, u, j);
      }
    }
    DurableOfHolder(s, u, rid);
    RewindUntouched(cs, rid, Val(s.pages, rid));
  }

  lemma NotBoth(s: State, t: TxnId, i: nat, u: TxnId, j: nat)
    requires WritesLocked(s) && Unfollowed(s.log) && t in s.txns && GaveUp(s.log, s.txns[t]) && u in s.txns && Live(s.txns[u])
    requires s.log[s.txns[t].prevLsn].txn == t
    requires i < |s.log| && s.log[i].txn == t && j < |s.log| && s.log[j].txn == u
    ensures !SameRid(s.log[i].body, s.log[j].body)
  {
    if SameRid(s.log[i].body, s.log[j].body) { assert AbortedIn(s.log, t); }
  }

  /** What undo works on where an aborted transaction wrote is what that transaction found. */
  lemma {:induction false} QuitterUndoesOnFound(ps: Pages, s: State, order: seq<TxnId>, qs: Pages, t: TxnId, cs: seq<Change>, k: nat)
    requires Safe(s) && LogOk(ps, s) && Unfollowed(s.log) && LosersAppliedNothing(s.log)
    requires LosersUndone(s, order, qs) && (forall i :: 0 <= i < |order| ==> order[i] in ActiveAfter(s.log))
    requires t in s.txns && GaveUp(s.log, s.txns[t]) && Cancels(s.txns[t], cs)
    requires AllDescribe(ChainBodies(s.log, s.txns[t].prevLsn), cs) && k < |cs|
    ensures cs[k].rid in s.txns[t].held.exclusive && cs[k].rid in s.txns[t].before
    ensures Val(qs, cs[k].rid) == s.txns[t].before[cs[k].rid]
  {
    var rid := cs[k].rid;
    assert cs[k] in cs;
    assert Describes(ChainBodies(s.log, s.txns[t].prevLsn)[k], cs[k]);
    assert s.log[s.txns[t].prevLsn].txn == t;
    var i := ChainIsOwn(s.log, s.txns[t].prevLsn, t, k);
    QuitterFindsAgain(ps, s, t, i, rid);
    if LockedByOneOf(s, order, rid) {
      var m :| 0 <= m < |order| && LockedBy(s, order[m], rid);
      LoserLeavesIt(ps, s, t, i, rid, order[m]);
    }
  }

  /** Undoing an aborted transaction's chain once more changes nothing. */
  lemma {:induction false} UndoQuitter(ps: Pages, s: State, order: seq<TxnId>, qs: Pages, t: TxnId)
    requires Safe(s) && LogOk(ps, s) && Unfollowed(s.log) && LosersAppliedNothing(s.log)
    requires LosersUndone(s, order, qs) && (forall i :: 0 <= i < |order| ==> order[i] in ActiveAfter(s.log))
    requires t in s.txns && GaveUp(s.log, s.txns[t])
    ensures var r := UndoChain(qs, s.log, s.txns[t].prevLsn); r.Some? && LosersUndone(s, order + [t], r.value)
  {
    var x := s.txns[t];
    LoserNotApplied(s, t);
    assert ChainOk(s.pages, x, ChainBodies(s.log, x.prevLsn));
    var cs: seq<Change> :| AllDescribe(ChainBodies(s.log, x.prevLsn), cs) && Cancels(x, cs);
    forall rid ensures Rewind(cs, rid, Val(qs, rid)) == Some(Val(qs, rid)) {
      if k: nat :| k < |cs| && cs[k].rid == rid {
        QuitterUndoesOnFound(ps, s, order, qs, t, cs, k);
      } else {
        RewindUntouched(cs, rid, Val(qs, rid));
      }
    }
    UndoLoser(qs, s.log, x.prevLsn, cs);
    QuitterAdds(s, order, qs, UndoChain(qs, s.log, x.prevLsn).value, t, cs);
  }

  lemma {:induction false} QuitterAdds(s: State, order: seq<TxnId>, qs: Pages, rs: Pages, t: TxnId, cs: seq<Change>)
    requires LosersUndone(s, order, qs) && t in s.txns && !Live(s.txns[t]) && TakenBack(qs, rs, cs)
    requires forall rid :: Rewind(cs, rid, Val(qs, rid)) == Some(Val(qs, rid))
    ensures LosersUndone(s, order + [t], rs)
  {
    forall rid
      ensures Val(rs, rid) == if LockedByOneOf(s, order + [t], rid) then Durable(s, rid) else Val(s.pages, rid)
    {
      OneMoreLock(s, order, t, rid);
      assert Some(Val(rs, rid)) == Rewind(cs, rid, Val(qs, rid));
    }
  }

  /** The order in which the loser map is iterated: every loser once. */
  ghost predicate Enumerates(order: seq<TxnId>, active: map<TxnId, int>) {
    && (forall t :: t in active <==> t in order)
    && (forall i :: 0 <= i < |order| ==> order[i] in active)
    && (forall i, j :: 0 <= i < j < |order| ==> order[i] != order[j])
  }

  lemma {:induction false} ChainIsOwn(log: seq<LogRecord>, lsn: int, t: TxnId, k: nat) returns (i: nat)
    requires ChainsOwn(log) && 0 <= lsn < |log| && log[lsn].txn == t && k < |ChainBodies(log, lsn)|
    ensures i < |log| && log[i].txn == t && log[i].body == ChainBodies(log, lsn)[k]
    decreases lsn
  {
    var was := ChainBodies(log, log[lsn].prev);
    if k < |was| { i := ChainIsOwn(log, log[lsn].prev, t, k); } else { i := lsn; }
  }

  lemma {:induction false} LoserNotApplied(s: State, t: TxnId)
    requires Tracks(s) && LosersAppliedNothing(s.log) && t in s.txns && Pending(s.log, s.txns[t])
    ensures !Applied(ChainBodies(s.log, s.txns[t].prevLsn))
  {
    var bodies := ChainBodies(s.log, s.txns[t].prevLsn);
    forall k | 0 <= k < |bodies| ensures !bodies[k].ApplyDeleteRec? {
      var i := ChainIsOwn(s.log, s.txns[t].prevLsn, t, k);
    }
  }

  /** An open transaction that has applied no delete can be taken back from its log chain. */
  lemma {:induction false} LoserCanBeTakenBack(ps: Pages, s: State, t: TxnId) returns (cs: seq<Change>)
    requires Safe(s) && LogOk(ps, s) && LosersAppliedNothing(s.log) && t in s.txns && Open(s.txns[t])
    ensures AllDescribe(ChainBodies(s.log, s.txns[t].prevLsn), cs) && TakesBack(s.pages, s.txns[t], cs)
  {
    var x := s.txns[t];
    var bodies := ChainBodies(s.log, x.prevLsn);
    assert ChainOk(s.pages, x, bodies);
    assert TxnOk(s.pages, x);
    if x.phase == Committing || x.phase == Aborting {
      LoserNotApplied(s, t);
      cs :| AllDescribe(bodies, cs) && TakesBack(s.pages, x, cs);
    } else {
      cs := TxnChanges(x);
    }
  }

  /** One more loser undone on top of the others. */
  lemma {:induction false} UndoNextLoser(ps: Pages, s: State, order: seq<TxnId>, qs: Pages, t: TxnId)
    requires Safe(s) && LogOk(ps, s) && LosersAppliedNothing(s.log) && LosersUndone(s, order, qs)
    requires t in s.txns && Open(s.txns[t]) && t !in order
    ensures var r := UndoChain(qs, s.log, s.txns[t].prevLsn); r.Some? && LosersUndone(s, order + [t], r.value)
  {
    var cs := LoserCanBeTakenBack(ps, s, t);
    OneMoreLoser(s, order, qs, t, cs);
    UndoLoser(qs, s.log, s.txns[t].prevLsn, cs);
  }

  lemma {:induction false} UndoingLosers(ps: Pages, s: State, order: seq<TxnId>)
    requires Safe(s) && LogOk(ps, s) && LosersAppliedNothing(s.log) && Unfollowed(s.log) && InLog(ActiveAfter(s.log), s.log)
    requires forall i :: 0 <= i < |order| ==> order[i] in ActiveAfter(s.log)
    requires forall i, j :: 0 <= i < j < |order| ==> order[i] != order[j]
    ensures var r := UndoInOrder(s.pages, s.log, ActiveAfter(s.log), order);
            r.Some? && LosersUndone(s, order, r.value)
  {
    if order != [] {
      var m := |order| - 1;
      var t := order[m];
      UndoingLosers(ps, s, order[..m]);
      assert t in ActiveAfter(s.log);
      assert forall i :: 0 <= i < m ==> order[..m][i] in ActiveAfter(s.log);
      var qs := UndoInOrder(s.pages, s.log, ActiveAfter(s.log), order[..m]).value;
      if Open(s.txns[t]) {
        UndoNextLoser(ps, s, order[..m], qs, t);
      } else {
        UndoQuitter(ps, s, order[..m], qs, t);
      }
      assert order == order[..m] + [t];
    }
  }

  /** The recovery theorem.  Take any interleaved run and crash it anywhere, with each page on disk
    * in some earlier version of itself.  Let the log hold no shrinking update and no applied delete
    * of a loser, and let nobody have written since where an aborted transaction wrote.  Then redo
    * panics nowhere, undo panics nowhere whatever the order of the losers, and each RID holds what
    * the serial execution of the committed transactions leaves there. */
  lemma {:induction false} RecoveryYieldsCommitted(ps: Pages, events: seq<Event>, d: Disk, order: seq<TxnId>, rid: RID)
    requires WellFormedPages(ps) && Run(ps, events).Some? && Run(ps, events).value.Next?
    requires var log := Run(ps, events).value.state.log;
             && CrashImage(d, ps, log) && Enumerates(order, ActiveAfter(log))
             && NeverShrinks(log) && LosersAppliedNothing(log) && Unfollowed(log)
    ensures var s := Run(ps, events).value.state;
            && RedoAll(d, s.log).Some? && PagesOf(RedoAll(d, s.log).value) == s.pages
            && ChainsDown(s.log) && InLog(ActiveAfter(s.log), s.log)
            && var r := UndoInOrder(s.pages, s.log, ActiveAfter(s.log), order);
               r.Some? && Val(r.value, rid) == Replay(Serial(s.history), ps, rid)
  {
    EveryRunIsSafe(ps, events);
    EveryRunLogs(ps, events);
    CommittedRunsSerially(ps, events, rid);
    var s := Run(ps, events).value.state;
    RedoReaches(ps, s, d);
    UndoReachesDurable(ps, s, order, rid);
  }

  lemma {:induction false} RedoReaches(ps: Pages, s: State, d: Disk)
    requires LogOk(ps, s) && CrashImage(d, ps, s.log)
    ensures RedoAll(d, s.log).Some? && PagesOf(RedoAll(d, s.log).value) == s.pages
  {
    RedoRepeatsHistory(d, ps, s.log);
    var e := RedoAll(d, s.log).value;
    assert PagesOf(e).Keys == s.pages.Keys;
    forall id | id in ps ensures PagesOf(e)[id] == s.pages[id] {
      assert e[id].page == PageAfter(ps[id], id, s.log).value;
    }
  }

  lemma {:induction false} UndoReachesDurable(ps: Pages, s: State, order: seq<TxnId>, rid: RID)
    requires Safe(s) && LogOk(ps, s) && LosersAppliedNothing(s.log) && Unfollowed(s.log) && Enumerates(order, ActiveAfter(s.log))
    ensures InLog(ActiveAfter(s.log), s.log)
    ensures var r := UndoInOrder(s.pages, s.log, ActiveAfter(s.log), order);
            r.Some? && Val(r.value, rid) == Durable(s, rid)
  {
    ActiveInLog(s.log);
    UndoingLosers(ps, s, order);
    LosersAreTheHolders(ps, s, order, rid);
  }

  lemma {:induction false} LosersAreTheHolders(ps: Pages, s: State, order: seq<TxnId>, rid: RID)
    requires Safe(s) && LogOk(ps, s) && Enumerates(order, ActiveAfter(s.log))
    ensures LockedByOneOf(s, order, rid) || Durable(s, rid) == Val(s.pages, rid)
  {
    EntryHolds(s.tables, rid);
    if rid in s.tables.exclusive && Durable(s, rid) != Val(s.pages, rid) {
      var t := s.tables.exclusive[rid];
      assert Agrees(s.tables, s.txns[t].held, t);
      assert t in ActiveAfter(s.log);
      assert t in order;
    }
  }

  // ---- what the assumptions are needed for ----

  /** Undoing an applied delete re-inserts wherever the page offers a slot: it restores the
    * tuple under its own RID exactly when that RID is the page's first empty slot and there is room. */
  lemma UndoOfApplyDelete(p: Page, rid: RID, data: seq<byte>)
    requires At(p, rid.slot) == Empty && data != []
    ensures UndoOn(p, ApplyDeleteRec(rid, data)).Some?
    ensures At(UndoOn(p, ApplyDeleteRec(rid, data)).value, rid.slot) == Tuple(data, false) <==>
            FirstEmpty(p) == rid.slot && HasRoom(p, |data|)
  {
  }

  /** Redo refuses an update that shrinks its tuple, so the record a rollback logs is
    * repeated exactly when the old bytes are not shorter than the ones they replace. */
  lemma RedoOfUpdate(p: Page, rid: RID, current: seq<byte>, new_: seq<byte>)
    requires WellFormed(p) && At(p, rid.slot) == Tuple(current, false) && new_ != current
    requires FreeSpace(p) + |current| >= |new_|
    ensures RedoOn(p, UpdateRec(rid, current, new_)).Some?
    ensures At(RedoOn(p, UpdateRec(rid, current, new_)).value, rid.slot) == Tuple(new_, false) <==> |new_| >= |current|
  {
  }
}
