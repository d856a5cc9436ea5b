/** The transaction manager's own methods: the commit and rollback loops, run to their end.
  * Each iteration is a step of the interleaved machine, so what is proved of its steps
  * under interference holds of the loops too; here the loops' whole effect is stated. */
module TransactionManager {
  import opened Wrappers
  import opened Bytes
  import opened SlottedPage
  import opened LockTable
  import opened Transactions
  import opened TransactionSafety

  /** The state of one transaction's commit or rollback loop relative to the state at its start. */
  ghost predicate Within(s: State, s': State, t: TxnId) {
    && t in s.txns && t in s'.txns
    && s'.txns[t].held == s.txns[t].held
    && s'.txns[t].before == s.txns[t].before
    && s'.tables == s.tables
    && (forall u :: u != t ==> (u in s'.txns <==> u in s.txns))
    && (forall u :: u != t && u in s.txns ==> s'.txns[u] == s.txns[u])
    && s'.pages.Keys == s.pages.Keys
    && (forall rid :: rid !in s.txns[t].held.exclusive ==> Val(s'.pages, rid) == Val(s.pages, rid))
  }

  ghost predicate UndoneRecord(s: State, r: Result, t: TxnId)
    requires t in s.txns && s.txns[t].writes != []
  {
    var w := s.txns[t].writes[|s.txns[t].writes| - 1];
    && r.Next? && Within(s, r.state, t) && r.state.txns[t].phase == s.txns[t].phase
    && r.state.txns[t].writes == Popped(s.txns[t]).writes + if w.MoveW? then [DeleteW(w.rid, w.old_)] else []
  }

  /** A write under the exclusive lock. */
  lemma WriteWithin(s: State, t: TxnId, rid: RID, slot: Slot, body: LogBody, x: Txn)
    requires t in s.txns && Addressable(s.pages, rid) && rid in s.txns[t].held.exclusive
    requires x.held == s.txns[t].held && x.before == s.txns[t].before
    ensures Within(s, Wrote(s, t, rid, slot, body, x), t)
  {
  }

  lemma {:induction false} UndoStepWithin(s: State, t: TxnId)
    requires Safe(s) && Enabled(s, UndoStep(t))
    ensures UndoneRecord(s, DoUndoStep(s, t), t) && Safe(DoUndoStep(s, t).state)
  {
    var c, x', body := UndoStepIsWrite(s, t);
    WriteWithin(s, t, c.rid, Origin(c), body, x');
  }

  ghost predicate CommittedRecord(s: State, r: Result, t: TxnId)
    requires t in s.txns && s.txns[t].writes != []
  {
    var w := s.txns[t].writes[|s.txns[t].writes| - 1];
    && r.Next? && Within(s, r.state, t) && r.state.txns[t].phase == s.txns[t].phase
    && r.state.txns[t].writes == Popped(s.txns[t]).writes
    && forall rid :: Val(r.state.pages, rid) == if Deleting(w) && rid == w.rid then Empty else Val(s.pages, rid)
  }

  lemma {:induction false} CommitStepWithin(s: State, t: TxnId)
    requires Safe(s) && Enabled(s, CommitStep(t))
    ensures CommittedRecord(s, DoCommitStep(s, t), t) && Safe(DoCommitStep(s, t).state)
  {
    CommitStepKeepsSafe(s, t);
    var x := s.txns[t];
    var w := x.writes[|x.writes| - 1];
    if Deleting(w) {
      assert CanFinish(s.pages, x);
      WriteWithin(s, t, w.rid, Empty, ApplyDeleteRec(w.rid, Val(s.pages, w.rid).data), Popped(x));
    }
  }

  lemma WithinTrans(a: State, b: State, c: State, t: TxnId)
    requires Within(a, b, t) && Within(b, c, t)
    ensures Within(a, c, t)
  {
  }

  /** RIDs whose tuples a commit removes. */
  function Doomed(ws: seq<WriteRecord>): (r: set<RID>)
    ensures forall rid :: rid in r <==> exists i :: 0 <= i < |ws| && Deleting(ws[i]) && ws[i].rid == rid
  {
    set i | 0 <= i < |ws| && Deleting(ws[i]) :: ws[i].rid
  }

  lemma DoomedLast(ws: seq<WriteRecord>)
    requires ws != []
    ensures var n := |ws| - 1;
            Doomed(ws) == Doomed(ws[..n]) + if Deleting(ws[n]) then {ws[n].rid} else {}
  {
    var n := |ws| - 1;
    forall rid ensures rid in Doomed(ws) <==> rid in Doomed(ws[..n]) + if Deleting(ws[n]) then {ws[n].rid} else {} {
      if rid in Doomed(ws[..n]) {
        var i :| 0 <= i < n && Deleting(ws[..n][i]) && ws[..n][i].rid == rid;
        assert Deleting(ws[i]) && ws[i].rid == rid;
      }
      if i :| 0 <= i < |ws| && Deleting(ws[i]) && ws[i].rid == rid {
        if i < n { assert Deleting(ws[..n][i]) && ws[..n][i].rid == rid; }
      }
    }
  }

  /** So far the commit loop has removed exactly the tuples of the records it has popped. */
  ghost predicate Removed(s0: State, s: State, t: TxnId, doomed: set<RID>)
    requires t in s.txns
  {
    && Doomed(s.txns[t].writes) <= doomed
    && forall rid :: Val(s.pages, rid) ==
         if rid in doomed && rid !in Doomed(s.txns[t].writes) then Empty else Val(s0.pages, rid)
  }

  lemma {:induction false} StepRemoves(s0: State, s: State, t: TxnId, doomed: set<RID>)
    requires Safe(s) && Enabled(s, CommitStep(t)) && Removed(s0, s, t, doomed)
    requires CommittedRecord(s, DoCommitStep(s, t), t)
    ensures Removed(s0, DoCommitStep(s, t).state, t, doomed)
  {
    var ws := s.txns[t].writes;
    var n := |ws| - 1;
    DoomedLast(ws);
    if Deleting(ws[n]) {
      assert CanFinish(s.pages, s.txns[t]) by { assert TxnOk(s.pages, s.txns[t]); }
      assert ws[n].rid !in Doomed(ws[..n]);
    }
  }

  /** Nothing the transaction had locked is locked by it any more, and nobody else lost a lock. */
  ghost predicate LocksReleased(s: State, s': State, t: TxnId) {
    && (forall rid :: !HoldsExclusive(s'.tables, rid, t) && !HoldsShared(s'.tables, rid, t))
    && (forall rid, u :: u != t ==>
          && (HoldsExclusive(s'.tables, rid, u) <==> HoldsExclusive(s.tables, rid, u))
          && (HoldsShared(s'.tables, rid, u) <==> HoldsShared(s.tables, rid, u)))
  }

  lemma {:induction false} ReleaseFrees(s: State, t: TxnId)
    requires Safe(s) && Enabled(s, ReleaseLocks(t))
    ensures Safe(DoRelease(s, t)) && LocksReleased(s, DoRelease(s, t), t)
  {
    ReleaseKeepsSafe(s, t);
    ReleaseAllLeavesNothing(s.tables, s.txns[t].held, t);
  }

  /** The tail both loops share: a closing record, then the locks. */
  ghost predicate Closed(s: State, s': State, t: TxnId, body: LogBody) {
    && Safe(s') && LocksReleased(s, s', t) && s'.pages == s.pages
    && t in s'.txns && s'.txns[t].phase == Ended
    && (forall u :: u != t && u in s.txns ==> u in s'.txns && s'.txns[u] == s.txns[u])
    && s'.txns.Keys == s.txns.Keys
    && s'.log != [] && s'.log[|s'.log| - 1].txn == t && s'.log[|s'.log| - 1].body == body
  }

  lemma {:induction false} CommitCloses(s: State, t: TxnId)
    requires Safe(s) && Enabled(s, LogCommit(t))
    ensures Closed(s, DoRelease(DoLogCommit(s, t), t), t, CommitRec)
  {
    PhaseKeepsSafe(s, LogCommit(t));
    ReleaseFrees(DoLogCommit(s, t), t);
  }

  /** The transaction is over and its last record in the log; nobody else noticed. */
  ghost predicate Over(s: State, s': State, t: TxnId, body: LogBody) {
    && s'.txns.Keys == s.txns.Keys && t in s.txns && s'.txns[t].phase == Ended
    && LocksReleased(s, s', t)
    && (forall u :: u != t && u in s.txns ==> s'.txns[u] == s.txns[u])
    && s'.log != [] && s'.log[|s'.log| - 1].txn == t && s'.log[|s'.log| - 1].body == body
  }

  /** A commit removes the tuples its transaction marked and leaves every other slot as it was. */
  ghost predicate CommitEffect(s: State, s': State, t: TxnId)
    requires t in s.txns
  {
    forall rid :: Val(s'.pages, rid) == if rid in Doomed(s.txns[t].writes) then Empty else Val(s.pages, rid)
  }

  /** After an abort every slot the transaction had locked for writing holds again what it
    * found there, and every other slot is as it was. */
  ghost predicate AbortEffect(s: State, s': State, t: TxnId)
    requires t in s.txns
  {
    var x := s.txns[t];
    && (forall rid :: rid in x.held.exclusive ==> rid in x.before && Val(s'.pages, rid) == x.before[rid])
    && (forall rid :: rid !in x.held.exclusive ==> Val(s'.pages, rid) == Val(s.pages, rid))
  }

  /** What a loop left alone, its tail leaves alone too. */
  lemma LoopThenClosed(s: State, phase: Phase, s1: State, s': State, t: TxnId, body: LogBody)
    requires t in s.txns && Within(WithPhase(s, t, phase), s1, t) && Closed(s1, s', t, body)
    ensures Safe(s') && Over(s, s', t, body)
  {
    assert forall u :: u in s'.txns <==> u in s.txns;
  }

  lemma {:induction false} CommitEnds(s: State, s1: State, t: TxnId)
    requires t in s.txns && Within(WithPhase(s, t, Committing), s1, t)
    requires Removed(WithPhase(s, t, Committing), s1, t, Doomed(s.txns[t].writes))
    requires Safe(s1) && Enabled(s1, LogCommit(t))
    ensures var s' := DoRelease(DoLogCommit(s1, t), t); Safe(s') && Over(s, s', t, CommitRec) && CommitEffect(s, s', t)
  {
    CommitCloses(s1, t);
    LoopThenClosed(s, Committing, s1, DoRelease(DoLogCommit(s1, t), t), t, CommitRec);
    assert s1.txns[t].writes == [];
  }

  lemma {:induction false} AbortEnds(s: State, s1: State, t: TxnId)
    requires t in s.txns && Within(WithPhase(s, t, Aborting), s1, t)
    requires Safe(s1) && Enabled(s1, ReleaseLocks(t)) && s1.txns[t].phase == Aborting
    ensures var s' := DoRelease(s1, t); Safe(s') && Over(s, s', t, AbortRec) && AbortEffect(s, s', t)
  {
    AbortCloses(s1, t);
    LoopThenClosed(s, Aborting, s1, DoRelease(s1, t), t, AbortRec);
  }

  lemma {:induction false} AbortCloses(s: State, t: TxnId)
    requires Safe(s) && Enabled(s, ReleaseLocks(t)) && s.txns[t].phase == Aborting
    ensures Closed(s, DoRelease(s, t), t, AbortRec)
    ensures forall rid :: rid in s.txns[t].held.exclusive ==>
              rid in s.txns[t].before && Val(s.pages, rid) == s.txns[t].before[rid]
  {
    ReleaseFrees(s, t);
    assert TxnOk(s.pages, s.txns[t]);
    assert TxnChanges(s.txns[t]) == [];
  }

  class TransactionManager {
    var nextTxnId: TxnId
    var db: State

    ghost predicate Valid()
      reads this
    {
      Safe(db) && forall t :: t in db.txns ==> t <= nextTxnId
    }

    constructor (pages: Pages)
      requires WellFormedPages(pages)
      ensures Valid() && db == Initial(pages)
    {
      nextTxnId := 0;
      db := Initial(pages);
      new;
      EveryRunIsSafe(pages, []);
    }

    /** A transaction number never used before. */
    method Begin() returns (t: TxnId)
      requires Valid()
      modifies this
      ensures Valid() && t !in old(db.txns) && t in db.txns && t == nextTxnId == old(nextTxnId) + 1
      ensures db.txns[t].phase == Growing && db.txns[t].writes == [] && db.txns[t].held == Held([], []) && db.txns[t].move == None
      ensures db.log == old(db.log) + [LogRecord(t, -1, BeginRec)] && db.txns[t].prevLsn == |old(db.log)|
      ensures db.pages == old(db.pages) && db.tables == old(db.tables)
      ensures forall u :: u in old(db.txns) ==> u in db.txns && db.txns[u] == old(db.txns)[u]
    {
      nextTxnId := nextTxnId + 1;
      t := nextTxnId;
      BeginKeepsSafe(db, t);
      db := DoBegin(db, t);
    }

    /** Commit: the tuples marked by the transaction are gone, every other slot is as it was,
      * the log ends with the commit record, and all locks are free. */
    method Commit(t: TxnId)
      requires Valid() && t in db.txns && db.txns[t].phase == Growing && db.txns[t].move.None?
      modifies this`db
      ensures Valid() && Over(old(db), db, t, CommitRec) && CommitEffect(old(db), db, t)
    {
      ghost var s0 := db;
      PhaseKeepsSafe(db, StartCommit(t));
      db := WithPhase(db, t, Committing);
      ApplyDeletes(t);
      CommitEnds(s0, db, t);
      db := DoLogCommit(db, t);
      db := DoRelease(db, t);
    }

    method ApplyDeletes(t: TxnId)
      requires Safe(db) && t in db.txns && db.txns[t].phase == Committing
      modifies this`db
      ensures Safe(db) && Within(old(db), db, t) && db.txns[t].phase == Committing && db.txns[t].writes == []
      ensures Removed(old(db), db, t, Doomed(old(db.txns)[t].writes))
    {
      ghost var s0 := db;
      ghost var doomed := Doomed(db.txns[t].writes);
      while db.txns[t].writes != []
        invariant Safe(db) && Within(s0, db, t) && db.txns[t].phase == Committing
        invariant Removed(s0, db, t, doomed)
        decreases |db.txns[t].writes|
      {
        ghost var s1 := db;
        CommitStepWithin(db, t);
        StepRemoves(s0, db, t, doomed);
        db := DoCommitStep(db, t).state;
        WithinTrans(s0, s1, db, t);
      }
    }

    /** Abort: every slot the transaction had locked for writing holds again what it found
      * there, every other slot is as it was, and all locks are free. */
    method Abort(t: TxnId)
      requires Valid() && t in db.txns && (db.txns[t].phase == Growing || db.txns[t].phase == Aborted) && db.txns[t].move.None?
      modifies this`db
      ensures Valid() && Over(old(db), db, t, AbortRec) && AbortEffect(old(db), db, t)
    {
      ghost var s0 := db;
      PhaseKeepsSafe(db, StartAbort(t));
      db := WithPhase(db, t, Aborting);
      RollBack(t);
      AbortEnds(s0, db, t);
      db := DoRelease(db, t);
    }

    method RollBack(t: TxnId)
      requires Safe(db) && t in db.txns && db.txns[t].phase == Aborting
      modifies this`db
      ensures Safe(db) && Within(old(db), db, t) && db.txns[t].phase == Aborting && db.txns[t].writes == []
    {
      ghost var s0 := db;
      while db.txns[t].writes != []
        invariant Safe(db) && Within(s0, db, t) && db.txns[t].phase == Aborting
        decreases |db.txns[t].writes|
      {
        RollBackRecord(t, s0);
      }
    }

    /** One turn of the rollback loop: the last record undone and popped.  A moved tuple
      * takes two page sections. */
    method RollBackRecord(t: TxnId, ghost s0: State)
      requires Safe(db) && Within(s0, db, t) && db.txns[t].phase == Aborting && db.txns[t].writes != []
      modifies this`db
      ensures Safe(db) && Within(s0, db, t) && db.txns[t].phase == Aborting
      ensures db.txns[t].writes == Popped(old(db.txns)[t]).writes
    {
      var w := db.txns[t].writes[|db.txns[t].writes| - 1];
      ghost var s1 := db;
      UndoStepWithin(db, t);
      db := DoUndoStep(db, t).state;
      WithinTrans(s0, s1, db, t);
      if w.MoveW? {
        s1 := db;
        UndoStepWithin(db, t);
        db := DoUndoStep(db, t).state;
        WithinTrans(s0, s1, db, t);
      }
    }
  }
}
