/** Conflicting accesses: between two of them the earlier transaction has ended, so the
  * precedence graph of any run is acyclic and ending order is a serial order for it. */
module Precedence {
  import opened Wrappers
  import opened Bytes
  import opened SlottedPage
  import opened LockTable
  import opened Transactions
  import opened TransactionSafety

  predicate Conflict(a: Action, b: Action) {
    && a.Access? && b.Access? && a.txn != b.txn && a.op.rid == b.op.rid
    && (a.op.Write? || b.op.Write?)
  }

  ghost predicate EndedBetween(h: seq<Action>, t: TxnId, i: int, j: int) {
    exists k :: 0 <= k < |h| && i < k < j && h[k] == End(t)
  }

  /** The precedence graph's edge relation. */
  ghost predicate Precedes(h: seq<Action>, t: TxnId, u: TxnId) {
    exists i, j :: 0 <= i < j < |h| && Conflict(h[i], h[j]) && h[i].txn == t && h[j].txn == u
  }

  ghost predicate Path(h: seq<Action>, p: seq<TxnId>) {
    |p| >= 2 && forall i :: 0 <= i < |p| - 1 ==> Precedes(h, p[i], p[i + 1])
  }

  ghost predicate Holds(x: Txn, op: Op) {
    CanRead(x.held, op.rid) && (op.Write? ==> op.rid in x.held.exclusive)
  }

  ghost predicate HistoryOk(s: State) {
    var h := s.history;
    && (forall i :: 0 <= i < |h| ==> h[i].txn in s.txns)
    && (forall i :: 0 <= i < |h| && h[i].Access? && Live(s.txns[h[i].txn]) ==> Holds(s.txns[h[i].txn], h[i].op))
    && (forall i :: 0 <= i < |h| && h[i].Access? && !Live(s.txns[h[i].txn]) ==> EndedBetween(h, h[i].txn, i, |h|))
    && (forall i :: 0 <= i < |h| && h[i].End? ==> !Live(s.txns[h[i].txn]))
    && (forall i, j :: 0 <= i < j < |h| && Conflict(h[i], h[j]) ==> EndedBetween(h, h[i].txn, i, j))
    && (forall i, j :: 0 <= i < j < |h| && h[i].End? && h[j].Access? ==> h[j].txn != h[i].txn)
  }

  // ---- what one step can do to the history, the locks and the slots ----

  /** A step of `t` from `s` to `s'`: it touches only its own transaction, appends only actions of
    * its own, accesses only what it has locked, and changes a slot only by a recorded write. */
  ghost predicate OwnStep(s: State, s': State, t: TxnId) {
    && t in s'.txns && (t in s.txns ==> Live(s.txns[t]))
    && (forall u :: u != t ==> (u in s.txns <==> u in s'.txns))
    && (forall u :: u != t && u in s.txns ==> s'.txns[u] == s.txns[u])
    && (t in s.txns ==> forall r :: CanRead(s.txns[t].held, r) ==> CanRead(s'.txns[t].held, r))
    && (t in s.txns ==> forall r :: r in s.txns[t].held.exclusive ==> r in s'.txns[t].held.exclusive)
    && |s.history| <= |s'.history| && s'.history[..|s.history|] == s.history
    && (forall i :: |s.history| <= i < |s'.history| ==> s'.history[i].txn == t)
    && (forall i :: |s.history| <= i < |s'.history| && s'.history[i].Access? ==>
          Live(s'.txns[t]) && Holds(s'.txns[t], s'.history[i].op))
    && (forall i :: |s.history| <= i < |s'.history| && s'.history[i].End? ==> !Live(s'.txns[t]))
    && (!Live(s'.txns[t]) ==> s'.history == s.history + [End(t)])
    && (forall r :: Val(s'.pages, r) != Val(s.pages, r) ==>
          r in s'.txns[t].held.exclusive && |s'.history| > |s.history|
          && s'.history[|s'.history| - 1] == Access(t, Write(r, Val(s'.pages, r))))
  }

  lemma {:induction false} OwnStepKeepsHistory(s: State, s': State, t: TxnId)
    requires HistoryOk(s) && Safe(s') && OwnStep(s, s', t)
    ensures HistoryOk(s')
  {
    var h, h' := s.history, s'.history;
    assert forall i :: 0 <= i < |h| ==> h'[i] == h[i];
    forall i | 0 <= i < |h'| && h'[i].Access? && !Live(s'.txns[h'[i].txn])
      ensures EndedBetween(h', h'[i].txn, i, |h'|)
    {
      if h'[i].txn == t {
        assert h'[|h|] == End(t);
      } else {
        var k :| 0 <= k < |h| && i < k < |h| && h[k] == End(h[i].txn);
        assert h'[k] == End(h'[i].txn);
      }
    }
    forall i: nat, j: nat | i < j < |h'| && Conflict(h'[i], h'[j]) ensures EndedBetween(h', h'[i].txn, i, j) {
      ConflictIsEnded(s, s', t, i, j);
    }
  }

  lemma {:induction false} ConflictIsEnded(s: State, s': State, t: TxnId, i: nat, j: nat)
    requires HistoryOk(s) && Safe(s') && OwnStep(s, s', t)
    requires i < j < |s'.history| && Conflict(s'.history[i], s'.history[j])
    ensures EndedBetween(s'.history, s'.history[i].txn, i, j)
  {
    var h, h' := s.history, s'.history;
    assert forall i :: 0 <= i < |h| ==> h'[i] == h[i];
    var u := h'[i].txn;
    if j < |h| {
      var k :| 0 <= k < |h| && i < k < j && h[k] == End(u);
      assert h'[k] == End(u);
    } else {
      assert h'[j].txn == t && i < |h|;
      if Live(s.txns[u]) {
        assert Holds(s.txns[u], h[i].op);
        ConflictExcluded(s', t, h'[j].op, u, h'[i].op);
      }
      var k :| 0 <= k < |h| && i < k < |h| && h[k] == End(u);
      assert h'[k] == End(u);
    }
  }

  lemma ConflictExcluded(s: State, t: TxnId, a: Op, u: TxnId, b: Op)
    requires Safe(s) && t in s.txns && u in s.txns && Live(s.txns[t]) && Live(s.txns[u])
    requires Holds(s.txns[t], a) && Holds(s.txns[u], b) && a.rid == b.rid && (a.Write? || b.Write?)
    ensures t == u
  {
    if a.Write? { LocksExclude(s, t, u, a.rid); } else { LocksExclude(s, u, t, a.rid); }
  }

  // ---- every event is such a step ----

  lemma ReadLockIsOwnStep(s: State, t: TxnId, rid: RID)
    requires Safe(s) && t in s.txns && Live(s.txns[t])
    ensures var g := GrantRead(s.tables, s.txns[t].held, t, rid);
            g.ok ==> OwnStep(s, Saw(WithGrant(s, t, rid, g), t, rid), t)
  {
    GrantReadSound(s.tables, s.txns[t].held, t, rid);
  }

  lemma WriteLockIsOwnStep(s: State, t: TxnId, rid: RID, g: Grant)
    requires Safe(s) && t in s.txns && Live(s.txns[t])
    requires g == GrantWrite(s.tables, s.txns[t].held, t, rid) || g == GrantExclusive(s.tables, s.txns[t].held, t, rid)
    ensures g.ok ==> OwnStep(s, Saw(WithGrant(s, t, rid, g), t, rid), t)
                     && rid in WithGrant(s, t, rid, g).txns[t].held.exclusive
  {
    GrantWriteSound(s.tables, s.txns[t].held, t, rid);
    GrantExclusiveSound(s.tables, s.txns[t].held, t, rid);
  }

  /** Own steps compose when the first leaves the slots alone and the transaction alive. */
  lemma {:induction false} Compose(s: State, s1: State, s2: State, t: TxnId)
    requires OwnStep(s, s1, t) && OwnStep(s1, s2, t) && s1.pages == s.pages && Live(s1.txns[t]) && t in s.txns
    requires Live(s2.txns[t])
    ensures OwnStep(s, s2, t)
  {
    assert s2.history[..|s.history|] == s1.history[..|s.history|];
    assert forall i :: 0 <= i < |s1.history| ==> s2.history[i] == s1.history[i];
  }

  lemma WroteIsOwnStep(s: State, t: TxnId, rid: RID, slot: Slot, body: LogBody, x: Txn)
    requires t in s.txns && Live(s.txns[t]) && Addressable(s.pages, rid) && rid in s.txns[t].held.exclusive
    requires Live(x) && x.held == s.txns[t].held
    ensures OwnStep(s, Wrote(s, t, rid, slot, body, x), t)
  {
  }

  lemma QuietIsOwnStep(s: State, t: TxnId, x: Txn)
    requires t in s.txns && Live(s.txns[t]) && Live(x) && x.held == s.txns[t].held
    ensures OwnStep(s, s.(txns := s.txns[t := x]), t)
  {
  }

  lemma {:induction false} InsertIsOwnStep(s: State, t: TxnId, rid: RID, data: seq<byte>, x: Txn)
    requires Safe(s) && t in s.txns && Live(s.txns[t]) && Addressable(s.pages, rid)
    requires GrantExclusive(s.tables, s.txns[t].held, t, rid).ok
    requires Live(x) && x.held == Claim(s, t, rid).txns[t].held
    ensures OwnStep(s, Wrote(Claim(s, t, rid), t, rid, Tuple(data, false), InsertRec(rid, data), x), t)
  {
    var g := GrantExclusive(s.tables, s.txns[t].held, t, rid);
    WriteLockIsOwnStep(s, t, rid, g);
    var s1 := Claim(s, t, rid);
    WroteIsOwnStep(s1, t, rid, Tuple(data, false), InsertRec(rid, data), x);
    Compose(s, s1, Wrote(s1, t, rid, Tuple(data, false), InsertRec(rid, data), x), t);
  }

  lemma {:induction false} ForwardIsOwnStep(s: State, e: Event)
    requires Safe(s) && Enabled(s, e) && (e.InsertTuple? || e.MoveInsert? || e.GetTuple?)
    ensures OwnStep(s, Step(s, e).state, e.t)
  {
    var t := e.t;
    if e.GetTuple? {
      ReadLockIsOwnStep(s, t, e.rid);
      var g := GrantRead(s.tables, s.txns[t].held, t, e.rid);
      QuietIsOwnStep(s, t, s.txns[t].(phase := Aborted));
      if g.ok {
        var s1 := Saw(WithGrant(s, t, e.rid, g), t, e.rid);
        QuietIsOwnStep(s1, t, s1.txns[t].(phase := Aborted));
        Compose(s, s1, Doom(s1, t), t);
      }
    } else {
      var data := if e.InsertTuple? then e.data else s.txns[t].move.value.new_;
      match InsertTarget(s, t, e.page, data)
      case None =>
      case Some(rid) =>
        var x := Claim(s, t, rid).txns[t];
        var x' := if e.InsertTuple? then Record(x, InsertW(rid, data))
                  else
                    var m := s.txns[t].move.value;
                    Record(x, MoveW(m.rid, rid, m.old_, m.new_)).(move := None);
        InsertIsOwnStep(s, t, rid, data, x');
    }
  }

  lemma {:induction false} UpdateLockedIsOwnStep(s: State, t: TxnId, rid: RID, data: seq<byte>)
    requires t in s.txns && Live(s.txns[t]) && rid in s.txns[t].held.exclusive && rid.page in s.pages
    ensures OwnStep(s, UpdateLocked(s, t, rid, data), t) && Live(UpdateLocked(s, t, rid, data).txns[t])
  {
    var x := s.txns[t];
    var old_ := Val(s.pages, rid);
    match UpdateOutcomeOf(s.pages[rid.page], rid.slot, |data|, false)
    case Updated =>
      WroteIsOwnStep(s, t, rid, Tuple(data, false), UpdateRec(rid, old_.data, data),
                     Record(x, UpdateW(rid, old_.data, data)));
    case _ => QuietIsOwnStep(s, t, UpdateLocked(s, t, rid, data).txns[t]);
  }

  /** Marking, with the bookkeeping of a delete or of the first half of a move. */
  lemma {:induction false} MarkIsOwnStep(s: State, t: TxnId, rid: RID, x: Txn)
    requires t in s.txns && Live(s.txns[t]) && rid in s.txns[t].held.exclusive
    requires Live(x) && x.held == s.txns[t].held
    ensures OwnStep(s, Doom(s, t), t)
    ensures !Marked(Val(s.pages, rid)) ==>
              OwnStep(s, Wrote(s, t, rid, Tuple(Val(s.pages, rid).data, true), MarkDeleteRec(rid), x), t)
  {
    QuietIsOwnStep(s, t, s.txns[t].(phase := Aborted));
    if !Marked(Val(s.pages, rid)) {
      WroteIsOwnStep(s, t, rid, Tuple(Val(s.pages, rid).data, true), MarkDeleteRec(rid), x);
    }
  }

  lemma {:induction false} LockedWriteIsOwnStep(s: State, e: Event)
    requires Safe(s) && Enabled(s, e) && (e.UpdateTuple? || e.MarkDelete? || e.MoveMark?)
    ensures OwnStep(s, Step(s, e).state, e.t)
  {
    var t := e.t;
    var rid := if e.MoveMark? then s.txns[t].move.value.rid else e.rid;
    var g := GrantWrite(s.tables, s.txns[t].held, t, rid);
    QuietIsOwnStep(s, t, s.txns[t].(phase := Aborted));
    if g.ok {
      WriteLockIsOwnStep(s, t, rid, g);
      var s1 := Saw(WithGrant(s, t, rid, g), t, rid);
      var x := s1.txns[t];
      if e.UpdateTuple? {
        UpdateLockedIsOwnStep(s1, t, rid, e.data);
      } else if e.MarkDelete? {
        var slot := Val(s.pages, rid);
        MarkIsOwnStep(s1, t, rid, if slot.Tuple? then Record(x, DeleteW(rid, slot.data)) else x);
      } else {
        MarkIsOwnStep(s1, t, rid, x.(move := Some(s.txns[t].move.value.(marked := true))));
      }
      Compose(s, s1, Step(s, e).state, t);
    }
  }

  lemma {:induction false} UndoIsOwnStep(s: State, t: TxnId)
    requires Safe(s) && Enabled(s, UndoStep(t))
    ensures DoUndoStep(s, t).Next? && OwnStep(s, DoUndoStep(s, t).state, t)
  {
    var c, x', body := UndoStepIsWrite(s, t);
    WroteIsOwnStep(s, t, c.rid, Origin(c), body, x');
  }

  lemma {:induction false} CommitStepIsOwnStep(s: State, t: TxnId)
    requires Safe(s) && Enabled(s, CommitStep(t))
    ensures DoCommitStep(s, t).Next? && OwnStep(s, DoCommitStep(s, t).state, t)
  {
    var x := s.txns[t];
    var w := x.writes[|x.writes| - 1];
    StepKeepsSafe(s, CommitStep(t));
    if Deleting(w) {
      WroteIsOwnStep(s, t, w.rid, Empty, ApplyDeleteRec(w.rid, Val(s.pages, w.rid).data), Popped(x));
    } else {
      QuietIsOwnStep(s, t, Popped(x));
    }
  }

  lemma BeginIsOwnStep(s: State, t: TxnId)
    requires Enabled(s, Begin(t))
    ensures OwnStep(s, DoBegin(s, t), t)
  {
  }

  lemma PhaseIsOwnStep(s: State, t: TxnId, phase: Phase)
    requires t in s.txns && Live(s.txns[t]) && phase != Ended
    ensures OwnStep(s, WithPhase(s, t, phase), t)
  {
    QuietIsOwnStep(s, t, s.txns[t].(phase := phase));
  }

  lemma LogCommitIsOwnStep(s: State, t: TxnId)
    requires t in s.txns && Live(s.txns[t])
    ensures OwnStep(s, DoLogCommit(s, t), t)
  {
  }

  lemma ReleaseIsOwnStep(s: State, t: TxnId)
    requires t in s.txns && Live(s.txns[t])
    ensures OwnStep(s, DoRelease(s, t), t)
  {
  }

  /** Frame of a step: only its own transaction moves, and a slot changes only under its exclusive lock. */
  lemma {:induction false} StepIsOwn(s: State, e: Event)
    requires Safe(s) && Enabled(s, e)
    ensures Step(s, e).Next? && OwnStep(s, Step(s, e).state, e.t)
  {
    match e
    case Begin(t) => BeginIsOwnStep(s, t);
    case GetTuple(t, rid) => ForwardIsOwnStep(s, e);
    case InsertTuple(t, page, data) => ForwardIsOwnStep(s, e);
    case MoveInsert(t, page) => ForwardIsOwnStep(s, e);
    case UpdateTuple(t, rid, data) => LockedWriteIsOwnStep(s, e);
    case MarkDelete(t, rid) => LockedWriteIsOwnStep(s, e);
    case MoveMark(t) => LockedWriteIsOwnStep(s, e);
    case CommitStep(t) => CommitStepIsOwnStep(s, t);
    case UndoStep(t) => UndoIsOwnStep(s, t);
    case StartCommit(t) => PhaseIsOwnStep(s, t, Committing);
    case LogCommit(t) => LogCommitIsOwnStep(s, t);
    case StartAbort(t) => PhaseIsOwnStep(s, t, Aborting);
    case ReleaseLocks(t) => ReleaseIsOwnStep(s, t);
  }

  lemma {:induction false} EveryRunIsSeparated(ps: Pages, events: seq<Event>)
    requires WellFormedPages(ps) && Run(ps, events).Some?
    ensures Run(ps, events).value.Next? && HistoryOk(Run(ps, events).value.state)
  {
    EveryRunIsSafe(ps, events);
    if events != [] {
      var n := |events| - 1;
      EveryRunIsSafe(ps, events[..n]);
      EveryRunIsSeparated(ps, events[..n]);
      StepIsOwn(Run(ps, events[..n]).value.state, events[n]);
      OwnStepKeepsHistory(Run(ps, events[..n]).value.state, Run(ps, events).value.state, events[n].t);
    }
  }

  // ---- the precedence graph ----

  /** Position of a transaction's end, or past the history when it has not ended. */
  function EndPosition(h: seq<Action>, t: TxnId): (k: nat)
    ensures k <= |h| && (k < |h| ==> h[k] == End(t))
    ensures forall i :: 0 <= i < k ==> h[i] != End(t)
  {
    EndPositionFrom(h, t, 0)
  }

  function EndPositionFrom(h: seq<Action>, t: TxnId, from: nat): (k: nat)
    requires from <= |h|
    ensures from <= k <= |h| && (k < |h| ==> h[k] == End(t))
    ensures forall i :: from <= i < k ==> h[i] != End(t)
    decreases |h| - from
  {
    if from == |h| || h[from] == End(t) then from else EndPositionFrom(h, t, from + 1)
  }

  /** Conflict edges go strictly forward in ending order. */
  lemma {:induction false} EdgeFollowsEndOrder(s: State, t: TxnId, u: TxnId)
    requires HistoryOk(s) && Precedes(s.history, t, u)
    ensures EndPosition(s.history, t) < EndPosition(s.history, u)
  {
    var h := s.history;
    var i, j :| 0 <= i < j < |h| && Conflict(h[i], h[j]) && h[i].txn == t && h[j].txn == u;
    assert EndedBetween(h, h[i].txn, i, j);
    var k :| 0 <= k < |h| && i < k < j && h[k] == End(t);
    NotEndedBeforeAccess(s, j);
  }

  lemma NotEndedBeforeAccess(s: State, j: nat)
    requires HistoryOk(s) && j < |s.history| && s.history[j].Access?
    ensures j <= EndPosition(s.history, s.history[j].txn)
  {
  }

  lemma {:induction false} PathFollowsEndOrder(s: State, p: seq<TxnId>)
    requires HistoryOk(s) && Path(s.history, p)
    ensures EndPosition(s.history, p[0]) < EndPosition(s.history, p[|p| - 1])
    decreases |p|
  {
    var n := |p| - 1;
    EdgeFollowsEndOrder(s, p[n - 1], p[n]);
    if n > 1 { PathFollowsEndOrder(s, p[..n]); }
  }

  /** In every run, two conflicting accesses are separated by the end of the earlier one's
    * transaction, and the precedence graph has no cycle. */
  lemma ConflictSerializable(ps: Pages, events: seq<Event>, i: nat, j: nat, p: seq<TxnId>)
    requires WellFormedPages(ps) && Run(ps, events).Some? && Run(ps, events).value.Next?
    ensures var h := Run(ps, events).value.state.history;
            i < j < |h| && Conflict(h[i], h[j]) ==> EndedBetween(h, h[i].txn, i, j)
    ensures var h := Run(ps, events).value.state.history;
            Path(h, p) ==> EndPosition(h, p[0]) < EndPosition(h, p[|p| - 1]) && p[0] != p[|p| - 1]
  {
    EveryRunIsSeparated(ps, events);
    var s := Run(ps, events).value.state;
    if Path(s.history, p) { PathFollowsEndOrder(s, p); }
  }
}
