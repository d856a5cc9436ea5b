/** What has been committed stays: once a commit has released its locks, every crash is recovered to a
  * state in which the transaction is among the committed ones. */
module Durability {
  import opened Wrappers
  import opened Bytes
  import opened SlottedPage
  import opened LockTable
  import opened Transactions
  import opened TransactionSafety
  import opened Serializability
  import opened Precedence
  import opened Recovery
  import opened RecoveryTheorem
  import opened RecoveryOutcome
  import opened WriteAhead

  /** The transactions with a COMMIT in the log. */
  function Logged(log: seq<LogRecord>): set<TxnId> {
    if log == [] then {} else Logged(log[..|log| - 1]) + if log[|log| - 1].body.CommitRec? then {log[|log| - 1].txn} else {}
  }

  /** The transactions that have committed. */
  function Done(h: seq<Action>): set<TxnId> {
    if h == [] then {} else Done(h[..|h| - 1]) + if h[|h| - 1].Commit? then {h[|h| - 1].txn} else {}
  }

  lemma DoneAppend(h: seq<Action>, a: Action)
    ensures Done(h + [a]) == Done(h) + if a.Commit? then {a.txn} else {}
  {
    assert (h + [a])[..|h|] == h;
  }

  lemma LoggedAppend(log: seq<LogRecord>, r: LogRecord)
    ensures Logged(log + [r]) == Logged(log) + if r.body.CommitRec? then {r.txn} else {}
  {
    assert (log + [r])[..|log|] == log;
  }

  lemma {:induction false} DoneIsIn(h: seq<Action>, t: TxnId)
    ensures t in Done(h) <==> Commit(t) in h
  {
    if h != [] {
      DoneIsIn(h[..|h| - 1], t);
      assert h == h[..|h| - 1] + [h[|h| - 1]];
    }
  }

  lemma {:induction false} LoggedAt(log: seq<LogRecord>, i: nat, n: nat)
    requires i < n <= |log| && log[i].body.CommitRec?
    ensures log[i].txn in Logged(log[..n])
    decreases n
  {
    assert log[..n][..n - 1] == log[..n - 1];
    if i < n - 1 { LoggedAt(log, i, n - 1); }
  }

  lemma {:induction false} NoneDone(h: seq<Action>, h': seq<Action>)
    requires |h| <= |h'| && h'[..|h|] == h && forall i :: |h| <= i < |h'| ==> !h'[i].Commit?
    ensures Done(h') == Done(h)
  {
    if |h'| > |h| {
      var n := |h'| - 1;
      assert h'[..n][..|h|] == h;
      NoneDone(h, h'[..n]);
    } else {
      assert h' == h;
    }
  }

  /** What one step adds to the log and to the history. */
  ghost predicate Adds(s: State, s': State, t: TxnId, commits: bool) {
    && |s.log| <= |s'.log| <= |s.log| + 1 && s'.log[..|s.log|] == s.log
    && (|s'.log| > |s.log| ==> s'.log[|s.log|].txn == t && (s'.log[|s.log|].body.CommitRec? <==> commits))
    && (commits ==> |s'.log| > |s.log|)
    && |s.history| <= |s'.history| && s'.history[..|s.history|] == s.history
    && (if commits then s'.history == s.history + [Commit(t)]
        else forall i :: |s.history| <= i < |s'.history| ==> !s'.history[i].Commit?)
  }

  lemma AddsCommits(s: State, s': State, t: TxnId, commits: bool)
    requires Adds(s, s', t, commits)
    ensures Logged(s'.log) == Logged(s.log) + if commits then {t} else {}
    ensures Done(s'.history) == Done(s.history) + if commits then {t} else {}
  {
    if |s'.log| == |s.log| {
      assert s'.log == s.log;
    } else {
      assert s'.log == s.log + [s'.log[|s.log|]];
      LoggedAppend(s.log, s'.log[|s.log|]);
    }
    if commits { DoneAppend(s.history, Commit(t)); } else { NoneDone(s.history, s'.history); }
  }

  lemma InsertAdds(s: State, e: Event)
    requires Enabled(s, e) && (e.InsertTuple? || e.MoveInsert?)
    ensures Step(s, e).Next? && Adds(s, Step(s, e).state, e.t, false)
  {
  }

  lemma UpdateAdds(s: State, e: Event)
    requires Safe(s) && Enabled(s, e) && e.UpdateTuple?
    ensures Step(s, e).Next? && Adds(s, Step(s, e).state, e.t, false)
  {
    StepKeepsSafe(s, e);
  }

  /** A slot marked, once the lock is held and the slot seen. */
  lemma FlagAdds(s: State, s1: State, t: TxnId, rid: RID, x: Txn)
    requires t in s1.txns && !Marked(Val(s1.pages, rid)) && s1.log == s.log
    requires s1.history == s.history + [Access(t, Read(rid, Val(s1.pages, rid)))]
    ensures Adds(s, Wrote(s1, t, rid, Tuple(Val(s1.pages, rid).data, true), MarkDeleteRec(rid), x), t, false)
  {
  }

  lemma MarkAdds(s: State, e: Event)
    requires Enabled(s, e) && e.MarkDelete?
    ensures Step(s, e).Next? && Adds(s, Step(s, e).state, e.t, false)
  {
    var g := GrantWrite(s.tables, s.txns[e.t].held, e.t, e.rid);
    var s1 := Saw(WithGrant(s, e.t, e.rid, g), e.t, e.rid);
    var slot := Val(s.pages, e.rid);
    if g.ok && !Marked(slot) { FlagAdds(s, s1, e.t, e.rid, Record(s1.txns[e.t], DeleteW(e.rid, slot.data))); }
  }

  lemma MoveMarkAdds(s: State, e: Event)
    requires Enabled(s, e) && e.MoveMark?
    ensures Step(s, e).Next? && Adds(s, Step(s, e).state, e.t, false)
  {
    var m := s.txns[e.t].move.value;
    var g := GrantWrite(s.tables, s.txns[e.t].held, e.t, m.rid);
    var s1 := Saw(WithGrant(s, e.t, m.rid, g), e.t, m.rid);
    if g.ok && !Marked(Val(s.pages, m.rid)) { FlagAdds(s, s1, e.t, m.rid, s1.txns[e.t].(move := Some(m.(marked := true)))); }
  }

  lemma LoopAdds(s: State, e: Event)
    requires Safe(s) && Enabled(s, e) && (e.CommitStep? || e.UndoStep?)
    ensures Step(s, e).Next? && Adds(s, Step(s, e).state, e.t, false)
  {
    StepKeepsSafe(s, e);
    if e.UndoStep? { var c, x', body := UndoStepIsWrite(s, e.t); }
  }

  lemma StepAdds(s: State, e: Event)
    requires Safe(s) && Enabled(s, e)
    ensures Step(s, e).Next? && Adds(s, Step(s, e).state, e.t, e.LogCommit?)
  {
    match e
    case InsertTuple(_, _, _) => InsertAdds(s, e);
    case MoveInsert(_, _) => InsertAdds(s, e);
    case UpdateTuple(_, _, _) => UpdateAdds(s, e);
    case MarkDelete(_, _) => MarkAdds(s, e);
    case MoveMark(_) => MoveMarkAdds(s, e);
    case CommitStep(_) => LoopAdds(s, e);
    case UndoStep(_) => LoopAdds(s, e);
    case _ =>
  }

  // ---- commits in the log ----

  ghost predicate CommitAt(log: seq<LogRecord>, i: int, t: TxnId) {
    0 <= i < |log| && log[i].txn == t && log[i].body.CommitRec?
  }

  /** Log and history agree on who has committed, and who has is on its way out. */
  ghost predicate CommitOk(s: State) {
    && Logged(s.log) == Done(s.history)
    && (forall t :: t in Logged(s.log) ==> t in s.txns && (s.txns[t].phase == Committed || s.txns[t].phase == Ended))
    && (forall t :: t in s.txns && s.txns[t].phase == Committed ==> CommitAt(s.log, s.txns[t].prevLsn, t))
  }

  /** A growing transaction goes on or is doomed. */
  lemma ForwardPhase(s: State, e: Event)
    requires Enabled(s, e) && (e.InsertTuple? || e.UpdateTuple? || e.MarkDelete? || e.MoveMark? || e.MoveInsert?)
    ensures Step(s, e).Next? && e.t in Step(s, e).state.txns
    ensures var p := Step(s, e).state.txns[e.t].phase; p == Growing || p == Aborted
  {
  }

  /** A transaction is committed by the one step that logs it, and then only ends. */
  lemma PhaseAfter(s: State, e: Event)
    requires Safe(s) && Enabled(s, e)
    ensures Step(s, e).Next? && e.t in Step(s, e).state.txns
    ensures var x' := Step(s, e).state.txns[e.t];
            && (x'.phase == Committed <==> e.LogCommit?) && (e.LogCommit? ==> x'.prevLsn == |s.log|)
            && (e.t in s.txns && s.txns[e.t].phase == Committed ==> x'.phase == Ended)
            && !(e.t in s.txns && s.txns[e.t].phase == Ended)
  {
    if e.UndoStep? {
      var c, x', body := UndoStepIsWrite(s, e.t);
    } else if e.CommitStep? {
      CommitStepKeepsSafe(s, e.t);
    } else if e.InsertTuple? || e.UpdateTuple? || e.MarkDelete? || e.MoveMark? || e.MoveInsert? {
      ForwardPhase(s, e);
    }
  }

  lemma StepKeepsCommitOk(s: State, e: Event)
    requires Safe(s) && Enabled(s, e) && CommitOk(s)
    ensures Step(s, e).Next? && CommitOk(Step(s, e).state)
  {
    StepAdds(s, e);
    StepIsOwn(s, e);
    PhaseAfter(s, e);
    CommitOkAfter(s, Step(s, e).state, e);
  }

  lemma CommitOkAfter(s: State, s': State, e: Event)
    requires CommitOk(s) && Adds(s, s', e.t, e.LogCommit?) && e.t in s'.txns
    requires forall u :: u != e.t ==> (u in s.txns <==> u in s'.txns)
    requires forall u :: u != e.t && u in s.txns ==> s'.txns[u] == s.txns[u]
    requires s'.txns[e.t].phase == Committed <==> e.LogCommit?
    requires e.LogCommit? ==> s'.txns[e.t].prevLsn == |s.log|
    requires e.t in s.txns && s.txns[e.t].phase == Committed ==> s'.txns[e.t].phase == Ended
    requires !(e.t in s.txns && s.txns[e.t].phase == Ended)
    ensures CommitOk(s')
  {
    AddsCommits(s, s', e.t, e.LogCommit?);
    forall u | u in s'.txns && s'.txns[u].phase == Committed ensures CommitAt(s'.log, s'.txns[u].prevLsn, u) {
      if u != e.t { assert CommitAt(s.log, s.txns[u].prevLsn, u); }
    }
  }

  lemma {:induction false} EveryRunCommitOk(ps: Pages, events: seq<Event>)
    requires WellFormedPages(ps) && Run(ps, events).Some?
    ensures Run(ps, events).value.Next? && CommitOk(Run(ps, events).value.state)
  {
    EveryRunIsSafe(ps, events);
    if events != [] {
      var n := |events| - 1;
      EveryRunCommitOk(ps, events[..n]);
      EveryRunIsSafe(ps, events[..n]);
      StepKeepsCommitOk(Run(ps, events[..n]).value.state, events[n]);
    }
  }

  // ---- commits in the log file ----

  /** The commit has returned, and there was something to make durable. */
  ghost predicate Returned(s: State, t: TxnId) {
    t in s.txns && s.txns[t].phase == Ended && t in Logged(s.log) && HasChanged(s.log, t)
  }

  ghost predicate InFile(m: Machine) {
    && m.durable <= |m.s.log|
    && forall t :: Returned(m.s, t) ==> t in Logged(m.s.log[..m.durable])
  }

  lemma {:induction false} LoggedLonger(log: seq<LogRecord>, n: nat, k: nat)
    requires n <= k <= |log|
    ensures Logged(log[..n]) <= Logged(log[..k])
    decreases k
  {
    if n < k {
      assert log[..k][..k - 1] == log[..k - 1];
      LoggedLonger(log, n, k - 1);
    }
  }

  lemma ChangedBefore(log: seq<LogRecord>, log': seq<LogRecord>, t: TxnId)
    requires |log| <= |log'| <= |log| + 1 && log'[..|log|] == log && HasChanged(log', t)
    requires |log'| > |log| ==> log'[|log|].txn != t
    ensures HasChanged(log, t)
  {
    var i :| 0 <= i < |log'| && log'[i].txn == t && PageOf(log'[i].body).Some?;
    assert log[i] == log'[i];
  }

  /** A commit that returns leaves its record in the file. */
  lemma ReturnsDurable(m: Machine, e: Event)
    requires Safe(m.s) && CommitOk(m.s) && InFile(m) && IoEnabled(m, Act(e))
    requires Returned(Step(m.s, e).state, e.t)
    ensures e.t in Logged(m.s.log[..m.durable])
  {
    var s, t := m.s, e.t;
    StepAdds(s, e);
    PhaseAfter(s, e);
    AddsCommits(s, Step(s, e).state, t, e.LogCommit?);
    EndsWithoutChange(s, e);
    assert CommitAt(s.log, s.txns[t].prevLsn, t);
    LoggedAt(s.log, s.txns[t].prevLsn, m.durable);
  }

  lemma OthersReturned(s: State, e: Event, t: TxnId)
    requires Safe(s) && Enabled(s, e) && t != e.t && Step(s, e).Next? && Returned(Step(s, e).state, t)
    ensures Returned(s, t)
  {
    StepAdds(s, e);
    StepIsOwn(s, e);
    AddsCommits(s, Step(s, e).state, e.t, e.LogCommit?);
    ChangedBefore(s.log, Step(s, e).state.log, t);
  }

  lemma EndsWithoutChange(s: State, e: Event)
    requires Safe(s) && Enabled(s, e) && e.t in s.txns && s.txns[e.t].phase == Committed
    ensures e.ReleaseLocks? && Step(s, e).Next? && Step(s, e).state.log == s.log
  {
  }

  lemma IoStepKeepsInFile(m: Machine, io: IoEvent)
    requires Safe(m.s) && CommitOk(m.s) && InFile(m) && IoEnabled(m, io)
    ensures InFile(IoStep(m, io))
  {
    var m' := IoStep(m, io);
    if io.Act? {
      StepAdds(m.s, io.e);
      assert m'.s.log[..m.durable] == m.s.log[..m.durable];
      forall t | Returned(m'.s, t) ensures t in Logged(m'.s.log[..m'.durable]) {
        if t == io.e.t { ReturnsDurable(m, io.e); } else { OthersReturned(m.s, io.e, t); }
      }
    } else {
      LoggedLonger(m.s.log, m.durable, m'.durable);
    }
  }

  lemma {:induction false} EveryRunInFile(ps: Pages, ios: seq<IoEvent>)
    requires WellFormedPages(ps) && IoRun(ps, ios).Some?
    ensures InFile(IoRun(ps, ios).value)
  {
    if ios != [] {
      var n := |ios| - 1;
      EveryRunInFile(ps, ios[..n]);
      IoRunIsSafe(ps, ios[..n]);
      ActsRun(ps, ios[..n]);
      EveryRunCommitOk(ps, Acts(ios[..n]));
      IoStepKeepsInFile(IoRun(ps, ios[..n]).value, ios[n]);
    }
  }

  /** The flush is all a commit waits for: behind it the locks can be released. */
  lemma FlushLetsCommitEnd(m: Machine, t: TxnId)
    requires CommitOk(m.s) && t in m.s.txns && m.s.txns[t].phase == Committed
    ensures IoEnabled(m, FlushLog) && IoEnabled(IoStep(m, FlushLog), Act(ReleaseLocks(t)))
  {
    assert CommitAt(m.s.log, m.s.txns[t].prevLsn, t);
  }

  /** Crash a run anywhere: every transaction whose commit had returned after writing something is
    * among the committed ones of the state recovery arrives at. */
  lemma {:induction false} CommittedSurvives(ps: Pages, ios: seq<IoEvent>, order: seq<TxnId>, rid: RID) returns (k: nat)
    requires WellFormedPages(ps) && IoRun(ps, ios).Some? && OrderedRun(ps, ios)
    requires var m := IoRun(ps, ios).value;
             && m.durable <= |m.s.log| && NeverShrinks(m.s.log)
             && var log := m.s.log[..m.durable];
                LosersAppliedNothing(log) && Unfollowed(log) && Enumerates(order, ActiveAfter(log))
    ensures k <= |Acts(ios)| && Run(ps, Acts(ios)[..k]).Some? && Run(ps, Acts(ios)[..k]).value.Next?
    ensures var m := IoRun(ps, ios).value;
            var s := Run(ps, Acts(ios)[..k]).value.state;
            && s.log == m.s.log[..m.durable]
            && RedoAll(m.disk, s.log).Some? && ChainsDown(s.log) && InLog(ActiveAfter(s.log), s.log)
            && (var r := UndoInOrder(PagesOf(RedoAll(m.disk, s.log).value), s.log, ActiveAfter(s.log), order);
                r.Some? && Val(r.value, rid) == Replay(Serial(s.history), ps, rid))
            && forall t :: t in m.s.txns && m.s.txns[t].phase == Ended && Commit(t) in m.s.history && HasChanged(m.s.log, t) ==>
                 Commit(t) in s.history
  {
    k := CrashRecovers(ps, ios, order, rid);
    EveryRunInFile(ps, ios);
    ActsRun(ps, ios);
    EveryRunCommitOk(ps, Acts(ios));
    EveryRunCommitOk(ps, Acts(ios)[..k]);
    CommitsAreKept(IoRun(ps, ios).value, Run(ps, Acts(ios)[..k]).value.state);
  }

  lemma CommitsAreKept(m: Machine, s: State)
    requires InFile(m) && CommitOk(m.s) && CommitOk(s) && s.log == m.s.log[..m.durable]
    ensures forall t :: t in m.s.txns && m.s.txns[t].phase == Ended && Commit(t) in m.s.history && HasChanged(m.s.log, t) ==>
              Commit(t) in s.history
  {
    forall t | t in m.s.txns && m.s.txns[t].phase == Ended && Commit(t) in m.s.history && HasChanged(m.s.log, t)
      ensures Commit(t) in s.history
    {
      DoneIsIn(m.s.history, t);
      DoneIsIn(s.history, t);
      assert Returned(m.s, t);
    }
  }
}
