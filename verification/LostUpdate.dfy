/** A run in which an update rolled back and an update committed meet on one tuple.  Whatever the
  * lengths, recovery loses the committed one: redo may refuse to repeat it, and undo takes it back. */
module LostUpdate {
  import opened Wrappers
  import opened Bytes
  import opened SlottedPage
  import opened LockTable
  import opened Transactions
  import opened TransactionSafety
  import opened Serializability
  import opened Recovery
  import opened RecoveryTheorem
  import opened RecoveryOutcome
  import opened RunStates
  import opened LostCommit

  function OnePage(a: seq<byte>): Pages { map[0 := [Tuple(a, false)]] }

  /** Transaction 1 updates the tuple and aborts. */
  function FirstUpdate(b: seq<byte>): seq<Event> {
    [Begin(1), UpdateTuple(1, R, b), StartAbort(1), UndoStep(1), ReleaseLocks(1)]
  }

  /** Transaction 2 updates it and commits. */
  function SecondUpdate(c: seq<byte>): seq<Event> {
    [Begin(2), UpdateTuple(2, R, c), StartCommit(2), CommitStep(2), LogCommit(2)]
  }

  function UpdateEvents(b: seq<byte>, c: seq<byte>): seq<Event> { FirstUpdate(b) + SecondUpdate(c) }

  function FirstRecords(a: seq<byte>, b: seq<byte>): seq<LogRecord> {
    [] + [LogRecord(1, -1, BeginRec)] + [LogRecord(1, 0, UpdateRec(R, a, b))] +
    [LogRecord(1, 1, UpdateRec(R, b, a))] + [LogRecord(1, 2, AbortRec)]
  }

  function UpdateLog(a: seq<byte>, b: seq<byte>, c: seq<byte>): seq<LogRecord> {
    FirstRecords(a, b) + [LogRecord(2, -1, BeginRec)] + [LogRecord(2, 4, UpdateRec(R, a, c))] + [LogRecord(2, 5, CommitRec)]
  }

  predicate Fit(a: seq<byte>, b: seq<byte>) { a != [] && |a| <= |b| <= 100 }

  function Updater(a: seq<byte>, phase: Phase, writes: seq<WriteRecord>, lsn: int): Txn {
    Txn(phase, LOCKED, writes, None, map[R := Tuple(a, false)], lsn)
  }

  // ---- the run ----

  lemma BeginAndUpdate(s: State, t: TxnId, txns: map<TxnId, Txn>, log: seq<LogRecord>, a: seq<byte>, b: seq<byte>)
    returns (s1: State, s2: State)
    requires Is(s, [Tuple(a, false)], NO_LOCKS, txns, log) && t !in txns && Fit(a, b)
    ensures Leads(s, Begin(t), s1) && Leads(s1, UpdateTuple(t, R, b), s2)
    ensures Is(s2, [Tuple(b, false)], Owner(t), txns[t := Updater(a, Growing, [UpdateW(R, a, b)], |log| + 1)],
               log + [LogRecord(t, -1, BeginRec)] + [LogRecord(t, |log|, UpdateRec(R, a, b))])
  {
    s1 := DoBegin(s, t);
    UpdateStep(s1, t, s1.txns, s1.log, a, b);
    s2 := DoUpdate(s1, t, R, b);
    var x := Updater(a, Growing, [UpdateW(R, a, b)], |log| + 1);
    assert s1.txns[t := x] == txns[t := x];
  }

  lemma UpdateStep(s: State, t: TxnId, txns: map<TxnId, Txn>, log: seq<LogRecord>, a: seq<byte>, b: seq<byte>)
    requires Is(s, [Tuple(a, false)], NO_LOCKS, txns, log) && t in txns && txns[t] == Fresh(|log| - 1) && Fit(a, b)
    ensures Enabled(s, UpdateTuple(t, R, b))
    ensures Is(DoUpdate(s, t, R, b), [Tuple(b, false)], Owner(t),
               txns[t := Updater(a, Growing, [UpdateW(R, a, b)], |log|)], log + [LogRecord(t, |log| - 1, UpdateRec(R, a, b))])
  {
    var g := GrantWrite(s.tables, s.txns[t].held, t, R);
    assert g == Grant(true, Owner(t), LOCKED);
    var s1 := Saw(WithGrant(s, t, R, g), t, R);
    assert s1.txns[t] == Updater(a, Growing, [], |log| - 1);
    UpdateFits(a, b, false);
    assert Put([Tuple(a, false)], 0, Tuple(b, false)) == [Tuple(b, false)];
    assert s.pages[0 := [Tuple(b, false)]] == map[0 := [Tuple(b, false)]];
    assert Record(s1.txns[t], UpdateW(R, a, b)).writes == [UpdateW(R, a, b)];
  }

  /** Updates of the one tuple: room is never the question, and only redo minds a shorter tuple. */
  lemma UpdateFits(a: seq<byte>, b: seq<byte>, rollback: bool)
    requires |a| <= 100 && |b| <= 100
    ensures UpdateOutcomeOf([Tuple(a, false)], 0, |b|, rollback) ==
            if |a| > |b| && !rollback then RollbackDifficult else Updated
  {
    assert [Tuple(a, false)][..0] == [];
    assert Used([Tuple(a, false)]) == |a|;
  }

  lemma AbortUpdate(s2: State, log: seq<LogRecord>, a: seq<byte>, b: seq<byte>) returns (s3: State, s4: State, s5: State)
    requires |log| == 2 && Fit(a, b)
    requires Is(s2, [Tuple(b, false)], Owner(1), map[1 := Updater(a, Growing, [UpdateW(R, a, b)], 1)], log)
    ensures Leads(s2, StartAbort(1), s3) && Leads(s3, UndoStep(1), s4) && Leads(s4, ReleaseLocks(1), s5)
    ensures Is(s5, [Tuple(a, false)], NO_LOCKS, map[1 := Updater(a, Ended, [], 3)],
               log + [LogRecord(1, 1, UpdateRec(R, b, a))] + [LogRecord(1, 2, AbortRec)])
  {
    s3 := WithPhase(s2, 1, Aborting);
    assert s3.txns == map[1 := Updater(a, Aborting, [UpdateW(R, a, b)], 1)];
    s4 := TakeBack(s3, log, a, b);
    s5 := Release1(s4, s4.log, a);
  }

  lemma TakeBack(s: State, log: seq<LogRecord>, a: seq<byte>, b: seq<byte>) returns (s': State)
    requires |log| == 2 && Fit(a, b)
    requires Is(s, [Tuple(b, false)], Owner(1), map[1 := Updater(a, Aborting, [UpdateW(R, a, b)], 1)], log)
    ensures Leads(s, UndoStep(1), s')
    ensures Is(s', [Tuple(a, false)], Owner(1), map[1 := Updater(a, Aborting, [], 2)], log + [LogRecord(1, 1, UpdateRec(R, b, a))])
  {
    UpdateFits(b, a, true);
    s' := DoUndoStep(s, 1).state;
    assert Put([Tuple(b, false)], 0, Tuple(a, false)) == [Tuple(a, false)];
    assert s.pages[0 := [Tuple(a, false)]] == map[0 := [Tuple(a, false)]];
    assert Popped(s.txns[1]).writes == [];
    assert s.txns[1 := Updater(a, Aborting, [], 2)] == map[1 := Updater(a, Aborting, [], 2)];
  }

  lemma Release1(s: State, log: seq<LogRecord>, a: seq<byte>) returns (s': State)
    requires |log| == 3 && Is(s, [Tuple(a, false)], Owner(1), map[1 := Updater(a, Aborting, [], 2)], log)
    ensures Leads(s, ReleaseLocks(1), s')
    ensures Is(s', [Tuple(a, false)], NO_LOCKS, map[1 := Updater(a, Ended, [], 3)], log + [LogRecord(1, 2, AbortRec)])
  {
    ReleaseR(1);
    s' := DoRelease(s, 1);
    assert s.txns[1 := Updater(a, Ended, [], 3)] == map[1 := Updater(a, Ended, [], 3)];
  }

  lemma ReleaseR(t: TxnId)
    ensures Release(Owner(t), t, LOCKED.exclusive + LOCKED.shared) == NO_LOCKS
  {
    assert LOCKED.exclusive + LOCKED.shared == [R];
    assert [R][..0] == [];
    assert Release(Owner(t), t, []) == Owner(t);
    assert Owner(t).exclusive - {R} == map[];
  }

  lemma CommitUpdate(s: State, a: seq<byte>, c: seq<byte>) returns (s1: State, s2: State)
    requires 2 in s.txns && s.txns[2] == Updater(a, Growing, [UpdateW(R, a, c)], 5)
    ensures Leads(s, StartCommit(2), s1) && Leads(s1, CommitStep(2), s2) && Enabled(s2, LogCommit(2))
    ensures s2.pages == s.pages && s2.tables == s.tables && s2.log == s.log && s2.txns[2] == Updater(a, Committing, [], 5)
  {
    s1 := WithPhase(s, 2, Committing);
    var x := s1.txns[2];
    assert x.writes[|x.writes| - 1] == UpdateW(R, a, c);
    s2 := DoCommitStep(s1, 2).state;
    assert Popped(x).writes == [];
  }

  lemma FirstStates(a: seq<byte>, b: seq<byte>) returns (ss: seq<State>)
    requires Fit(a, b)
    ensures Linked(FirstUpdate(b), ss) && ss[0] == Initial(OnePage(a))
    ensures Is(ss[5], [Tuple(a, false)], NO_LOCKS, map[1 := Updater(a, Ended, [], 3)], FirstRecords(a, b))
  {
    var s0 := Initial(OnePage(a));
    var s1, s2 := BeginAndUpdate(s0, 1, map[], [], a, b);
    var s3, s4, s5 := AbortUpdate(s2, [] + [LogRecord(1, -1, BeginRec)] + [LogRecord(1, 0, UpdateRec(R, a, b))], a, b);
    ss := LinkFive(s0, Begin(1), s1, UpdateTuple(1, R, b), s2, StartAbort(1), s3, UndoStep(1), s4, ReleaseLocks(1), s5);
  }

  ghost predicate UpdateCommitted(s: State, log: seq<LogRecord>, a: seq<byte>, c: seq<byte>) {
    && s.pages == OnePage(c) && s.tables == Owner(2) && 2 in s.txns && s.txns[2].phase == Committed
    && s.log == log + [LogRecord(2, -1, BeginRec)] + [LogRecord(2, 4, UpdateRec(R, a, c))] + [LogRecord(2, 5, CommitRec)]
  }

  lemma SecondStates(s5: State, log: seq<LogRecord>, a: seq<byte>, c: seq<byte>) returns (ss: seq<State>)
    requires Fit(a, c) && |log| == 4
    requires Is(s5, [Tuple(a, false)], NO_LOCKS, map[1 := Updater(a, Ended, [], 3)], log)
    ensures Linked(SecondUpdate(c), ss) && ss[0] == s5 && UpdateCommitted(ss[5], log, a, c)
  {
    var s6, s7 := BeginAndUpdate(s5, 2, s5.txns, log, a, c);
    var s8, s9 := CommitUpdate(s7, a, c);
    var s10 := DoLogCommit(s9, 2);
    ss := LinkFive(s5, Begin(2), s6, UpdateTuple(2, R, c), s7, StartCommit(2), s8, CommitStep(2), s9, LogCommit(2), s10);
  }

  lemma UpdatesRun(a: seq<byte>, b: seq<byte>, c: seq<byte>)
    requires Fit(a, b) && Fit(a, c)
    ensures Run(OnePage(a), UpdateEvents(b, c)).Some? && Run(OnePage(a), UpdateEvents(b, c)).value.Next?
    ensures var s := Run(OnePage(a), UpdateEvents(b, c)).value.state;
            && s.log == UpdateLog(a, b, c) && s.pages == OnePage(c)
            && Replay(Serial(s.history), OnePage(a), R) == Tuple(c, false)
  {
    var ss := FirstStates(a, b);
    var ts := SecondStates(ss[5], FirstRecords(a, b), a, c);
    LinkedConcat(FirstUpdate(b), ss, SecondUpdate(c), ts);
    StatesRun(OnePage(a), UpdateEvents(b, c), ss + ts[1..], 10);
    assert UpdateEvents(b, c)[..10] == UpdateEvents(b, c);
    UpdateIsThere(UpdateEvents(b, c), ts[5], a, b, c);
  }

  lemma UpdateIsThere(es: seq<Event>, s: State, a: seq<byte>, b: seq<byte>, c: seq<byte>)
    requires Run(OnePage(a), es) == Some(Next(s)) && UpdateCommitted(s, FirstRecords(a, b), a, c) && a != [] && |a| <= 100
    ensures s.log == UpdateLog(a, b, c) && Replay(Serial(s.history), OnePage(a), R) == Tuple(c, false)
  {
    assert [Tuple(a, false)][..0] == [];
    assert Used([Tuple(a, false)]) == |a|;
    CommittedRunsSerially(OnePage(a), es, R);
  }

  // ---- what recovery makes of it ----

  /** One update record redone on the one page: refused when it shortens the tuple. */
  lemma RedoUpdate(d: seq<byte>, lsn: int, k: nat, old_: seq<byte>, new_: seq<byte>)
    requires |d| <= 100 && |new_| <= 100 && lsn < k
    ensures RedoRecord(map[0 := DiskPage([Tuple(d, false)], lsn)], k, UpdateRec(R, old_, new_)) ==
            Some(map[0 := DiskPage([Tuple(if |d| <= |new_| then new_ else d, false)], k)])
  {
    UpdateFits(d, new_, false);
    var e := map[0 := DiskPage([Tuple(d, false)], lsn)];
    var x := if |d| <= |new_| then new_ else d;
    assert Put([Tuple(d, false)], 0, Tuple(new_, false)) == [Tuple(new_, false)];
    assert e[0 := DiskPage([Tuple(x, false)], k)] == map[0 := DiskPage([Tuple(x, false)], k)];
  }

  /** The tuple after redo from the disk of the start. */
  function Redone(a: seq<byte>, b: seq<byte>, c: seq<byte>): seq<byte> {
    var d := if |b| <= |a| then a else b;
    if |d| <= |c| then c else d
  }

  lemma UpdatesRedone(a: seq<byte>, b: seq<byte>, c: seq<byte>)
    requires Fit(a, b) && Fit(a, c)
    ensures RedoAll(map[0 := DiskPage([Tuple(a, false)], 0)], UpdateLog(a, b, c)) ==
            Some(map[0 := DiskPage([Tuple(Redone(a, b, c), false)], 5)])
  {
    var log := UpdateLog(a, b, c);
    var d := if |b| <= |a| then a else b;
    var d0, d1 := map[0 := DiskPage([Tuple(a, false)], 0)], map[0 := DiskPage([Tuple(b, false)], 1)];
    var d2, d3 := map[0 := DiskPage([Tuple(d, false)], 2)], map[0 := DiskPage([Tuple(Redone(a, b, c), false)], 5)];
    RedoUpdate(a, 0, 1, a, b);
    RedoUpdate(b, 1, 2, b, a);
    RedoUpdate(d, 2, 5, a, c);
    DisksRedo(log, [d0, d0, d1, d2, d2, d2, d3, d3], 7);
    assert log[..7] == log;
  }

  lemma UpdatesActive(a: seq<byte>, b: seq<byte>, c: seq<byte>)
    ensures ActiveAfter(UpdateLog(a, b, c)) == map[1 := 3]
  {
    var log := UpdateLog(a, b, c);
    assert log[..7] == log;
    assert ActiveAfter(log[..1]) == map[1 := 0] by { assert log[..1][..0] == []; }
    assert ActiveAfter(log[..2]) == map[1 := 1] by { assert log[..2][..1] == log[..1]; }
    assert ActiveAfter(log[..3]) == map[1 := 2] by { assert log[..3][..2] == log[..2]; }
    assert ActiveAfter(log[..4]) == map[1 := 3] by { assert log[..4][..3] == log[..3]; }
    assert ActiveAfter(log[..5]) == map[1 := 3, 2 := 4] by { assert log[..5][..4] == log[..4]; }
    assert ActiveAfter(log[..6]) == map[1 := 3, 2 := 5] by { assert log[..6][..5] == log[..5]; }
    assert ActiveAfter(log[..7]) == map[1 := 3] by { assert log[..7][..6] == log[..6]; }
  }

  /** Undo of one update record writes the old bytes, whatever stands there. */
  lemma UndoUpdate(d: seq<byte>, old_: seq<byte>, new_: seq<byte>)
    requires |d| <= 100 && |old_| <= 100
    ensures UndoRecord(OnePage(d), UpdateRec(R, old_, new_)) == Some(OnePage(old_))
  {
    UpdateFits(d, old_, true);
    assert Put([Tuple(d, false)], 0, Tuple(old_, false)) == [Tuple(old_, false)];
    assert OnePage(d)[0 := [Tuple(old_, false)]] == OnePage(old_);
  }

  lemma UpdatesUndone(a: seq<byte>, b: seq<byte>, c: seq<byte>, d: seq<byte>)
    requires Fit(a, b) && |d| <= 100
    ensures ChainsDown(UpdateLog(a, b, c)) && UndoChain(OnePage(d), UpdateLog(a, b, c), 3) == Some(OnePage(a))
  {
    var log := UpdateLog(a, b, c);
    UndoUpdate(d, b, a);
    UndoUpdate(b, a, b);
    assert UndoChain(OnePage(a), log, -1) == Some(OnePage(a));
    assert UndoChain(OnePage(a), log, 0) == Some(OnePage(a));
    assert UndoChain(OnePage(b), log, 1) == Some(OnePage(a));
    assert UndoChain(OnePage(d), log, 2) == Some(OnePage(a));
  }

  /** The committed update is lost although redo repeated history and no delete was applied: the
    * aborted transaction had written the tuple before, and its work is undone once more. */
  lemma FollowedUpdateIsLost(a: seq<byte>, b: seq<byte>, c: seq<byte>)
    requires Fit(a, b) && Fit(a, c) && |b| == |a|
    ensures Run(OnePage(a), UpdateEvents(b, c)).Some? && Run(OnePage(a), UpdateEvents(b, c)).value.Next?
    ensures var s := Run(OnePage(a), UpdateEvents(b, c)).value.state;
            && s.log == UpdateLog(a, b, c) && Replay(Serial(s.history), OnePage(a), R) == Tuple(c, false)
            && NeverShrinks(s.log) && LosersAppliedNothing(s.log) && !Unfollowed(s.log)
            && RedoAll(map[0 := DiskPage([Tuple(a, false)], 0)], s.log) == Some(map[0 := DiskPage([Tuple(c, false)], 5)])
            && ActiveAfter(s.log) == map[1 := 3] && ChainsDown(s.log)
            && UndoChain(OnePage(c), s.log, 3) == Some(OnePage(a))
  {
    UpdatesRun(a, b, c);
    UpdatesRedone(a, b, c);
    UpdatesActive(a, b, c);
    UpdatesUndone(a, b, c, c);
    UpdateIsFollowed(a, b, c);
  }

  lemma UpdateIsFollowed(a: seq<byte>, b: seq<byte>, c: seq<byte>)
    requires Fit(a, b) && Fit(a, c)
    ensures var log := UpdateLog(a, b, c);
            LosersAppliedNothing(log) && !Unfollowed(log) && (NeverShrinks(log) <==> |b| <= |a|)
  {
    var log := UpdateLog(a, b, c);
    assert log[2].body == UpdateRec(R, b, a);
    assert log[3].txn == 1 && log[3].body.AbortRec?;
    assert AbortedIn(log, log[1].txn) && SameRid(log[1].body, log[5].body) && log[5].txn != log[1].txn;
  }

  /** With a longer tuple rolled back redo already fails: it refuses the compensating record, then
    * the committed update as well, and leaves the aborted bytes where the run left the committed ones. */
  lemma LongerUpdateIsLost(a: seq<byte>, b: seq<byte>, c: seq<byte>)
    requires Fit(a, b) && Fit(a, c) && |a| <= |c| < |b|
    ensures Run(OnePage(a), UpdateEvents(b, c)).Some? && Run(OnePage(a), UpdateEvents(b, c)).value.Next?
    ensures var s := Run(OnePage(a), UpdateEvents(b, c)).value.state;
            && s.log == UpdateLog(a, b, c) && s.pages == OnePage(c)
            && Replay(Serial(s.history), OnePage(a), R) == Tuple(c, false)
            && !NeverShrinks(s.log) && LosersAppliedNothing(s.log)
            && RedoAll(map[0 := DiskPage([Tuple(a, false)], 0)], s.log) == Some(map[0 := DiskPage([Tuple(b, false)], 5)])
            && ActiveAfter(s.log) == map[1 := 3] && ChainsDown(s.log)
            && UndoChain(OnePage(b), s.log, 3) == Some(OnePage(a))
  {
    UpdatesRun(a, b, c);
    UpdatesRedone(a, b, c);
    UpdatesActive(a, b, c);
    UpdatesUndone(a, b, c, b);
    UpdateIsFollowed(a, b, c);
  }
}
