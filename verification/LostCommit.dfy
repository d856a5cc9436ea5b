/** A run in which recovery loses a committed tuple: an aborted transaction had changed a page. */
module LostCommit {
  import opened Wrappers
  import opened Bytes
  import opened SlottedPage
  import opened LockTable
  import opened Transactions
  import opened TransactionSafety
  import opened Serializability
  import opened Recovery
  import opened RecoveryTheorem
  import opened RecoveryOutcome
  import opened RunStates

  const R := RID(0, 0)

  /** Transaction 1 inserts a tuple and aborts. */
  function FirstEvents(a: seq<byte>): seq<Event> {
    [Begin(1), InsertTuple(1, 0, a), StartAbort(1), UndoStep(1), ReleaseLocks(1)]
  }

  /** Transaction 2 inserts into the slot and commits. */
  function SecondEvents(b: seq<byte>): seq<Event> {
    [Begin(2), InsertTuple(2, 0, b), StartCommit(2), CommitStep(2), LogCommit(2)]
  }

  function Events(a: seq<byte>, b: seq<byte>): seq<Event> { FirstEvents(a) + SecondEvents(b) }

  const FREE := Held([], [])
  const LOCKED := Held([], [R])
  const NO_LOCKS := Tables(map[], map[])

  function Owner(t: TxnId): Tables { Tables(map[], map[R := t]) }

  function Fresh(lsn: int): Txn { Txn(Growing, FREE, [], None, map[], lsn) }

  function Writer(phase: Phase, writes: seq<WriteRecord>, lsn: int): Txn {
    Txn(phase, LOCKED, writes, None, map[R := Empty], lsn)
  }

  /** The state but for its history. */
  ghost predicate Is(s: State, p: Page, tables: Tables, txns: map<TxnId, Txn>, log: seq<LogRecord>) {
    s.pages == map[0 := p] && s.tables == tables && s.txns == txns && s.log == log
  }

  lemma InsertStep(s: State, t: TxnId, p: Page, txns: map<TxnId, Txn>, log: seq<LogRecord>, data: seq<byte>)
    requires Is(s, p, NO_LOCKS, txns, log) && t in txns && txns[t] == Fresh(|log| - 1) && (p == [] || p == [Empty])
    requires data != [] && |data| <= 100
    ensures Enabled(s, InsertTuple(t, 0, data))
    ensures Is(DoInsert(s, t, 0, data), [Tuple(data, false)], Owner(t),
               txns[t := Writer(Growing, [InsertW(R, data)], |log|)], log + [LogRecord(t, |log| - 1, InsertRec(R, data))])
  {
    assert Used(p) == 0 && FirstEmpty(p) == 0 && HasRoom(p, |data|) by { assert [Empty][..0] == []; }
    var g := GrantExclusive(s.tables, s.txns[t].held, t, R);
    assert g == Grant(true, Owner(t), LOCKED);
    assert Put(p, 0, Tuple(data, false)) == [Tuple(data, false)];
    assert s.pages[0 := [Tuple(data, false)]] == map[0 := [Tuple(data, false)]];
    var s1 := Claim(s, t, R);
    assert s1.txns[t] == Writer(Growing, [], |log| - 1);
    assert Record(s1.txns[t], InsertW(R, data)).writes == [InsertW(R, data)];
  }

  lemma UndoInsertStep(s: State, t: TxnId, txns: map<TxnId, Txn>, log: seq<LogRecord>, data: seq<byte>)
    requires Is(s, [Tuple(data, false)], Owner(t), txns, log) && t in txns
    requires txns[t] == Writer(Aborting, [InsertW(R, data)], |log| - 1)
    ensures Enabled(s, UndoStep(t)) && DoUndoStep(s, t).Next?
    ensures Is(DoUndoStep(s, t).state, [Empty], Owner(t), txns[t := Writer(Aborting, [], |log|)],
               log + [LogRecord(t, |log| - 1, ApplyDeleteRec(R, data))])
  {
    assert Put([Tuple(data, false)], 0, Empty) == [Empty];
    assert s.pages[0 := [Empty]] == map[0 := [Empty]];
    assert Popped(txns[t]).writes == [];
  }

  lemma ReleaseStep(s: State, t: TxnId, p: Page, txns: map<TxnId, Txn>, log: seq<LogRecord>)
    requires Is(s, p, Owner(t), txns, log) && t in txns && txns[t] == Writer(Aborting, [], |log| - 1)
    ensures Enabled(s, ReleaseLocks(t))
    ensures Is(DoRelease(s, t), p, NO_LOCKS, txns[t := Writer(Ended, [], |log|)], log + [LogRecord(t, |log| - 1, AbortRec)])
  {
    assert LOCKED.exclusive + LOCKED.shared == [R];
    assert [R][..0] == [];
    assert Release(s.tables, t, []) == s.tables;
    assert Release(s.tables, t, [R]) == ReleaseOne(s.tables, t, R);
    assert s.tables.exclusive - {R} == map[];
  }

  const PS: Pages := map[0 := []]

  /** Begin and the insertion of a tuple into a page without any. */
  lemma BeginAndInsert(s: State, t: TxnId, p: Page, txns: map<TxnId, Txn>, log: seq<LogRecord>, data: seq<byte>)
    returns (s1: State, s2: State)
    requires Is(s, p, NO_LOCKS, txns, log) && t !in txns && (p == [] || p == [Empty]) && data != [] && |data| <= 100
    ensures Leads(s, Begin(t), s1) && Leads(s1, InsertTuple(t, 0, data), s2)
    ensures Is(s2, [Tuple(data, false)], Owner(t), txns[t := Writer(Growing, [InsertW(R, data)], |log| + 1)],
               log + [LogRecord(t, -1, BeginRec)] + [LogRecord(t, |log|, InsertRec(R, data))])
  {
    s1 := DoBegin(s, t);
    InsertStep(s1, t, p, s1.txns, s1.log, data);
    s2 := DoInsert(s1, t, 0, data);
    assert s1.txns[t := Writer(Growing, [InsertW(R, data)], |log| + 1)] == txns[t := Writer(Growing, [InsertW(R, data)], |log| + 1)];
  }

  lemma StartAbortFirst(s: State, log: seq<LogRecord>, a: seq<byte>) returns (s': State)
    requires Is(s, [Tuple(a, false)], Owner(1), map[1 := Writer(Growing, [InsertW(R, a)], 1)], log)
    ensures Leads(s, StartAbort(1), s')
    ensures Is(s', [Tuple(a, false)], Owner(1), map[1 := Writer(Aborting, [InsertW(R, a)], 1)], log)
  {
    s' := WithPhase(s, 1, Aborting);
    assert s'.txns == map[1 := Writer(Aborting, [InsertW(R, a)], 1)];
  }

  lemma UndoFirst(s: State, log: seq<LogRecord>, a: seq<byte>) returns (s': State)
    requires |log| == 2 && Is(s, [Tuple(a, false)], Owner(1), map[1 := Writer(Aborting, [InsertW(R, a)], 1)], log)
    ensures Leads(s, UndoStep(1), s')
    ensures Is(s', [Empty], Owner(1), map[1 := Writer(Aborting, [], 2)], log + [LogRecord(1, 1, ApplyDeleteRec(R, a))])
  {
    UndoInsertStep(s, 1, s.txns, log, a);
    s' := DoUndoStep(s, 1).state;
    assert s.txns[1 := Writer(Aborting, [], 2)] == map[1 := Writer(Aborting, [], 2)];
  }

  lemma ReleaseFirst(s: State, log: seq<LogRecord>) returns (s': State)
    requires |log| == 3 && Is(s, [Empty], Owner(1), map[1 := Writer(Aborting, [], 2)], log)
    ensures Leads(s, ReleaseLocks(1), s')
    ensures Is(s', [Empty], NO_LOCKS, map[1 := Writer(Ended, [], 3)], log + [LogRecord(1, 2, AbortRec)])
  {
    ReleaseStep(s, 1, [Empty], s.txns, log);
    s' := DoRelease(s, 1);
    assert s.txns[1 := Writer(Ended, [], 3)] == map[1 := Writer(Ended, [], 3)];
  }

  function FirstLog(a: seq<byte>): seq<LogRecord> {
    [] + [LogRecord(1, -1, BeginRec)] + [LogRecord(1, 0, InsertRec(R, a))] +
    [LogRecord(1, 1, ApplyDeleteRec(R, a))] + [LogRecord(1, 2, AbortRec)]
  }

  /** Transaction 1, from begin to the end of its abort. */
  lemma FirstHalf(a: seq<byte>) returns (ss: seq<State>)
    requires a != [] && |a| <= 100
    ensures Linked(FirstEvents(a), ss) && ss[0] == Initial(PS)
    ensures Is(ss[5], [Empty], NO_LOCKS, map[1 := Writer(Ended, [], 3)], FirstLog(a))
  {
    var s1, s2 := BeginAndInsert(Initial(PS), 1, [], map[], [], a);
    var s3, s4, s5 := AbortFirst(s2, [] + [LogRecord(1, -1, BeginRec)] + [LogRecord(1, 0, InsertRec(R, a))], a);
    ss := LinkFive(Initial(PS), Begin(1), s1, InsertTuple(1, 0, a), s2, StartAbort(1), s3, UndoStep(1), s4, ReleaseLocks(1), s5);
  }

  lemma AbortFirst(s2: State, log: seq<LogRecord>, a: seq<byte>) returns (s3: State, s4: State, s5: State)
    requires |log| == 2 && Is(s2, [Tuple(a, false)], Owner(1), map[1 := Writer(Growing, [InsertW(R, a)], 1)], log)
    ensures Leads(s2, StartAbort(1), s3) && Leads(s3, UndoStep(1), s4) && Leads(s4, ReleaseLocks(1), s5)
    ensures Is(s5, [Empty], NO_LOCKS, map[1 := Writer(Ended, [], 3)],
               log + [LogRecord(1, 1, ApplyDeleteRec(R, a))] + [LogRecord(1, 2, AbortRec)])
  {
    s3 := StartAbortFirst(s2, log, a);
    s4 := UndoFirst(s3, log, a);
    s5 := ReleaseFirst(s4, s4.log);
  }

  /** Transaction 2 on top, up to its commit record. */
  lemma SecondHalf(s5: State, log: seq<LogRecord>, b: seq<byte>) returns (ss: seq<State>)
    requires b != [] && |b| <= 100 && |log| == 4
    requires Is(s5, [Empty], NO_LOCKS, map[1 := Writer(Ended, [], 3)], log)
    ensures Linked(SecondEvents(b), ss) && ss[0] == s5
    ensures Finished(ss[5], log, b)
  {
    var s6, s7 := BeginAndInsert(s5, 2, [Empty], s5.txns, log, b);
    var s8, s9 := CommitWork(s7, b);
    var s10 := DoLogCommit(s9, 2);
    ss := LinkFive(s5, Begin(2), s6, InsertTuple(2, 0, b), s7, StartCommit(2), s8, CommitStep(2), s9, LogCommit(2), s10);
  }

  ghost predicate Finished(s: State, log: seq<LogRecord>, b: seq<byte>) {
    && s.pages == map[0 := [Tuple(b, false)]] && s.tables == Owner(2)
    && 2 in s.txns && s.txns[2].phase == Committed
    && s.log == log + [LogRecord(2, -1, BeginRec)] + [LogRecord(2, 4, InsertRec(R, b))] + [LogRecord(2, 5, CommitRec)]
  }

  lemma CommitWork(s: State, b: seq<byte>) returns (s1: State, s2: State)
    requires 2 in s.txns && s.txns[2] == Writer(Growing, [InsertW(R, b)], 5)
    ensures Leads(s, StartCommit(2), s1) && Leads(s1, CommitStep(2), s2) && Enabled(s2, LogCommit(2))
    ensures s2.pages == s.pages && s2.tables == s.tables && s2.log == s.log && s2.txns[2] == Writer(Committing, [], 5)
  {
    s1 := WithPhase(s, 2, Committing);
    var x := s1.txns[2];
    assert x.writes[|x.writes| - 1] == InsertW(R, b);
    s2 := DoCommitStep(s1, 2).state;
    assert Popped(x).writes == [];
  }

  function LostCommitLog(a: seq<byte>, b: seq<byte>): seq<LogRecord> {
    [LogRecord(1, -1, BeginRec), LogRecord(1, 0, InsertRec(RID(0, 0), a)),
     LogRecord(1, 1, ApplyDeleteRec(RID(0, 0), a)), LogRecord(1, 2, AbortRec),
     LogRecord(2, -1, BeginRec), LogRecord(2, 4, InsertRec(RID(0, 0), b)), LogRecord(2, 5, CommitRec)]
  }

  /** With an ABORT in the log recovery can lose a commit.  Transaction 1 inserts and aborts,
    * transaction 2 reuses the slot and commits; redo still counts 1 as a loser, and undoing its
    * already undone work removes the committed tuple and brings the aborted one back. */
  lemma {:induction false} AbortRecordLosesCommit(a: seq<byte>, b: seq<byte>)
    requires a != [] && b != [] && |a| + |b| <= 100
    ensures Run(PS, Events(a, b)).Some? && Run(PS, Events(a, b)).value.Next?
    ensures var s := Run(PS, Events(a, b)).value.state;
            s.log == LostCommitLog(a, b) && Replay(Serial(s.history), PS, R) == Tuple(b, false)
    ensures var log := LostCommitLog(a, b);
            var d := map[0 := DiskPage([], 0)];
            && RedoAll(d, log).Some? && PagesOf(RedoAll(d, log).value) == map[0 := [Tuple(b, false)]]
            && ActiveAfter(log) == map[1 := 3] && ChainsDown(log)
            && UndoChain(map[0 := [Tuple(b, false)]], log, 3) == Some(map[0 := [Empty, Tuple(a, false)]])
  {
    LostCommitRuns(a, b);
    LostCommitRecovers(a, b);
  }

  lemma LostCommitRuns(a: seq<byte>, b: seq<byte>)
    requires a != [] && b != [] && |a| + |b| <= 100
    ensures Run(PS, Events(a, b)).Some? && Run(PS, Events(a, b)).value.Next?
    ensures var s := Run(PS, Events(a, b)).value.state;
            s.log == LostCommitLog(a, b) && Replay(Serial(s.history), PS, R) == Tuple(b, false)
  {
    var ss := FirstHalf(a);
    var ts := SecondHalf(ss[5], FirstLog(a), b);
    LinkedConcat(FirstEvents(a), ss, SecondEvents(b), ts);
    StatesRun(PS, Events(a, b), ss + ts[1..], 10);
    assert Events(a, b)[..10] == Events(a, b);
    CommittedIsThere(Events(a, b), ts[5], a, b);
  }

  lemma CommittedIsThere(es: seq<Event>, s: State, a: seq<byte>, b: seq<byte>)
    requires Run(PS, es) == Some(Next(s)) && Finished(s, FirstLog(a), b)
    ensures s.log == LostCommitLog(a, b) && Replay(Serial(s.history), PS, R) == Tuple(b, false)
  {
    assert Used([]) == 0;
    CommittedRunsSerially(PS, es, R);
  }

  lemma RedoInsert(p: Page, lsn: int, k: nat, data: seq<byte>)
    requires (p == [] || p == [Empty]) && data != [] && |data| <= 100 && lsn < k
    ensures RedoRecord(map[0 := DiskPage(p, lsn)], k, InsertRec(R, data)) == Some(map[0 := DiskPage([Tuple(data, false)], k)])
  {
    assert [Empty][..0] == [];
    assert Used(p) == 0;
    assert InsertAnywhere(p, data) == [Tuple(data, false)];
    var d := map[0 := DiskPage(p, lsn)];
    assert d[0 := DiskPage([Tuple(data, false)], k)] == map[0 := DiskPage([Tuple(data, false)], k)];
  }

  lemma RedoDelete(data: seq<byte>, lsn: int, k: nat)
    requires lsn < k
    ensures RedoRecord(map[0 := DiskPage([Tuple(data, false)], lsn)], k, ApplyDeleteRec(R, data)) ==
            Some(map[0 := DiskPage([Empty], k)])
  {
    var d := map[0 := DiskPage([Tuple(data, false)], lsn)];
    assert Put([Tuple(data, false)], 0, Empty) == [Empty];
    assert d[0 := DiskPage([Empty], k)] == map[0 := DiskPage([Empty], k)];
  }

  lemma RedoOfLostCommit(a: seq<byte>, b: seq<byte>)
    requires a != [] && b != [] && |a| + |b| <= 100
    ensures RedoAll(map[0 := DiskPage([], 0)], LostCommitLog(a, b)) == Some(map[0 := DiskPage([Tuple(b, false)], 5)])
  {
    var log := LostCommitLog(a, b);
    var d, d1 := map[0 := DiskPage([], 0)], map[0 := DiskPage([Tuple(a, false)], 1)];
    var d2, d3 := map[0 := DiskPage([Empty], 2)], map[0 := DiskPage([Tuple(b, false)], 5)];
    RedoInsert([], 0, 1, a);
    RedoDelete(a, 1, 2);
    RedoInsert([Empty], 2, 5, b);
    DisksRedo(log, [d, d, d1, d2, d2, d2, d3, d3], 7);
    assert log[..7] == log;
  }

  /** What redo and undo make of that log and of the page as it was at the start. */
  lemma {:induction false} LostCommitRecovers(a: seq<byte>, b: seq<byte>)
    requires a != [] && b != [] && |a| + |b| <= 100
    ensures var log := LostCommitLog(a, b);
            var d := map[0 := DiskPage([], 0)];
            && RedoAll(d, log).Some? && PagesOf(RedoAll(d, log).value) == map[0 := [Tuple(b, false)]]
            && ActiveAfter(log) == map[1 := 3] && ChainsDown(log)
            && UndoChain(map[0 := [Tuple(b, false)]], log, 3) == Some(map[0 := [Empty, Tuple(a, false)]])
  {
    RedoOfLostCommit(a, b);
    assert PagesOf(map[0 := DiskPage([Tuple(b, false)], 5)]) == map[0 := [Tuple(b, false)]];
    ActiveOfLostCommit(a, b);
    UndoOfLostCommit(a, b);
  }

  lemma {:induction false} ActiveOfLostCommit(a: seq<byte>, b: seq<byte>)
    ensures ActiveAfter(LostCommitLog(a, b)) == map[1 := 3]
  {
    var log := LostCommitLog(a, b);
    assert log[..7] == log;
    assert ActiveAfter(log[..1]) == map[1 := 0] by { assert log[..1][..0] == []; }
    assert ActiveAfter(log[..2]) == map[1 := 1] by { assert log[..2][..1] == log[..1]; }
    assert ActiveAfter(log[..3]) == map[1 := 2] by { assert log[..3][..2] == log[..2]; }
    assert ActiveAfter(log[..4]) == map[1 := 3] by { assert log[..4][..3] == log[..3]; }
    assert ActiveAfter(log[..5]) == map[1 := 3, 2 := 4] by { assert log[..5][..4] == log[..4]; }
    assert ActiveAfter(log[..6]) == map[1 := 3, 2 := 5] by { assert log[..6][..5] == log[..5]; }
    assert ActiveAfter(log[..7]) == map[1 := 3] by { assert log[..7][..6] == log[..6]; }
  }

  lemma {:induction false} UndoOfLostCommit(a: seq<byte>, b: seq<byte>)
    requires a != [] && b != [] && |a| + |b| <= 100
    ensures ChainsDown(LostCommitLog(a, b))
    ensures UndoChain(map[0 := [Tuple(b, false)]], LostCommitLog(a, b), 3) == Some(map[0 := [Empty, Tuple(a, false)]])
  {
    var log := LostCommitLog(a, b);
    var p := [Tuple(b, false)];
    assert Used(p) == |b| by { assert p[..0] == []; }
    var p1 := p + [Tuple(a, false)];
    assert InsertAnywhere(p, a) == p1;
    var ps, ps1, ps2 := map[0 := p], map[0 := p1], map[0 := [Empty, Tuple(a, false)]];
    assert UndoRecord(ps, log[2].body) == Some(ps1) by { assert ps[0 := p1] == ps1; }
    assert UndoRecord(ps1, log[1].body) == Some(ps2) by {
      assert Put(p1, 0, Empty) == [Empty, Tuple(a, false)];
      assert ps1[0 := [Empty, Tuple(a, false)]] == ps2;
    }
    assert UndoChain(ps2, log, -1) == Some(ps2);
    assert UndoChain(ps2, log, 0) == Some(ps2);
    assert UndoChain(ps1, log, 1) == Some(ps2);
    assert UndoChain(ps, log, 2) == Some(ps2);
  }

  // ---- the condition is not necessary ----

  /** Without a second transaction the same abort does no harm: what undo puts back it takes away
    * again.  So an applied delete of a loser may or may not spoil recovery. */
  lemma {:induction false} AbortMayRecover(a: seq<byte>)
    requires a != [] && |a| <= 100
    ensures Run(PS, FirstEvents(a)).Some? && Run(PS, FirstEvents(a)).value.Next?
    ensures var s := Run(PS, FirstEvents(a)).value.state;
            s.log == FirstLog(a) && Replay(Serial(s.history), PS, R) == Empty
    ensures var log := FirstLog(a);
            && RedoAll(map[0 := DiskPage([], 0)], log) == Some(map[0 := DiskPage([Empty], 2)])
            && ActiveAfter(log) == map[1 := 3] && ChainsDown(log) && !LosersAppliedNothing(log)
            && UndoChain(map[0 := [Empty]], log, 3) == Some(map[0 := [Empty]])
  {
    AbortRuns(a);
    AbortRedone(FirstLog(a), a);
    AbortStaysActive(FirstLog(a), a);
    assert FirstLog(a)[2].body.ApplyDeleteRec? && FirstLog(a)[2].txn == 1;
    AbortUndone(FirstLog(a), a);
  }

  lemma AbortRuns(a: seq<byte>)
    requires a != [] && |a| <= 100
    ensures Run(PS, FirstEvents(a)).Some? && Run(PS, FirstEvents(a)).value.Next?
    ensures var s := Run(PS, FirstEvents(a)).value.state;
            s.log == FirstLog(a) && Replay(Serial(s.history), PS, R) == Empty
  {
    var es := FirstEvents(a);
    var ss := FirstHalf(a);
    StatesRun(PS, es, ss, 5);
    assert es[..5] == es;
    assert Used([]) == 0;
    CommittedRunsSerially(PS, es, R);
  }

  lemma AbortRedone(log: seq<LogRecord>, a: seq<byte>)
    requires log == FirstLog(a) && a != [] && |a| <= 100
    ensures RedoAll(map[0 := DiskPage([], 0)], log) == Some(map[0 := DiskPage([Empty], 2)])
  {
    var d, d1, d2 := map[0 := DiskPage([], 0)], map[0 := DiskPage([Tuple(a, false)], 1)], map[0 := DiskPage([Empty], 2)];
    RedoInsert([], 0, 1, a);
    RedoDelete(a, 1, 2);
    DisksRedo(log, [d, d, d1, d2, d2], 4);
    assert log[..4] == log;
  }

  lemma AbortStaysActive(log: seq<LogRecord>, a: seq<byte>)
    requires log == FirstLog(a)
    ensures ActiveAfter(log) == map[1 := 3]
  {
    assert log[..4] == log;
    assert ActiveAfter(log[..1]) == map[1 := 0] by { assert log[..1][..0] == []; }
    assert ActiveAfter(log[..2]) == map[1 := 1] by { assert log[..2][..1] == log[..1]; }
    assert ActiveAfter(log[..3]) == map[1 := 2] by { assert log[..3][..2] == log[..2]; }
    assert ActiveAfter(log[..4]) == map[1 := 3] by { assert log[..4][..3] == log[..3]; }
  }

  lemma AbortUndone(log: seq<LogRecord>, a: seq<byte>)
    requires log == FirstLog(a) && a != [] && |a| <= 100
    ensures ChainsDown(log) && UndoChain(map[0 := [Empty]], log, 3) == Some(map[0 := [Empty]])
  {
    var ps, ps1 := map[0 := [Empty]], map[0 := [Tuple(a, false)]];
    assert UndoRecord(ps, log[2].body) == Some(ps1) by {
      assert [Empty][..0] == [];
      assert Used([Empty]) == 0;
      assert InsertAnywhere([Empty], a) == [Tuple(a, false)];
      assert ps[0 := [Tuple(a, false)]] == ps1;
    }
    assert UndoRecord(ps1, log[1].body) == Some(ps) by {
      assert Put([Tuple(a, false)], 0, Empty) == [Empty];
      assert ps1[0 := [Empty]] == ps;
    }
    assert UndoChain(ps, log, -1) == Some(ps);
    assert UndoChain(ps, log, 0) == Some(ps);
    assert UndoChain(ps1, log, 1) == Some(ps);
    assert UndoChain(ps, log, 2) == Some(ps);
  }
}
