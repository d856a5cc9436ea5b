/** A run that crashes between the physical deletes of a commit and its COMMIT record: undo brings
  * both tuples back, each under the other's RID, although nothing aborted. */
module SwappedTuples {
  import opened Wrappers
  import opened Bytes
  import opened SlottedPage
  import opened LockTable
  import opened Transactions
  import opened TransactionSafety
  import opened Serializability
  import opened Recovery
  import opened RecoveryTheorem
  import opened RecoveryOutcome
  import opened RunStates

  const R0 := RID(0, 0)
  const R1 := RID(0, 1)

  function TwoTuples(p: Slot, q: Slot): Pages { map[0 := [p, q]] }

  /** Transaction 1 marks both tuples and has applied both deletes when the crash comes. */
  function Events(): seq<Event> {
    [Begin(1), MarkDelete(1, R1), MarkDelete(1, R0), StartCommit(1), CommitStep(1)] + [CommitStep(1)]
  }

  function Log(a: seq<byte>, b: seq<byte>): seq<LogRecord> {
    MarkLog() + [LogRecord(1, 2, ApplyDeleteRec(R0, a))] + [LogRecord(1, 3, ApplyDeleteRec(R1, b))]
  }

  predicate Short(a: seq<byte>, b: seq<byte>) { a != [] && b != [] && |a| <= 100 && |b| <= 100 }

  // ---- the run ----

  function Marker(phase: Phase, locks: seq<RID>, writes: seq<WriteRecord>, before: map<RID, Slot>, lsn: int): Txn {
    Txn(phase, Held([], locks), writes, None, before, lsn)
  }

  /** The state but for its history; transaction 1 is alone and has locked what it changed. */
  ghost predicate Is(s: State, p: Slot, q: Slot, exclusive: map<RID, TxnId>, x: Txn, log: seq<LogRecord>) {
    s.pages == TwoTuples(p, q) && s.tables == Tables(map[], exclusive) && s.txns == map[1 := x] && s.log == log
  }

  lemma BeginStep(a: seq<byte>, b: seq<byte>) returns (s: State)
    ensures Leads(Initial(TwoTuples(Tuple(a, false), Tuple(b, false))), Begin(1), s)
    ensures Is(s, Tuple(a, false), Tuple(b, false), map[], Marker(Growing, [], [], map[], 0), [] + [LogRecord(1, -1, BeginRec)])
  {
    s := DoBegin(Initial(TwoTuples(Tuple(a, false), Tuple(b, false))), 1);
    assert s.txns == map[1 := Marker(Growing, [], [], map[], 0)];
  }

  lemma MarkSecond(s: State, log: seq<LogRecord>, a: seq<byte>, b: seq<byte>) returns (s': State)
    requires |log| == 1 && Is(s, Tuple(a, false), Tuple(b, false), map[], Marker(Growing, [], [], map[], 0), log)
    ensures Leads(s, MarkDelete(1, R1), s')
    ensures Is(s', Tuple(a, false), Tuple(b, true), map[R1 := 1],
               Marker(Growing, [R1], [DeleteW(R1, b)], map[R1 := Tuple(b, false)], 1), log + [LogRecord(1, 0, MarkDeleteRec(R1))])
  {
    var g := GrantWrite(s.tables, s.txns[1].held, 1, R1);
    assert g == Grant(true, Tables(map[], map[R1 := 1]), Held([], [R1]));
    var y := Saw(WithGrant(s, 1, R1, g), 1, R1).txns[1];
    assert y == Marker(Growing, [R1], [], map[R1 := Tuple(b, false)], 0);
    assert Record(y, DeleteW(R1, b)).writes == [DeleteW(R1, b)];
    s' := DoMarkDelete(s, 1, R1);
    assert Put([Tuple(a, false), Tuple(b, false)], 1, Tuple(b, true)) == [Tuple(a, false), Tuple(b, true)];
    assert s.pages[0 := [Tuple(a, false), Tuple(b, true)]] == TwoTuples(Tuple(a, false), Tuple(b, true));
    var x := Marker(Growing, [R1], [DeleteW(R1, b)], map[R1 := Tuple(b, false)], 1);
    assert s.txns[1 := x] == map[1 := x];
  }

  const BOTH: map<RID, TxnId> := map[R1 := 1, R0 := 1]

  function Found(a: seq<byte>, b: seq<byte>): map<RID, Slot> { map[R1 := Tuple(b, false), R0 := Tuple(a, false)] }

  lemma MarkFirst(s: State, log: seq<LogRecord>, a: seq<byte>, b: seq<byte>) returns (s': State)
    requires |log| == 2
    requires Is(s, Tuple(a, false), Tuple(b, true), map[R1 := 1],
                Marker(Growing, [R1], [DeleteW(R1, b)], map[R1 := Tuple(b, false)], 1), log)
    ensures Leads(s, MarkDelete(1, R0), s')
    ensures Is(s', Tuple(a, true), Tuple(b, true), BOTH,
               Marker(Growing, [R1, R0], [DeleteW(R1, b), DeleteW(R0, a)], Found(a, b), 2), log + [LogRecord(1, 1, MarkDeleteRec(R0))])
  {
    var g := GrantWrite(s.tables, s.txns[1].held, 1, R0);
    assert g == Grant(true, Tables(map[], BOTH), Held([], [R1, R0]));
    var y := Saw(WithGrant(s, 1, R0, g), 1, R0).txns[1];
    assert y.before == Found(a, b);
    assert y == Marker(Growing, [R1, R0], [DeleteW(R1, b)], Found(a, b), 1);
    assert Record(y, DeleteW(R0, a)).writes == [DeleteW(R1, b), DeleteW(R0, a)];
    s' := DoMarkDelete(s, 1, R0);
    assert Put([Tuple(a, false), Tuple(b, true)], 0, Tuple(a, true)) == [Tuple(a, true), Tuple(b, true)];
    assert s.pages[0 := [Tuple(a, true), Tuple(b, true)]] == TwoTuples(Tuple(a, true), Tuple(b, true));
    var x := Marker(Growing, [R1, R0], [DeleteW(R1, b), DeleteW(R0, a)], Found(a, b), 2);
    assert s.txns[1 := x] == map[1 := x];
  }

  lemma StartEnd(s: State, log: seq<LogRecord>, a: seq<byte>, b: seq<byte>) returns (s': State)
    requires Is(s, Tuple(a, true), Tuple(b, true), BOTH,
                Marker(Growing, [R1, R0], [DeleteW(R1, b), DeleteW(R0, a)], Found(a, b), 2), log)
    ensures Leads(s, StartCommit(1), s')
    ensures Is(s', Tuple(a, true), Tuple(b, true), BOTH,
               Marker(Committing, [R1, R0], [DeleteW(R1, b), DeleteW(R0, a)], Found(a, b), 2), log)
  {
    s' := WithPhase(s, 1, Committing);
    assert s'.txns == map[1 := Marker(Committing, [R1, R0], [DeleteW(R1, b), DeleteW(R0, a)], Found(a, b), 2)];
  }

  lemma DeleteFirst(s: State, log: seq<LogRecord>, a: seq<byte>, b: seq<byte>) returns (s': State)
    requires |log| == 3
    requires Is(s, Tuple(a, true), Tuple(b, true), BOTH,
                Marker(Committing, [R1, R0], [DeleteW(R1, b), DeleteW(R0, a)], Found(a, b), 2), log)
    ensures Leads(s, CommitStep(1), s')
    ensures Is(s', Empty, Tuple(b, true), BOTH, Marker(Committing, [R1, R0], [DeleteW(R1, b)], Found(a, b), 3),
               log + [LogRecord(1, 2, ApplyDeleteRec(R0, a))])
  {
    s' := DoCommitStep(s, 1).state;
    assert Put([Tuple(a, true), Tuple(b, true)], 0, Empty) == [Empty, Tuple(b, true)];
    assert s.pages[0 := [Empty, Tuple(b, true)]] == TwoTuples(Empty, Tuple(b, true));
    assert Popped(s.txns[1]).writes == [DeleteW(R1, b)];
    var x := Marker(Committing, [R1, R0], [DeleteW(R1, b)], Found(a, b), 3);
    assert s.txns[1 := x] == map[1 := x];
  }

  lemma DeleteSecond(s: State, log: seq<LogRecord>, a: seq<byte>, b: seq<byte>) returns (s': State)
    requires |log| == 4
    requires Is(s, Empty, Tuple(b, true), BOTH, Marker(Committing, [R1, R0], [DeleteW(R1, b)], Found(a, b), 3), log)
    ensures Leads(s, CommitStep(1), s')
    ensures Is(s', Empty, Empty, BOTH, Marker(Committing, [R1, R0], [], Found(a, b), 4),
               log + [LogRecord(1, 3, ApplyDeleteRec(R1, b))])
  {
    s' := DoCommitStep(s, 1).state;
    assert Put([Empty, Tuple(b, true)], 1, Empty) == [Empty, Empty];
    assert s.pages[0 := [Empty, Empty]] == TwoTuples(Empty, Empty);
    assert Popped(s.txns[1]).writes == [];
    var x := Marker(Committing, [R1, R0], [], Found(a, b), 4);
    assert s.txns[1 := x] == map[1 := x];
  }

  lemma StatesOf(a: seq<byte>, b: seq<byte>) returns (ss: seq<State>)
    ensures Linked(Events(), ss) && ss[0] == Initial(TwoTuples(Tuple(a, false), Tuple(b, false)))
    ensures Is(ss[6], Empty, Empty, BOTH, Marker(Committing, [R1, R0], [], Found(a, b), 4), Log(a, b))
  {
    var s0 := Initial(TwoTuples(Tuple(a, false), Tuple(b, false)));
    var s1, s2, s3, s4 := MarkBoth(a, b);
    var s5, s6 := DeleteBoth(s4, s4.log, a, b);
    ss := LinkSix(s0, Begin(1), s1, MarkDelete(1, R1), s2, MarkDelete(1, R0), s3, StartCommit(1), s4, CommitStep(1), s5,
                  CommitStep(1), s6);
  }

  function MarkLog(): seq<LogRecord> {
    [] + [LogRecord(1, -1, BeginRec)] + [LogRecord(1, 0, MarkDeleteRec(R1))] + [LogRecord(1, 1, MarkDeleteRec(R0))]
  }

  lemma MarkBoth(a: seq<byte>, b: seq<byte>) returns (s1: State, s2: State, s3: State, s4: State)
    ensures Leads(Initial(TwoTuples(Tuple(a, false), Tuple(b, false))), Begin(1), s1)
    ensures Leads(s1, MarkDelete(1, R1), s2) && Leads(s2, MarkDelete(1, R0), s3) && Leads(s3, StartCommit(1), s4)
    ensures Is(s4, Tuple(a, true), Tuple(b, true), BOTH,
               Marker(Committing, [R1, R0], [DeleteW(R1, b), DeleteW(R0, a)], Found(a, b), 2), MarkLog())
  {
    s1 := BeginStep(a, b);
    s2 := MarkSecond(s1, s1.log, a, b);
    s3 := MarkFirst(s2, s2.log, a, b);
    s4 := StartEnd(s3, s3.log, a, b);
  }

  lemma DeleteBoth(s4: State, log: seq<LogRecord>, a: seq<byte>, b: seq<byte>) returns (s5: State, s6: State)
    requires |log| == 3
    requires Is(s4, Tuple(a, true), Tuple(b, true), BOTH,
                Marker(Committing, [R1, R0], [DeleteW(R1, b), DeleteW(R0, a)], Found(a, b), 2), log)
    ensures Leads(s4, CommitStep(1), s5) && Leads(s5, CommitStep(1), s6)
    ensures Is(s6, Empty, Empty, BOTH, Marker(Committing, [R1, R0], [], Found(a, b), 4),
               log + [LogRecord(1, 2, ApplyDeleteRec(R0, a))] + [LogRecord(1, 3, ApplyDeleteRec(R1, b))])
  {
    s5 := DeleteFirst(s4, log, a, b);
    s6 := DeleteSecond(s5, s5.log, a, b);
  }

  lemma DeletesRun(a: seq<byte>, b: seq<byte>)
    requires Short(a, b)
    ensures var ps := TwoTuples(Tuple(a, false), Tuple(b, false));
            && Run(ps, Events()).Some? && Run(ps, Events()).value.Next?
            && var s := Run(ps, Events()).value.state;
               && s.log == Log(a, b) && s.pages == TwoTuples(Empty, Empty)
               && Replay(Serial(s.history), ps, R0) == Tuple(a, false) && Replay(Serial(s.history), ps, R1) == Tuple(b, false)
  {
    var ps := TwoTuples(Tuple(a, false), Tuple(b, false));
    var ss := StatesOf(a, b);
    StatesRun(ps, Events(), ss, 6);
    assert Events()[..6] == Events();
    UsedOfTwo(Tuple(a, false), Tuple(b, false));
    CommittedRunsSerially(ps, Events(), R0);
    CommittedRunsSerially(ps, Events(), R1);
  }

  lemma UsedOfTwo(p: Slot, q: Slot)
    ensures Used([p, q]) == Size(p) + Size(q)
  {
    assert [p, q][..1] == [p] && [p][..0] == [];
    assert Used([p]) == Size(p);
  }

  // ---- what recovery makes of it ----

  lemma RedoStep(p: Slot, q: Slot, p': Slot, q': Slot, lsn: int, k: nat, body: LogBody)
    requires lsn < k && RidOf(body).Some? && RidOf(body).value.page == 0 && RedoOn([p, q], body) == Some([p', q'])
    ensures RedoRecord(map[0 := DiskPage([p, q], lsn)], k, body) == Some(map[0 := DiskPage([p', q'], k)])
  {
    var d := map[0 := DiskPage([p, q], lsn)];
    assert d[0 := DiskPage([p', q'], k)] == map[0 := DiskPage([p', q'], k)];
  }

  lemma DeletesRedone(a: seq<byte>, b: seq<byte>)
    ensures RedoAll(map[0 := DiskPage([Tuple(a, false), Tuple(b, false)], 0)], Log(a, b)) == Some(map[0 := DiskPage([Empty, Empty], 4)])
  {
    var log := Log(a, b);
    var d0, d1 := map[0 := DiskPage([Tuple(a, false), Tuple(b, false)], 0)], map[0 := DiskPage([Tuple(a, false), Tuple(b, true)], 1)];
    var d2, d3 := map[0 := DiskPage([Tuple(a, true), Tuple(b, true)], 2)], map[0 := DiskPage([Empty, Tuple(b, true)], 3)];
    RedoOfFour(a, b);
    RedoStep(Tuple(a, false), Tuple(b, false), Tuple(a, false), Tuple(b, true), 0, 1, MarkDeleteRec(R1));
    RedoStep(Tuple(a, false), Tuple(b, true), Tuple(a, true), Tuple(b, true), 1, 2, MarkDeleteRec(R0));
    RedoStep(Tuple(a, true), Tuple(b, true), Empty, Tuple(b, true), 2, 3, ApplyDeleteRec(R0, a));
    RedoStep(Empty, Tuple(b, true), Empty, Empty, 3, 4, ApplyDeleteRec(R1, b));
    DisksRedo(log, [d0, d0, d1, d2, d3, map[0 := DiskPage([Empty, Empty], 4)]], 5);
    assert log[..5] == log;
  }

  lemma RedoOfFour(a: seq<byte>, b: seq<byte>)
    ensures RedoOn([Tuple(a, false), Tuple(b, false)], MarkDeleteRec(R1)) == Some([Tuple(a, false), Tuple(b, true)])
    ensures RedoOn([Tuple(a, false), Tuple(b, true)], MarkDeleteRec(R0)) == Some([Tuple(a, true), Tuple(b, true)])
    ensures RedoOn([Tuple(a, true), Tuple(b, true)], ApplyDeleteRec(R0, a)) == Some([Empty, Tuple(b, true)])
    ensures RedoOn([Empty, Tuple(b, true)], ApplyDeleteRec(R1, b)) == Some([Empty, Empty])
  {
    assert Put([Tuple(a, false), Tuple(b, false)], 1, Tuple(b, true)) == [Tuple(a, false), Tuple(b, true)];
    assert Put([Tuple(a, false), Tuple(b, true)], 0, Tuple(a, true)) == [Tuple(a, true), Tuple(b, true)];
    assert Put([Tuple(a, true), Tuple(b, true)], 0, Empty) == [Empty, Tuple(b, true)];
    assert Put([Empty, Tuple(b, true)], 1, Empty) == [Empty, Empty];
  }

  lemma DeletesActive(a: seq<byte>, b: seq<byte>)
    ensures ActiveAfter(Log(a, b)) == map[1 := 4]
  {
    var log := Log(a, b);
    assert log[..5] == log;
    assert ActiveAfter(log[..1]) == map[1 := 0] by { assert log[..1][..0] == []; }
    assert ActiveAfter(log[..2]) == map[1 := 1] by { assert log[..2][..1] == log[..1]; }
    assert ActiveAfter(log[..3]) == map[1 := 2] by { assert log[..3][..2] == log[..2]; }
    assert ActiveAfter(log[..4]) == map[1 := 3] by { assert log[..4][..3] == log[..3]; }
    assert ActiveAfter(log[..5]) == map[1 := 4] by { assert log[..5][..4] == log[..4]; }
  }

  /** The second tuple is put back first, into the first empty slot. */
  lemma DeletesUndone(a: seq<byte>, b: seq<byte>)
    requires Short(a, b)
    ensures ChainsDown(Log(a, b))
    ensures UndoChain(TwoTuples(Empty, Empty), Log(a, b), 4) == Some(TwoTuples(Tuple(b, false), Tuple(a, false)))
  {
    var log := Log(a, b);
    var p0, p1, p2 := TwoTuples(Empty, Empty), TwoTuples(Tuple(b, false), Empty), TwoTuples(Tuple(b, false), Tuple(a, false));
    UsedOfTwo(Empty, Empty);
    UsedOfTwo(Tuple(b, false), Empty);
    assert UndoRecord(p0, log[4].body) == Some(p1) by {
      assert InsertAnywhere([Empty, Empty], b) == [Tuple(b, false), Empty];
      assert p0[0 := [Tuple(b, false), Empty]] == p1;
    }
    assert UndoRecord(p1, log[3].body) == Some(p2) by {
      assert InsertAnywhere([Tuple(b, false), Empty], a) == [Tuple(b, false), Tuple(a, false)];
      assert p1[0 := [Tuple(b, false), Tuple(a, false)]] == p2;
    }
    UnmarkedStays(a, b);
    assert UndoChain(p2, log, -1) == Some(p2);
    assert UndoChain(p2, log, 0) == Some(p2);
    assert UndoChain(p2, log, 1) == Some(p2);
    assert UndoChain(p2, log, 2) == Some(p2);
    assert UndoChain(p1, log, 3) == Some(p2);
  }

  lemma UnmarkedStays(a: seq<byte>, b: seq<byte>)
    ensures var ps := TwoTuples(Tuple(b, false), Tuple(a, false));
            UndoRecord(ps, MarkDeleteRec(R0)) == Some(ps) && UndoRecord(ps, MarkDeleteRec(R1)) == Some(ps)
  {
    var p := [Tuple(b, false), Tuple(a, false)];
    assert Put(p, 0, Tuple(b, false)) == p && Put(p, 1, Tuple(a, false)) == p;
    assert TwoTuples(p[0], p[1])[0 := p] == TwoTuples(p[0], p[1]);
  }

  /** Nothing aborted, nothing was written twice, redo repeats history; but the loser had applied
    * its deletes, and undo leaves the two tuples swapped. */
  lemma DeletedTuplesAreSwapped(a: seq<byte>, b: seq<byte>)
    requires Short(a, b)
    ensures var ps := TwoTuples(Tuple(a, false), Tuple(b, false));
            && Run(ps, Events()).Some? && Run(ps, Events()).value.Next?
            && var s := Run(ps, Events()).value.state;
               && s.log == Log(a, b) && NeverShrinks(s.log) && Unfollowed(s.log) && !LosersAppliedNothing(s.log)
               && Replay(Serial(s.history), ps, R0) == Tuple(a, false) && Replay(Serial(s.history), ps, R1) == Tuple(b, false)
               && RedoAll(map[0 := DiskPage([Tuple(a, false), Tuple(b, false)], 0)], s.log) == Some(map[0 := DiskPage([Empty, Empty], 4)])
               && s.pages == TwoTuples(Empty, Empty) && ActiveAfter(s.log) == map[1 := 4] && ChainsDown(s.log)
               && UndoChain(TwoTuples(Empty, Empty), s.log, 4) == Some(TwoTuples(Tuple(b, false), Tuple(a, false)))
  {
    DeletesRun(a, b);
    DeletesRedone(a, b);
    DeletesActive(a, b);
    DeletesUndone(a, b);
    OnlyDeletesApplied(a, b);
  }

  lemma OnlyDeletesApplied(a: seq<byte>, b: seq<byte>)
    ensures var log := Log(a, b); NeverShrinks(log) && Unfollowed(log) && !LosersAppliedNothing(log)
  {
    var log := Log(a, b);
    DeletesActive(a, b);
    assert log[3].body.ApplyDeleteRec? && log[3].txn in ActiveAfter(log);
  }
}
