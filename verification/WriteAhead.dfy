/** What reaches the disk while transactions run: log flushes, evicted pages, flushed pages.
  * The write-ahead rule on page LSNs is what makes every crash leave an image that redo can
  * start from. */
module WriteAhead {
  import opened Wrappers
  import opened Bytes
  import opened SlottedPage
  import opened LockTable
  import opened Transactions
  import opened TransactionSafety
  import opened Serializability
  import opened Precedence
  import opened Recovery
  import opened RecoveryTheorem
  import opened RecoveryOutcome
  import opened LogFile
  import LostCommit

  /** Transactions in memory, pages on disk, and the length of the log file. */
  datatype Machine = Machine(s: State, disk: Disk, durable: nat)

  datatype IoEvent =
    | Act(e: Event)
    | FlushLog
    | Evict(id: PageId)
    | FlushPage(id: PageId)

  /** The page as the buffer pool holds it: its header carries the LSN of its last change. */
  function InMemory(m: Machine, id: PageId): DiskPage
    requires id in m.s.pages
  {
    DiskPage(m.s.pages[id], LsnAfter(id, m.s.log))
  }

  /** The transaction has a page operation in the log. */
  predicate HasChanged(log: seq<LogRecord>, t: TxnId) {
    exists i :: 0 <= i < |log| && log[i].txn == t && PageOf(log[i].body).Some?
  }

  /** A commit that is not read-only flushes the log between its record and the release of its locks. */
  predicate FlushedFirst(m: Machine, e: Event) {
    e.ReleaseLocks? && e.t in m.s.txns && m.s.txns[e.t].phase == Committed && HasChanged(m.s.log, e.t) ==>
      m.s.txns[e.t].prevLsn < m.durable
  }

  predicate IoEnabled(m: Machine, io: IoEvent) {
    match io
    case Act(e) => Enabled(m.s, e) && Step(m.s, e).Next? && FlushedFirst(m, e)
    case FlushLog => true
    case Evict(id) => id in m.s.pages
    case FlushPage(id) => id in m.s.pages
  }

  /** An eviction flushes the log before it writes; flushing a page does not. */
  function IoStep(m: Machine, io: IoEvent): Machine
    requires IoEnabled(m, io)
  {
    match io
    case Act(e) => m.(s := Step(m.s, e).state)
    case FlushLog => m.(durable := |m.s.log|)
    case Evict(id) => m.(durable := |m.s.log|, disk := m.disk[id := InMemory(m, id)])
    case FlushPage(id) => m.(disk := m.disk[id := InMemory(m, id)])
  }

  function Start(ps: Pages): Machine {
    Machine(Initial(ps), map id | id in ps :: DiskPage(ps[id], 0), 0)
  }

  function IoRun(ps: Pages, ios: seq<IoEvent>): Option<Machine> {
    if ios == [] then Some(Start(ps))
    else
      var n := |ios| - 1;
      match IoRun(ps, ios[..n])
      case None => None
      case Some(m) => if IoEnabled(m, ios[n]) then Some(IoStep(m, ios[n])) else None
  }

  /** The transactions' own events of a run. */
  function Acts(ios: seq<IoEvent>): seq<Event> {
    if ios == [] then []
    else
      var n := |ios| - 1;
      Acts(ios[..n]) + if ios[n].Act? then [ios[n].e] else []
  }

  lemma {:induction false} ActsRun(ps: Pages, ios: seq<IoEvent>)
    requires IoRun(ps, ios).Some?
    ensures Run(ps, Acts(ios)) == Some(Next(IoRun(ps, ios).value.s))
  {
    if ios != [] {
      var n := |ios| - 1;
      ActsRun(ps, ios[..n]);
      if ios[n].Act? {
        assert Acts(ios)[..|Acts(ios)| - 1] == Acts(ios[..n]);
      } else {
        assert Acts(ios) == Acts(ios[..n]);
      }
    }
  }

  // ---- the rule ----

  /** No page on disk carries the LSN of a record that is not in the log file. */
  ghost predicate WriteAheadRule(m: Machine) {
    forall id :: id in m.disk ==> Covered(m.disk[id].lsn, m.durable)
  }

  /** Every page on disk is some version of itself, with that version's LSN. */
  ghost predicate OldVersions(ps: Pages, m: Machine) {
    && m.disk.Keys == ps.Keys && m.s.pages.Keys == ps.Keys && m.durable <= |m.s.log|
    && forall id :: id in ps ==> Version(m.disk[id], ps[id], id, m.s.log)
  }

  lemma VersionOfLonger(dp: DiskPage, p: Page, id: PageId, log: seq<LogRecord>, log': seq<LogRecord>)
    requires Version(dp, p, id, log) && |log| <= |log'| && log'[..|log|] == log
    ensures Version(dp, p, id, log')
  {
    var k :| 0 <= k <= |log| && PageAfter(p, id, log[..k]) == Some(dp.page) && dp.lsn == LsnAfter(id, log[..k]);
    assert log'[..k] == log[..k];
  }

  /** Records that do not touch the page change neither it nor its LSN. */
  lemma {:induction false} QuietStretch(p: Page, id: PageId, log: seq<LogRecord>, n: nat, k: nat)
    requires n <= k <= |log| && forall j :: n <= j < k ==> PageOf(log[j].body) != Some(id)
    ensures PageAfter(p, id, log[..k]) == PageAfter(p, id, log[..n]) && LsnAfter(id, log[..k]) == LsnAfter(id, log[..n])
    decreases k
  {
    if n < k {
      assert log[..k][..k - 1] == log[..k - 1];
      QuietStretch(p, id, log, n, k - 1);
    }
  }

  /** A version whose LSN the log file covers is a version the log file leads to. */
  lemma {:induction false} CoveredVersion(dp: DiskPage, p: Page, id: PageId, log: seq<LogRecord>, n: nat)
    requires n <= |log| && StartsWithBegin(log) && Version(dp, p, id, log)
    ensures Version(dp, p, id, log[..n]) <==> Covered(dp.lsn, n)
  {
    if Version(dp, p, id, log[..n]) {
      var k :| 0 <= k <= n && PageAfter(p, id, log[..n][..k]) == Some(dp.page) && dp.lsn == LsnAfter(id, log[..n][..k]);
    }
    if Covered(dp.lsn, n) {
      var k :| 0 <= k <= |log| && PageAfter(p, id, log[..k]) == Some(dp.page) && dp.lsn == LsnAfter(id, log[..k]);
      if k <= n {
        assert log[..n][..k] == log[..k];
      } else {
        forall j | n <= j < k ensures PageOf(log[j].body) != Some(id) {
          if PageOf(log[j].body) == Some(id) { LsnAfterCovers(id, log[..k], j); }
        }
        QuietStretch(p, id, log, n, k);
        assert log[..n][..n] == log[..n];
      }
    }
  }

  /** A crash leaves an image the log file can repair exactly when the rule holds. */
  lemma RuleIsCrashImage(ps: Pages, m: Machine)
    requires OldVersions(ps, m) && StartsWithBegin(m.s.log)
    ensures CrashImage(m.disk, ps, m.s.log[..m.durable]) <==> WriteAheadRule(m)
  {
    forall id | id in ps
      ensures Version(m.disk[id], ps[id], id, m.s.log[..m.durable]) <==> Covered(m.disk[id].lsn, m.durable)
    {
      CoveredVersion(m.disk[id], ps[id], id, m.s.log, m.durable);
    }
  }

  // ---- what the events do to it ----

  /** The only write that can break the rule is that of a page flushed ahead of the log. */
  predicate InOrder(m: Machine, io: IoEvent) {
    io.FlushPage? && io.id in m.s.pages ==> Covered(LsnAfter(io.id, m.s.log), m.durable)
  }

  /** A flushed page keeps the rule if and only if its last change is in the log file. */
  lemma FlushPageRule(m: Machine, id: PageId)
    requires WriteAheadRule(m) && id in m.s.pages
    ensures WriteAheadRule(IoStep(m, FlushPage(id))) <==> InOrder(m, FlushPage(id))
  {
    var m' := IoStep(m, FlushPage(id));
    assert m'.disk[id].lsn == LsnAfter(id, m.s.log);
  }

  /** An evicted page is on disk as it was in memory, and the log file covers it; the other pages on
    * disk stay as they are. */
  lemma EvictedIsCurrent(m: Machine, id: PageId)
    requires id in m.s.pages
    ensures IoEnabled(m, Evict(id))
    ensures var m' := IoStep(m, Evict(id));
            && id in m'.disk && m'.disk[id].page == m.s.pages[id] && Covered(m'.disk[id].lsn, m'.durable)
            && m'.s == m.s && forall k :: k in m.disk && k != id ==> k in m'.disk && m'.disk[k] == m.disk[k]
  {
    LsnIsCovered(id, m.s.log);
  }

  lemma {:induction false} LsnIsCovered(id: PageId, log: seq<LogRecord>)
    ensures Covered(LsnAfter(id, log), |log|)
  {
    if log != [] { LsnIsCovered(id, log[..|log| - 1]); }
  }

  ghost predicate Sound(ps: Pages, m: Machine) {
    Safe(m.s) && LogOk(ps, m.s) && OldVersions(ps, m)
  }

  lemma {:induction false} ActKeepsSound(ps: Pages, m: Machine, e: Event)
    requires Sound(ps, m) && IoEnabled(m, Act(e)) && NeverShrinks(Step(m.s, e).state.log)
    ensures Sound(ps, IoStep(m, Act(e)))
    ensures WriteAheadRule(m) ==> WriteAheadRule(IoStep(m, Act(e)))
  {
    var m' := IoStep(m, Act(e));
    StepKeepsSafe(m.s, e);
    EventKeepsLogOk(ps, m.s, e);
    StepGrowsLog(m.s, e);
    forall id | id in ps ensures Version(m'.disk[id], ps[id], id, m'.s.log) {
      VersionOfLonger(m.disk[id], ps[id], id, m.s.log, m'.s.log);
    }
  }

  lemma {:induction false} WriteKeepsVersions(ps: Pages, m: Machine, io: IoEvent)
    requires LogOk(ps, m.s) && OldVersions(ps, m) && !io.Act? && IoEnabled(m, io)
    ensures OldVersions(ps, IoStep(m, io))
  {
    if !io.FlushLog? { InMemoryIsVersion(ps, m, io.id); }
    KeptOrCurrent(ps, m, io);
  }

  lemma KeptOrCurrent(ps: Pages, m: Machine, io: IoEvent)
    requires OldVersions(ps, m) && !io.Act? && IoEnabled(m, io)
    requires !io.FlushLog? ==> Version(InMemory(m, io.id), ps[io.id], io.id, m.s.log)
    ensures OldVersions(ps, IoStep(m, io))
  {
    var m' := IoStep(m, io);
    if io.FlushLog? {
      assert m'.disk == m.disk;
    } else {
      var dp := InMemory(m, io.id);
      assert m'.disk == m.disk[io.id := dp];
      forall id | id in ps ensures Version(m.disk[io.id := dp][id], ps[id], id, m.s.log) {
        if id != io.id { assert Version(m.disk[id], ps[id], id, m.s.log); }
      }
    }
  }

  lemma WriteKeepsRule(m: Machine, io: IoEvent)
    requires WriteAheadRule(m) && m.durable <= |m.s.log| && !io.Act? && IoEnabled(m, io) && InOrder(m, io)
    ensures WriteAheadRule(IoStep(m, io))
  {
    if io.FlushPage? { FlushPageRule(m, io.id); }
  }

  lemma InMemoryIsVersion(ps: Pages, m: Machine, id: PageId)
    requires LogOk(ps, m.s) && id in ps
    ensures id in m.s.pages && Version(InMemory(m, id), ps[id], id, m.s.log)
  {
    var n := |m.s.log|;
    assert m.s.log[..n] == m.s.log;
    assert PageAfter(ps[id], id, m.s.log[..n]) == Some(m.s.pages[id]);
  }

  lemma StepIsSound(ps: Pages, m: Machine, io: IoEvent)
    requires Sound(ps, m) && IoEnabled(m, io) && NeverShrinks(IoStep(m, io).s.log)
    ensures Sound(ps, IoStep(m, io))
    ensures WriteAheadRule(m) && InOrder(m, io) ==> WriteAheadRule(IoStep(m, io))
  {
    if io.Act? {
      ActKeepsSound(ps, m, io.e);
    } else {
      WriteKeepsVersions(ps, m, io);
      if WriteAheadRule(m) && InOrder(m, io) { WriteKeepsRule(m, io); }
    }
  }

  /** Every page flushed in the run had its last change in the log file. */
  ghost predicate OrderedRun(ps: Pages, ios: seq<IoEvent>) {
    forall i :: 0 <= i < |ios| && IoRun(ps, ios[..i]).Some? ==> InOrder(IoRun(ps, ios[..i]).value, ios[i])
  }

  lemma {:induction false} EveryRunIsSound(ps: Pages, ios: seq<IoEvent>)
    requires WellFormedPages(ps) && IoRun(ps, ios).Some? && NeverShrinks(IoRun(ps, ios).value.s.log)
    ensures Sound(ps, IoRun(ps, ios).value)
    ensures OrderedRun(ps, ios) ==> WriteAheadRule(IoRun(ps, ios).value)
  {
    if ios == [] {
      StartIsSound(ps);
    } else {
      var n := |ios| - 1;
      var m := IoRun(ps, ios[..n]).value;
      PrefixesAgree(ios, n);
      assert OrderedRun(ps, ios) ==> OrderedRun(ps, ios[..n]);
      IoRunIsSafe(ps, ios[..n]);
      IoStepGrowsLog(m, ios[n]);
      ShorterNeverShrinks(m.s.log, IoRun(ps, ios).value.s.log);
      EveryRunIsSound(ps, ios[..n]);
      StepIsSound(ps, m, ios[n]);
    }
  }

  lemma IoRunIsSafe(ps: Pages, ios: seq<IoEvent>)
    requires WellFormedPages(ps) && IoRun(ps, ios).Some?
    ensures Safe(IoRun(ps, ios).value.s)
  {
    ActsRun(ps, ios);
    EveryRunIsSafe(ps, Acts(ios));
  }

  lemma IoStepGrowsLog(m: Machine, io: IoEvent)
    requires Safe(m.s) && IoEnabled(m, io)
    ensures Grows(m.s.log, IoStep(m, io).s.log)
  {
    if io.Act? { StepGrowsLog(m.s, io.e); } else { assert m.s.log[..|m.s.log|] == m.s.log; }
  }

  lemma PrefixesAgree(ios: seq<IoEvent>, n: nat)
    requires n <= |ios|
    ensures forall i :: 0 <= i < n ==> ios[..n][..i] == ios[..i]
  {
  }

  lemma StartIsSound(ps: Pages)
    requires WellFormedPages(ps)
    ensures Sound(ps, Start(ps)) && WriteAheadRule(Start(ps))
  {
    EveryRunIsSafe(ps, []);
    EveryRunLogs(ps, []);
    forall id | id in ps ensures Version(Start(ps).disk[id], ps[id], id, []) {
      var empty: seq<LogRecord> := [];
      assert PageAfter(ps[id], id, empty[..0]) == Some(ps[id]) && LsnAfter(id, empty[..0]) == 0;
    }
  }

  // ---- the log file is the log of an earlier moment of the run ----

  lemma {:induction false} LogFileIsPast(ps: Pages, events: seq<Event>, n: nat) returns (k: nat)
    requires WellFormedPages(ps) && Run(ps, events).Some? && Run(ps, events).value.Next?
    requires n <= |Run(ps, events).value.state.log|
    ensures k <= |events| && Run(ps, events[..k]).Some? && Run(ps, events[..k]).value.Next?
    ensures Run(ps, events[..k]).value.state.log == Run(ps, events).value.state.log[..n]
  {
    var s := Run(ps, events).value.state;
    assert events[..|events|] == events;
    if n == |s.log| {
      k := |events|;
      assert s.log[..n] == s.log;
    } else {
      var last := |events| - 1;
      var s0 := Run(ps, events[..last]).value.state;
      EveryRunIsSafe(ps, events[..last]);
      StepGrowsLog(s0, events[last]);
      k := LogFileIsPast(ps, events[..last], n);
      assert events[..last][..k] == events[..k];
      assert s.log[..n] == s0.log[..n];
    }
  }

  /** Crash a run anywhere, with log flushes, evictions and ordered page flushes in between, and
    * recover from what is on disk: the outcome is that of the committed transactions of an
    * earlier moment of the run, the one the log file ends at. */
  lemma {:induction false} CrashRecovers(ps: Pages, ios: seq<IoEvent>, order: seq<TxnId>, rid: RID) returns (k: nat)
    requires WellFormedPages(ps) && IoRun(ps, ios).Some? && OrderedRun(ps, ios)
    requires var m := IoRun(ps, ios).value;
             && m.durable <= |m.s.log| && NeverShrinks(m.s.log)
             && var log := m.s.log[..m.durable];
                LosersAppliedNothing(log) && Unfollowed(log) && Enumerates(order, ActiveAfter(log))
    ensures k <= |Acts(ios)| && Run(ps, Acts(ios)[..k]).Some? && Run(ps, Acts(ios)[..k]).value.Next?
    ensures var m := IoRun(ps, ios).value;
            var s := Run(ps, Acts(ios)[..k]).value.state;
            && s.log == m.s.log[..m.durable]
            && RedoAll(m.disk, s.log).Some? && ChainsDown(s.log) && InLog(ActiveAfter(s.log), s.log)
            && var r := UndoInOrder(PagesOf(RedoAll(m.disk, s.log).value), s.log, ActiveAfter(s.log), order);
               r.Some? && Val(r.value, rid) == Replay(Serial(s.history), ps, rid)
  {
    var m := IoRun(ps, ios).value;
    EveryRunIsSound(ps, ios);
    RuleIsCrashImage(ps, m);
    ActsRun(ps, ios);
    ShorterNeverShrinks(m.s.log[..m.durable], m.s.log);
    k := LogFileIsPast(ps, Acts(ios), m.durable);
    RecoveryYieldsCommitted(ps, Acts(ios)[..k], m.disk, order, rid);
  }

  // ---- a page flushed too early ----

  lemma IoRunUpTo(ps: Pages, ios: seq<IoEvent>, k: nat, m: Machine)
    requires k < |ios| && IoRun(ps, ios[..k]) == Some(m) && IoEnabled(m, ios[k])
    ensures IoRun(ps, ios[..k + 1]) == Some(IoStep(m, ios[k]))
  {
    assert ios[..k + 1][..k] == ios[..k];
  }

  /** A transaction inserts a tuple and its page is flushed before the log: a crash now leaves the
    * tuple on disk with nothing in the log file to take it back. */
  lemma {:induction false} FlushedTooEarly(a: seq<byte>)
    requires a != [] && |a| <= 100
    ensures var ios := [Act(Begin(1)), Act(InsertTuple(1, 0, a)), FlushPage(0)];
            && IoRun(map[0 := []], ios).Some?
            && var m := IoRun(map[0 := []], ios).value;
               && !WriteAheadRule(m) && m.durable == 0 && m.disk == map[0 := DiskPage([Tuple(a, false)], 1)]
               && RedoAll(m.disk, m.s.log[..0]) == Some(m.disk) && ActiveAfter(m.s.log[..0]) == map[]
  {
    var ios, ps := [Act(Begin(1)), Act(InsertTuple(1, 0, a)), FlushPage(0)], map[0 := []];
    var m1 := IoStep(Start(ps), ios[0]);
    var s2 := EarlyInsert(a);
    assert ios[..0] == [] && ios[..3] == ios;
    IoRunUpTo(ps, ios, 0, Start(ps));
    IoRunUpTo(ps, ios, 1, m1);
    var m2 := m1.(s := s2);
    IoRunUpTo(ps, ios, 2, m2);
    assert InMemory(m2, 0) == DiskPage([Tuple(a, false)], 1);
    var m3 := IoStep(m2, ios[2]);
    assert m3.disk == map[0 := DiskPage([Tuple(a, false)], 1)];
    assert m3.disk[0].lsn == 1;
  }

  lemma EarlyInsert(a: seq<byte>) returns (s: State)
    requires a != [] && |a| <= 100
    ensures var s1 := DoBegin(Initial(map[0 := []]), 1);
            Enabled(s1, InsertTuple(1, 0, a)) && DoInsert(s1, 1, 0, a) == s
    ensures s.pages == map[0 := [Tuple(a, false)]] && |s.log| == 2 && s.log[1].body == InsertRec(RID(0, 0), a)
  {
    var s1 := DoBegin(Initial(map[0 := []]), 1);
    LostCommit.InsertStep(s1, 1, [], s1.txns, s1.log, a);
    s := DoInsert(s1, 1, 0, a);
  }
}
