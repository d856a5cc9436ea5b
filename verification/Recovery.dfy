/** Crash recovery at the level of log records: redo repeats history on whatever mixture of
  * old and new pages the crash left, undo walks each loser's chain backwards. */
module Recovery {
  import opened Wrappers
  import opened Bytes
  import opened SlottedPage
  import opened LockTable
  import opened Transactions

  /** A page on disk with the LSN in its header. */
  datatype DiskPage = DiskPage(page: Page, lsn: int)
  type Disk = map<PageId, DiskPage>

  function PageOf(body: LogBody): Option<PageId> {
    if RidOf(body).Some? then Some(RidOf(body).value.page) else None
  }

  function RidOf(body: LogBody): Option<RID> {
    match body
    case InsertRec(rid, _) => Some(rid)
    case MarkDeleteRec(rid) => Some(rid)
    case ApplyDeleteRec(rid, _) => Some(rid)
    case RollbackDeleteRec(rid) => Some(rid)
    case UpdateRec(rid, _, _) => Some(rid)
    case _ => None
  }

  // ---- the page operations as recovery calls them: no locks, failures ignored, asserts panic ----

  function InsertAnywhere(p: Page, data: seq<byte>): Page {
    if HasRoom(p, |data|) then Put(p, FirstEmpty(p), Tuple(data, false)) else p
  }

  function EmptySlot(p: Page, slot: nat): Option<Page> {
    if At(p, slot).Empty? then None else Some(Put(p, slot, Empty))
  }

  function FlagSlot(p: Page, slot: nat): Page {
    if Marked(At(p, slot)) then p else Put(p, slot, Tuple(p[slot].data, true))
  }

  function UnflagSlot(p: Page, slot: nat): Option<Page> {
    if At(p, slot).Empty? then None else Some(Put(p, slot, Tuple(p[slot].data, false)))
  }

  function RedoOn(p: Page, body: LogBody): Option<Page> {
    match body
    case InsertRec(_, data) => Some(InsertAnywhere(p, data))
    case ApplyDeleteRec(rid, _) => EmptySlot(p, rid.slot)
    case MarkDeleteRec(rid) => Some(FlagSlot(p, rid.slot))
    case RollbackDeleteRec(rid) => UnflagSlot(p, rid.slot)
    case UpdateRec(rid, _, new_) =>
      Some(if UpdateOutcomeOf(p, rid.slot, |new_|, false).Updated? then Put(p, rid.slot, Tuple(new_, false)) else p)
    case _ => Some(p)
  }

  function UndoOn(p: Page, body: LogBody): Option<Page> {
    match body
    case InsertRec(rid, _) => EmptySlot(p, rid.slot)
    case ApplyDeleteRec(_, data) => Some(InsertAnywhere(p, data))
    case MarkDeleteRec(rid) => UnflagSlot(p, rid.slot)
    case RollbackDeleteRec(rid) => Some(FlagSlot(p, rid.slot))
    case UpdateRec(rid, old_, _) =>
      var outcome := UpdateOutcomeOf(p, rid.slot, |old_|, true);
      if outcome.NotEnoughSpace? || outcome.RollbackDifficult? then None
      else Some(if outcome.Updated? then Put(p, rid.slot, Tuple(old_, false)) else p)
    case _ => Some(p)
  }

  // ---- redo ----

  function RedoRecord(d: Disk, lsn: int, body: LogBody): Option<Disk> {
    match PageOf(body)
    case None => Some(d)
    case Some(id) =>
      if id !in d then None
      else if d[id].lsn >= lsn then Some(d)
      else
        match RedoOn(d[id].page, body)
        case None => None
        case Some(q) => Some(d[id := DiskPage(q, lsn)])
  }

  function RedoAll(d: Disk, log: seq<LogRecord>): Option<Disk> {
    if log == [] then Some(d)
    else
      var n := |log| - 1;
      match RedoAll(d, log[..n])
      case None => None
      case Some(e) => RedoRecord(e, n, log[n].body)
  }

  /** The table of losers the redo scan builds: last LSN of every transaction without a COMMIT. */
  function ActiveAfter(log: seq<LogRecord>): map<TxnId, int> {
    if log == [] then map[]
    else
      var n := |log| - 1;
      var a := ActiveAfter(log[..n])[log[n].txn := n];
      if log[n].body.CommitRec? then a - {log[n].txn} else a
  }

  // ---- undo ----

  function UndoRecord(ps: Pages, body: LogBody): Option<Pages> {
    match PageOf(body)
    case None => Some(ps)
    case Some(id) =>
      if id !in ps then None
      else
        match UndoOn(ps[id], body)
        case None => None
        case Some(q) => Some(ps[id := q])
  }

  predicate ChainsDown(log: seq<LogRecord>) {
    forall i :: 0 <= i < |log| ==> -1 <= log[i].prev < i
  }

  function UndoChain(ps: Pages, log: seq<LogRecord>, lsn: int): Option<Pages>
    requires ChainsDown(log) && -1 <= lsn < |log|
    decreases lsn
  {
    if lsn == -1 then Some(ps)
    else
      match UndoRecord(ps, log[lsn].body)
      case None => None
      case Some(qs) => UndoChain(qs, log, log[lsn].prev)
  }

  predicate InLog(active: map<TxnId, int>, log: seq<LogRecord>) {
    forall t :: t in active ==> 0 <= active[t] < |log|
  }

  /** The losers undone one after another, in the order the map happens to yield them. */
  function UndoInOrder(ps: Pages, log: seq<LogRecord>, active: map<TxnId, int>, order: seq<TxnId>): Option<Pages>
    requires ChainsDown(log) && InLog(active, log)
    requires forall i :: 0 <= i < |order| ==> order[i] in active
  {
    if order == [] then Some(ps)
    else
      var n := |order| - 1;
      var t := order[n];
      assert t in active && 0 <= active[t] < |log|;
      match UndoInOrder(ps, log, active, order[..n])
      case None => None
      case Some(qs) => UndoChain(qs, log, active[t])
  }

  function PagesOf(d: Disk): Pages {
    map id | id in d :: d[id].page
  }

  lemma ActiveInLog(log: seq<LogRecord>)
    ensures InLog(ActiveAfter(log), log)
  {
  }

  // ---- the two passes as the source runs them ----

  class LogRecovery {
    const log: seq<LogRecord>
    var disk: Disk
    var activeTxn: map<TxnId, int>

    constructor (log: seq<LogRecord>, disk: Disk)
      ensures this.log == log && this.disk == disk && activeTxn == map[]
    {
      this.log, this.disk, activeTxn := log, disk, map[];
    }

    /** `ok` is false when a page operation hit one of its assertions. */
    method Redo() returns (ok: bool)
      requires activeTxn == map[]
      modifies this
      ensures ok == RedoAll(old(disk), log).Some?
      ensures ok ==> disk == RedoAll(old(disk), log).value && activeTxn == ActiveAfter(log)
    {
      ghost var was := disk;
      for i := 0 to |log|
        invariant RedoAll(was, log[..i]) == Some(disk) && activeTxn == ActiveAfter(log[..i])
      {
        var r := log[i];
        assert log[..i + 1][..i] == log[..i];
        activeTxn := activeTxn[r.txn := i];
        if PageOf(r.body).Some? {
          var id := PageOf(r.body).value;
          if id !in disk { RedoStuck(was, log, i + 1); return false; }
          if disk[id].lsn < i {
            var q := RedoOn(disk[id].page, r.body);
            if q.None? { RedoStuck(was, log, i + 1); return false; }
            disk := disk[id := DiskPage(q.value, i)];
          }
        }
        if r.body.CommitRec? { activeTxn := activeTxn - {r.txn}; }
      }
      assert log[..|log|] == log;
      ok := true;
    }

    /** `order` is the order in which the iteration over the loser map yields its keys. */
    method Undo(order: seq<TxnId>) returns (ok: bool)
      requires ChainsDown(log) && InLog(activeTxn, log)
      requires forall i :: 0 <= i < |order| ==> order[i] in activeTxn
      modifies this`disk
      ensures ok == UndoInOrder(PagesOf(old(disk)), log, activeTxn, order).Some?
      ensures ok ==> UndoInOrder(PagesOf(old(disk)), log, activeTxn, order) == Some(PagesOf(disk))
    {
      ghost var was := PagesOf(disk);
      for i := 0 to |order|
        invariant UndoInOrder(was, log, activeTxn, order[..i]) == Some(PagesOf(disk))
      {
        ghost var sofar := PagesOf(disk);
        assert order[..i + 1][..i] == order[..i];
        var t := order[i];
        assert t in activeTxn;
        var lsn := activeTxn[t];
        while lsn != -1
          invariant -1 <= lsn < |log|
          invariant UndoChain(PagesOf(disk), log, lsn) == UndoChain(sofar, log, activeTxn[t])
          decreases lsn
        {
          var r := log[lsn];
          if PageOf(r.body).Some? {
            var id := PageOf(r.body).value;
            if id !in disk { UndoStuck(was, log, activeTxn, order, i + 1); return false; }
            var q := UndoOn(disk[id].page, r.body);
            if q.None? { UndoStuck(was, log, activeTxn, order, i + 1); return false; }
            ghost var before := PagesOf(disk);
            disk := disk[id := disk[id].(page := q.value)];
            assert PagesOf(disk) == before[id := q.value];
          }
          lsn := r.prev;
        }
      }
      assert order[..|order|] == order;
      ok := true;
    }
  }

  lemma {:induction false} UndoStuck(ps: Pages, log: seq<LogRecord>, active: map<TxnId, int>, order: seq<TxnId>, n: nat)
    requires ChainsDown(log) && InLog(active, log) && n <= |order|
    requires forall i :: 0 <= i < |order| ==> order[i] in active
    requires UndoInOrder(ps, log, active, order[..n]).None?
    ensures UndoInOrder(ps, log, active, order).None?
    decreases |order| - n
  {
    if n == |order| {
      assert order[..n] == order;
    } else {
      assert order[..n + 1][..n] == order[..n];
      UndoStuck(ps, log, active, order, n + 1);
    }
  }

  lemma {:induction false} RedoStuck(d: Disk, log: seq<LogRecord>, n: nat)
    requires n <= |log| && RedoAll(d, log[..n]).None?
    ensures RedoAll(d, log).None?
    decreases |log| - n
  {
    if n == |log| {
      assert log[..n] == log;
    } else {
      assert log[..n + 1][..n] == log[..n];
      RedoStuck(d, log, n + 1);
    }
  }

  // ---- redo repeats history from any mixture of page versions ----

  /** One page after a log prefix, every record applied. */
  function PageAfter(p: Page, id: PageId, log: seq<LogRecord>): Option<Page> {
    if log == [] then Some(p)
    else
      var n := |log| - 1;
      match PageAfter(p, id, log[..n])
      case None => None
      case Some(q) => if PageOf(log[n].body) == Some(id) then RedoOn(q, log[n].body) else Some(q)
  }

  /** LSN of the last record of a prefix that touched the page; a fresh page carries LSN 0. */
  function LsnAfter(id: PageId, log: seq<LogRecord>): (lsn: int)
    ensures 0 <= lsn && (lsn == 0 || lsn < |log|)
  {
    if log == [] then 0
    else
      var n := |log| - 1;
      if PageOf(log[n].body) == Some(id) then n else LsnAfter(id, log[..n])
  }

  /** The disk a crash may leave: each page is some earlier version of itself, with its LSN. */
  ghost predicate CrashImage(d: Disk, ps: Pages, log: seq<LogRecord>) {
    && d.Keys == ps.Keys
    && forall id :: id in ps ==> Version(d[id], ps[id], id, log)
  }

  ghost predicate Version(dp: DiskPage, p: Page, id: PageId, log: seq<LogRecord>) {
    exists k :: 0 <= k <= |log| && PageAfter(p, id, log[..k]) == Some(dp.page) && dp.lsn == LsnAfter(id, log[..k])
  }

  predicate StartsWithBegin(log: seq<LogRecord>) {
    log != [] ==> log[0].body.BeginRec?
  }

  lemma {:induction false} LsnAfterCovers(id: PageId, log: seq<LogRecord>, i: nat)
    requires i < |log| && PageOf(log[i].body) == Some(id)
    ensures LsnAfter(id, log) >= i
  {
    var n := |log| - 1;
    if i < n { LsnAfterCovers(id, log[..n], i); }
  }

  lemma {:induction false} PageAfterPrefix(p: Page, id: PageId, log: seq<LogRecord>, k: nat)
    requires k <= |log| && PageAfter(p, id, log).Some?
    ensures PageAfter(p, id, log[..k]).Some?
    decreases |log| - k
  {
    if k < |log| {
      PageAfterPrefix(p, id, log, k + 1);
      assert log[..k + 1][..k] == log[..k];
    } else {
      assert log[..k] == log;
    }
  }

  /** After redoing `n` records a page is its own version at `n`, or the later one it started from. */
  ghost predicate CaughtUp(dp: DiskPage, p: Page, id: PageId, log: seq<LogRecord>, n: nat) {
    exists k :: n <= k <= |log| && PageAfter(p, id, log[..k]) == Some(dp.page) && dp.lsn == LsnAfter(id, log[..k])
  }

  ghost predicate Replayable(ps: Pages, log: seq<LogRecord>) {
    && StartsWithBegin(log)
    && (forall i :: 0 <= i < |log| && PageOf(log[i].body).Some? ==> PageOf(log[i].body).value in ps)
    && (forall id :: id in ps ==> PageAfter(ps[id], id, log).Some?)
  }

  ghost predicate AllCaughtUp(r: Option<Disk>, ps: Pages, log: seq<LogRecord>, n: nat) {
    r.Some? && r.value.Keys == ps.Keys && forall id :: id in ps ==> CaughtUp(r.value[id], ps[id], id, log, n)
  }

  lemma {:induction false} RedoCatchesUp(d: Disk, ps: Pages, log: seq<LogRecord>, n: nat)
    requires n <= |log| && CrashImage(d, ps, log) && Replayable(ps, log)
    ensures AllCaughtUp(RedoAll(d, log[..n]), ps, log, n)
  {
    if n == 0 {
      assert log[..0] == [];
      StartCaughtUp(d, ps, log);
    } else {
      var m := n - 1;
      RedoCatchesUp(d, ps, log, m);
      assert log[..n][..m] == log[..m];
      RedoRecordCatchesUp(RedoAll(d, log[..m]).value, ps, log, m);
    }
  }

  ghost predicate StepsUp(dp: DiskPage, p: Page, id: PageId, log: seq<LogRecord>, m: nat)
    requires m < |log|
  {
    var body := log[m].body;
    if PageOf(body) != Some(id) || dp.lsn >= m then CaughtUp(dp, p, id, log, m + 1)
    else RedoOn(dp.page, body).Some? && CaughtUp(DiskPage(RedoOn(dp.page, body).value, m), p, id, log, m + 1)
  }

  lemma StartCaughtUp(d: Disk, ps: Pages, log: seq<LogRecord>)
    requires CrashImage(d, ps, log)
    ensures AllCaughtUp(Some(d), ps, log, 0)
  {
    forall id | id in ps ensures CaughtUp(d[id], ps[id], id, log, 0) {
      assert Version(d[id], ps[id], id, log);
    }
  }

  lemma {:induction false} RedoRecordCatchesUp(e: Disk, ps: Pages, log: seq<LogRecord>, m: nat)
    requires m < |log| && Replayable(ps, log) && AllCaughtUp(Some(e), ps, log, m)
    ensures AllCaughtUp(RedoRecord(e, m, log[m].body), ps, log, m + 1)
  {
    forall id | id in ps ensures StepsUp(e[id], ps[id], id, log, m) {
      RedoOneCatchesUp(e[id], ps[id], id, log, m);
    }
    RecordOfPages(e, ps, log, m);
  }

  lemma {:induction false} RecordOfPages(e: Disk, ps: Pages, log: seq<LogRecord>, m: nat)
    requires m < |log| && Replayable(ps, log) && e.Keys == ps.Keys
    requires forall id :: id in ps ==> StepsUp(e[id], ps[id], id, log, m)
    ensures AllCaughtUp(RedoRecord(e, m, log[m].body), ps, log, m + 1)
  {
    var body := log[m].body;
    if PageOf(body).Some? { assert StepsUp(e[PageOf(body).value], ps[PageOf(body).value], PageOf(body).value, log, m); }
    forall id | id in ps ensures CaughtUp(RedoRecord(e, m, body).value[id], ps[id], id, log, m + 1) {
      RecordOnPage(e, ps, log, m, id);
    }
  }

  lemma RecordOnPage(e: Disk, ps: Pages, log: seq<LogRecord>, m: nat, id: PageId)
    requires m < |log| && id in ps && id in e && StepsUp(e[id], ps[id], id, log, m)
    requires RedoRecord(e, m, log[m].body).Some?
    ensures id in RedoRecord(e, m, log[m].body).value
    ensures CaughtUp(RedoRecord(e, m, log[m].body).value[id], ps[id], id, log, m + 1)
  {
  }

  lemma {:induction false} RedoOneCatchesUp(dp: DiskPage, p: Page, id: PageId, log: seq<LogRecord>, m: nat)
    requires m < |log| && StartsWithBegin(log) && PageAfter(p, id, log).Some?
    requires CaughtUp(dp, p, id, log, m)
    ensures StepsUp(dp, p, id, log, m)
  {
    var k :| m <= k <= |log| && PageAfter(p, id, log[..k]) == Some(dp.page) && dp.lsn == LsnAfter(id, log[..k]);
    assert log[..m + 1][..m] == log[..m];
    PageAfterPrefix(p, id, log, m + 1);
    if k > m {
      if PageOf(log[m].body) == Some(id) { LsnAfterCovers(id, log[..k], m); }
      assert m + 1 <= k <= |log| && PageAfter(p, id, log[..k]) == Some(dp.page) && dp.lsn == LsnAfter(id, log[..k]);
    } else {
      RedoneNow(dp, p, id, log, m);
    }
  }

  /** A page that stands exactly before record `m`. */
  lemma {:induction false} RedoneNow(dp: DiskPage, p: Page, id: PageId, log: seq<LogRecord>, m: nat)
    requires m < |log| && StartsWithBegin(log) && PageAfter(p, id, log[..m + 1]).Some?
    requires PageAfter(p, id, log[..m]) == Some(dp.page) && dp.lsn == LsnAfter(id, log[..m])
    ensures StepsUp(dp, p, id, log, m)
  {
    assert log[..m + 1][..m] == log[..m];
    var dp' := if PageOf(log[m].body) == Some(id) then DiskPage(RedoOn(dp.page, log[m].body).value, m) else dp;
    assert PageAfter(p, id, log[..m + 1]) == Some(dp'.page) && dp'.lsn == LsnAfter(id, log[..m + 1]);
  }

  /** Redo turns every crash image into the pages the whole log describes. */
  lemma {:induction false} RedoRepeatsHistory(d: Disk, ps: Pages, log: seq<LogRecord>)
    requires CrashImage(d, ps, log) && Replayable(ps, log)
    ensures RedoAll(d, log).Some? && RedoAll(d, log).value.Keys == ps.Keys
    ensures forall id :: id in ps ==>
              RedoAll(d, log).value[id] == DiskPage(PageAfter(ps[id], id, log).value, LsnAfter(id, log))
  {
    RedoCatchesUp(d, ps, log, |log|);
    assert log[..|log|] == log;
    forall id | id in ps
      ensures RedoAll(d, log).value[id] == DiskPage(PageAfter(ps[id], id, log).value, LsnAfter(id, log))
    {
      CaughtUpAtEnd(RedoAll(d, log).value[id], ps[id], id, log);
    }
  }

  lemma CaughtUpAtEnd(dp: DiskPage, p: Page, id: PageId, log: seq<LogRecord>)
    requires CaughtUp(dp, p, id, log, |log|)
    ensures PageAfter(p, id, log) == Some(dp.page) && dp.lsn == LsnAfter(id, log)
  {
    assert log[..|log|] == log;
  }

  // ---- redo is idempotent, for any log and any disk ----

  lemma {:induction false} RedoRaisesLsns(d: Disk, log: seq<LogRecord>)
    requires RedoAll(d, log).Some?
    ensures RedoAll(d, log).value.Keys == d.Keys
    ensures forall i :: 0 <= i < |log| && PageOf(log[i].body).Some? ==>
              var id := PageOf(log[i].body).value;
              id in d && RedoAll(d, log).value[id].lsn >= i
  {
    if log != [] { RedoRaisesLsns(d, log[..|log| - 1]); }
  }

  lemma {:induction false} NothingLeftToRedo(d: Disk, log: seq<LogRecord>)
    requires forall i :: 0 <= i < |log| && PageOf(log[i].body).Some? ==>
               PageOf(log[i].body).value in d && d[PageOf(log[i].body).value].lsn >= i
    ensures RedoAll(d, log) == Some(d)
  {
    if log != [] { NothingLeftToRedo(d, log[..|log| - 1]); }
  }

  /** Redo run twice equals redo run once. */
  lemma RedoIsIdempotent(d: Disk, log: seq<LogRecord>)
    requires RedoAll(d, log).Some?
    ensures RedoAll(RedoAll(d, log).value, log) == RedoAll(d, log)
  {
    RedoRaisesLsns(d, log);
    NothingLeftToRedo(RedoAll(d, log).value, log);
  }
}
