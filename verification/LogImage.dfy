/** The log of a run as the bytes the log manager writes, and back. */
module LogImage {
  import opened Wrappers
  import opened Bytes
  import opened LockTable
  import C = LogCodec
  import LogManager
  import LogScan
  import T = Transactions

  /** What `TablePage` and `TransactionManager` hand to the log manager.  Marking and unmarking
    * are logged with an empty tuple. */
  function StoredBody(b: T.LogBody): C.Body {
    match b
    case BeginRec => C.Begin
    case CommitRec => C.Commit
    case AbortRec => C.Abort
    case InsertRec(rid, data) => C.Insert(rid, data)
    case MarkDeleteRec(rid) => C.MarkDelete(rid, [])
    case ApplyDeleteRec(rid, data) => C.ApplyDelete(rid, data)
    case RollbackDeleteRec(rid) => C.RollbackDelete(rid, [])
    case UpdateRec(rid, old_, new_) => C.Update(rid, old_, new_)
  }

  function Stored(log: seq<T.LogRecord>): (rs: seq<C.Record>)
    ensures |rs| == |log|
    ensures forall i :: 0 <= i < |log| ==>
              rs[i] == C.Record(i, log[i].txn, log[i].prev, StoredBody(log[i].body))
  {
    seq(|log|, i requires 0 <= i < |log| => C.Record(i, log[i].txn, log[i].prev, StoredBody(log[i].body)))
  }

  /** What redo and undo make of a decoded record; `None` for kinds that are no part of a run. */
  function Meaning(b: C.Body): Option<T.LogBody> {
    match b
    case Begin => Some(T.BeginRec)
    case Commit => Some(T.CommitRec)
    case Abort => Some(T.AbortRec)
    case Insert(rid, data) => Some(T.InsertRec(rid, data))
    case MarkDelete(rid, _) => Some(T.MarkDeleteRec(rid))
    case ApplyDelete(rid, data) => Some(T.ApplyDeleteRec(rid, data))
    case RollbackDelete(rid, _) => Some(T.RollbackDeleteRec(rid))
    case Update(rid, old_, new_) => Some(T.UpdateRec(rid, old_, new_))
    case _ => None
  }

  ghost predicate Means(rs: seq<C.Record>, log: seq<T.LogRecord>) {
    && |rs| == |log|
    && forall i :: 0 <= i < |log| ==>
         rs[i].lsn == i && rs[i].txn == log[i].txn && rs[i].prevLsn == log[i].prev &&
         Meaning(rs[i].body) == Some(log[i].body)
  }

  lemma {:induction false} StoredStamps(log: seq<T.LogRecord>, i: nat)
    requires i <= |log|
    ensures LogManager.Stamps(Stored(log)[..i]) == i
  {
    if i > 0 {
      StoredStamps(log, i - 1);
      assert Stored(log)[..i][..i - 1] == Stored(log)[..i - 1];
    }
  }

  lemma StoredNumbered(log: seq<T.LogRecord>)
    ensures LogManager.Numbered(Stored(log))
  {
    var rs := Stored(log);
    forall i | 0 <= i < |rs| ensures rs[i].lsn == LogManager.Stamps(rs[..i]) { StoredStamps(log, i); }
  }

  lemma StoredMeans(log: seq<T.LogRecord>)
    ensures Means(Stored(log), log)
  {
  }

  /** The log of any run, written and scanned, is the log recovery works on: every record with
    * its LSN, transaction, back link and contents.  The scan succeeds exactly when no read ends
    * inside a record, and so whenever the log fits into one read. */
  lemma StoredLogReadsBack(log: seq<T.LogRecord>, r: LogScan.Scanned)
    requires C.AllStorable(Stored(log)) && LogScan.ScanOk(Stored(log), r)
    ensures LogManager.Numbered(Stored(log))
    ensures r.Read? <==> LogScan.Aligned(Stored(log), 0, 0)
    ensures r.Read? ==> Means(r.records, log)
    ensures |C.EncodeAll(Stored(log))| <= C.LOG_BUFFER_SIZE ==> r.Read?
  {
    StoredNumbered(log);
    StoredMeans(log);
    LogScan.LogFrom(Stored(log), |log|);
    if |C.EncodeAll(Stored(log))| <= C.LOG_BUFFER_SIZE { LogScan.OneReadIsAligned(Stored(log), 0); }
  }

  /** 26418 begin records leave 24 bytes of the first read: the insert record behind them is cut
    * and the scan fails. */
  lemma LongLogBreaksScan(rs: seq<C.Record>)
    requires |rs| == 26419 && rs[26418] == C.Record(26418, 1, 0, C.Insert(RID(0, 0), [7]))
    requires forall i :: 0 <= i < 26418 ==> rs[i] == C.Record(i, 1, -1, C.Begin)
    ensures C.AllStorable(rs) && !LogScan.Aligned(rs, 0, 0)
  {
    BeginOffsets(rs, 26418);
    LogScan.CutIsNotAligned(rs, 0, 26418);
  }

  lemma {:induction false} BeginOffsets(rs: seq<C.Record>, i: nat)
    requires i <= |rs| && forall k :: 0 <= k < i ==> rs[k].body == C.Begin
    ensures LogScan.Offset(rs, i) == 20 * i
  {
    if i > 0 { BeginOffsets(rs, i - 1); }
  }
}
