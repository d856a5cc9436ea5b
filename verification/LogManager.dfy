/** The buffered log: appending, overflow flushes, explicit flushes, and the scan that reads
  * the log file back. */
module LogManager {
  import opened Bytes
  import opened LockTable
  import opened LogCodec
  import ByteArrays

  // ---- numbering ----

  /** Page deallocation and reuse records carry -1 and take no number. */
  function Stamp(r: Record, next: int): Record {
    if r.lsn != -1 then r.(lsn := next) else r
  }

  function Stamps(rs: seq<Record>): (n: nat)
    ensures n <= |rs|
  {
    if rs == [] then 0
    else Stamps(rs[..|rs| - 1]) + if rs[|rs| - 1].lsn != -1 then 1 else 0
  }

  /** Every numbered record's LSN is the count of numbered records before it. */
  ghost predicate Numbered(rs: seq<Record>) {
    forall i :: 0 <= i < |rs| && rs[i].lsn != -1 ==> rs[i].lsn == Stamps(rs[..i])
  }

  lemma NumberedAppend(rs: seq<Record>, r: Record)
    requires Numbered(rs)
    ensures Numbered(rs + [Stamp(r, Stamps(rs))])
    ensures Stamps(rs + [Stamp(r, Stamps(rs))]) == Stamps(rs) + if r.lsn != -1 then 1 else 0
  {
    var qs := rs + [Stamp(r, Stamps(rs))];
    assert qs[..|rs|] == rs;
    forall i | 0 <= i < |qs| && qs[i].lsn != -1 ensures qs[i].lsn == Stamps(qs[..i]) {
      if i < |rs| { assert qs[..i] == rs[..i]; }
    }
  }

  lemma {:induction false} StampsMonotone(rs: seq<Record>, i: nat, j: nat)
    requires i <= j <= |rs|
    ensures Stamps(rs[..i]) <= Stamps(rs[..j])
    ensures i < j && rs[i].lsn != -1 ==> Stamps(rs[..i]) < Stamps(rs[..j])
    decreases j
  {
    if i < j {
      assert rs[..j][..j - 1] == rs[..j - 1];
      StampsMonotone(rs, i, j - 1);
    }
  }

  /** The order of the log is the order of the numbers. */
  lemma NumberedInOrder(rs: seq<Record>, i: nat, j: nat)
    requires Numbered(rs) && i < |rs| && j < |rs| && rs[i].lsn != -1 && rs[j].lsn != -1
    ensures rs[i].lsn < rs[j].lsn <==> i < j
  {
    if i < j { StampsMonotone(rs, i, j); } else if j < i { StampsMonotone(rs, j, i); }
  }

  function LastNumber(n: nat): int { if n == 0 then 0 else n - 1 }

  /** What the persistent LSN promises: everything numbered up to it is in the log file. */
  ghost predicate DurableUpTo(rs: seq<Record>, flushed: nat, lsn: int) {
    forall i :: flushed <= i < |rs| && rs[i].lsn != -1 ==> lsn < rs[i].lsn
  }

  /** The promise holds, except when the flush came before the first numbered record:
    * the persistent LSN is then 0 with record 0 still unwritten. */
  lemma PersistentLsnIsDurable(rs: seq<Record>, flushed: nat)
    requires Numbered(rs) && flushed <= |rs|
    ensures DurableUpTo(rs, flushed, LastNumber(Stamps(rs[..flushed]))) <==>
            Stamps(rs[..flushed]) > 0 || Stamps(rs) == 0
  {
    var n := Stamps(rs[..flushed]);
    assert rs[..|rs|] == rs;
    if n > 0 || Stamps(rs) == 0 {
      forall i | flushed <= i < |rs| && rs[i].lsn != -1 ensures LastNumber(n) < rs[i].lsn {
        StampsMonotone(rs, flushed, i);
        StampsMonotone(rs, i, |rs|);
      }
    } else {
      var i := FirstNumbered(rs, |rs|);
      if i < flushed { StampsMonotone(rs, i, flushed); }
    }
  }

  lemma {:induction false} FirstNumbered(rs: seq<Record>, j: nat) returns (i: nat)
    requires j <= |rs| && Stamps(rs[..j]) > 0
    ensures i < j && rs[i].lsn != -1 && Stamps(rs[..i]) == 0
    decreases j
  {
    assert rs[..j][..j - 1] == rs[..j - 1];
    if Stamps(rs[..j - 1]) > 0 { i := FirstNumbered(rs, j - 1); } else { i := j - 1; }
  }

  // ---- the log manager ----

  /** The log file holds the durable records, the buffer the pending ones. */
  ghost predicate Holds(durable: seq<Record>, pending: seq<Record>, file: seq<byte>, buffered: seq<byte>) {
    && AllStorable(durable) && AllStorable(pending)
    && file == EncodeAll(durable) && buffered == EncodeAll(pending)
  }

  lemma HoldsFlushed(durable: seq<Record>, pending: seq<Record>, file: seq<byte>, buffered: seq<byte>)
    requires Holds(durable, pending, file, buffered)
    ensures Holds(durable + pending, [], file + buffered, [])
  {
    EncodeAllSplit(durable, pending);
  }

  lemma HoldsAppended(durable: seq<Record>, pending: seq<Record>, file: seq<byte>, buffered: seq<byte>, r: Record)
    requires Holds(durable, pending, file, buffered) && Storable(r)
    ensures Holds(durable, pending + [r], file, buffered + Encode(r))
  {
    EncodeAppend(pending, r);
  }

  ghost predicate Counters(durable: seq<Record>, pending: seq<Record>, next: int, last: int, persistent: int) {
    && Numbered(durable + pending)
    && next == Stamps(durable + pending) && last == LastNumber(next)
    && (persistent == LastNumber(Stamps(durable)) || (persistent == -1 && durable == []))
  }

  lemma CountersAppended(durable: seq<Record>, pending: seq<Record>, next: int, last: int, persistent: int, r: Record)
    requires Counters(durable, pending, next, last, persistent)
    ensures var rec := Stamp(r, next);
            if rec.lsn != -1 then Counters(durable, pending + [rec], next + 1, rec.lsn, persistent)
            else Counters(durable, pending + [rec], next, last, persistent)
  {
    assert durable + (pending + [Stamp(r, next)]) == (durable + pending) + [Stamp(r, next)];
    NumberedAppend(durable + pending, r);
  }

  method RidToBytes(rid: RID) returns (s: seq<byte>)
    requires IsRid(rid)
    ensures s == RidBytes(rid)
  {
    EncodingIsUnique(Unsigned(rid.page));
    EncodingIsUnique(rid.slot);
    s := SerializeU32(Unsigned(rid.page)) + SerializeU32(rid.slot);
  }

  method I32ToBytes(x: int) returns (s: seq<byte>)
    requires IsInt32(x)
    ensures s == I32(x)
  {
    EncodingIsUnique(Unsigned(x));
    s := SerializeU32(Unsigned(x));
  }

  /** `GetLogHeaderData`. */
  method HeaderToBytes(r: Record) returns (s: seq<byte>)
    requires Storable(r)
    ensures s == HeaderBytes(r)
  {
    EncodingIsUnique(Size(r.body));
    var lsn := I32ToBytes(r.lsn);
    var txn := I32ToBytes(r.txn);
    var prev := I32ToBytes(r.prevLsn);
    var code := I32ToBytes(TypeCode(r.body));
    s := SerializeU32(Size(r.body)) + lsn + txn + prev + code;
  }

  class LogManager {
    var offset: nat
    var logBufferLsn: int
    var nextLsn: int
    var persistentLsn: int
    var logBuffer: array<byte>
    var flushBuffer: array<byte>
    var logFile: seq<byte>

    /** The records in the log file, and the ones appended since. */
    ghost var durable: seq<Record>
    ghost var pending: seq<Record>

    ghost predicate Buffers()
      reads this
    {
      logBuffer != flushBuffer && logBuffer.Length == LOG_BUFFER_SIZE && flushBuffer.Length == LOG_BUFFER_SIZE
    }

    ghost predicate SameBuffers(a: array<byte>, b: array<byte>)
      reads this
    {
      (logBuffer == a && flushBuffer == b) || (logBuffer == b && flushBuffer == a)
    }

    ghost predicate Valid()
      reads this, logBuffer
    {
      && Buffers() && offset <= LOG_BUFFER_SIZE
      && Holds(durable, pending, logFile, logBuffer[..offset])
      && Counters(durable, pending, nextLsn, logBufferLsn, persistentLsn)
    }

    constructor ()
      ensures Valid() && fresh(logBuffer) && fresh(flushBuffer)
      ensures durable == pending == [] && logFile == [] && nextLsn == 0 && persistentLsn == -1
    {
      offset, logBufferLsn, nextLsn, persistentLsn := 0, 0, 0, -1;
      logBuffer := new byte[LOG_BUFFER_SIZE];
      flushBuffer := new byte[LOG_BUFFER_SIZE];
      logFile := [];
      durable, pending := [], [];
    }

    /** Everything appended is in the log file afterwards. */
    method Flush()
      requires Valid()
      modifies this
      ensures Valid() && durable == old(durable + pending) && pending == [] && offset == 0
      ensures nextLsn == old(nextLsn) && logFile == EncodeAll(durable)
      ensures persistentLsn == LastNumber(nextLsn)
      ensures logBuffer == old(flushBuffer) && flushBuffer == old(logBuffer)
    {
      var lsn, n := logBufferLsn, offset;
      offset := 0;
      logBuffer, flushBuffer := flushBuffer, logBuffer;
      logFile := logFile + flushBuffer[..n];
      persistentLsn := lsn;
      HoldsFlushed(durable, pending, old(logFile), old(logBuffer[..offset]));
      durable, pending := durable + pending, [];
      assert durable + pending == durable;
    }

    method Copy(pos: nat, bytes: seq<byte>)
      requires pos + |bytes| <= logBuffer.Length
      modifies logBuffer
      ensures logBuffer[..] == Splice(old(logBuffer[..]), pos, bytes)
    {
      ByteArrays.CopyInto(logBuffer, pos, bytes);
    }

    /** `Tuple.SerializeTo`. */
    method CopyTuple(pos: nat, data: seq<byte>)
      requires |data| < TWO_TO_THE_32 && pos + 4 + |data| <= logBuffer.Length
      modifies logBuffer
      ensures logBuffer[..] == Splice(old(logBuffer[..]), pos, TupleBytes(data))
    {
      ghost var was := logBuffer[..];
      EncodingIsUnique(|data|);
      Copy(pos, SerializeU32(|data|));
      Copy(pos + 4, data);
      SpliceTwice(was, pos, EncodeU32(|data|), data);
    }

    method CopyRidAndTuple(pos: nat, rid: RID, data: seq<byte>)
      requires IsRid(rid) && |data| < TWO_TO_THE_32 && pos + 12 + |data| <= logBuffer.Length
      modifies logBuffer
      ensures logBuffer[..] == Splice(old(logBuffer[..]), pos, RidBytes(rid) + TupleBytes(data))
    {
      ghost var was := logBuffer[..];
      var ridInBytes := RidToBytes(rid);
      Copy(pos, ridInBytes);
      CopyTuple(pos + 8, data);
      SpliceTwice(was, pos, RidBytes(rid), TupleBytes(data));
    }

    method CopyUpdate(pos: nat, rid: RID, old_: seq<byte>, new_: seq<byte>)
      requires IsRid(rid) && |old_| < TWO_TO_THE_32 && |new_| < TWO_TO_THE_32
      requires pos + 16 + |old_| + |new_| <= logBuffer.Length
      modifies logBuffer
      ensures logBuffer[..] == Splice(old(logBuffer[..]), pos, RidBytes(rid) + TupleBytes(old_) + TupleBytes(new_))
    {
      ghost var was := logBuffer[..];
      CopyRidAndTuple(pos, rid, old_);
      CopyTuple(pos + 12 + |old_|, new_);
      SpliceTwice(was, pos, RidBytes(rid) + TupleBytes(old_), TupleBytes(new_));
    }

    method CopyPageIds(pos: nat, prev: int, page: int)
      requires IsInt32(prev) && IsInt32(page) && pos + 8 <= logBuffer.Length
      modifies logBuffer
      ensures logBuffer[..] == Splice(old(logBuffer[..]), pos, I32(prev) + I32(page))
    {
      ghost var was := logBuffer[..];
      var prevInBytes := I32ToBytes(prev);
      Copy(pos, prevInBytes);
      var pageInBytes := I32ToBytes(page);
      Copy(pos + 4, pageInBytes);
      SpliceTwice(was, pos, I32(prev), I32(page));
    }

    /** The part of a record after its header, one case per record type. */
    method CopyBody(pos: nat, b: Body)
      requires StorableBody(b) && pos + Size(b) - HEADER_SIZE <= logBuffer.Length
      modifies logBuffer
      ensures logBuffer[..] == Splice(old(logBuffer[..]), pos, BodyBytes(b))
    {
      match b
      case Insert(rid, data) => CopyRidAndTuple(pos, rid, data);
      case ApplyDelete(rid, data) => CopyRidAndTuple(pos, rid, data);
      case MarkDelete(rid, data) => CopyRidAndTuple(pos, rid, data);
      case RollbackDelete(rid, data) => CopyRidAndTuple(pos, rid, data);
      case Update(rid, old_, new_) => CopyUpdate(pos, rid, old_, new_);
      case NewTablePage(prev, page) => CopyPageIds(pos, prev, page);
      case DeallocatePage(page) => var bytes := I32ToBytes(page); Copy(pos, bytes);
      case ReusePage(page) => var bytes := I32ToBytes(page); Copy(pos, bytes);
      case Begin | Commit | Abort | GracefulShutdown => assert logBuffer[..] == Splice(logBuffer[..], pos, []);
    }

    /** The record gets the next number (unless it takes none) and becomes the last record of
      * the log; what was appended before is neither lost nor moved. */
    method AppendLogRecord(r: Record) returns (lsn: int)
      requires Valid() && nextLsn < TWO_TO_THE_31 - 1
      requires IsInt32(r.txn) && IsInt32(r.prevLsn) && StorableBody(r.body)
      modifies this, logBuffer, flushBuffer
      ensures Valid() && SameBuffers(old(logBuffer), old(flushBuffer))
      ensures durable + pending == old(durable + pending) + [Stamp(r, old(nextLsn))]
      ensures durable == old(durable) || durable == old(durable + pending)
      ensures lsn == if r.lsn != -1 then old(nextLsn) else -1
      ensures nextLsn == old(nextLsn) + if r.lsn != -1 then 1 else 0
    {
      var rec := Stamp(r, nextLsn);
      MakeHeaderRoom();
      MakeRoom(rec);
      ghost var d, p := durable, pending;
      Append(r, rec);
      Associates(d, p, rec);
      lsn := rec.lsn;
    }

    method MakeHeaderRoom()
      requires Valid()
      modifies this
      ensures Valid() && SameBuffers(old(logBuffer), old(flushBuffer))
      ensures durable + pending == old(durable + pending) && nextLsn == old(nextLsn)
      ensures durable == old(durable) || durable == old(durable + pending)
      ensures offset + HEADER_SIZE <= LOG_BUFFER_SIZE
    {
      if LOG_BUFFER_SIZE - offset < HEADER_SIZE {
        Flush();
        assert durable + pending == old(durable + pending);
      }
    }

    /** Writes the header; if the record does not fit, what has been appended goes to the log
      * file without that header, which is then written again at the start of the buffer. */
    method MakeRoom(rec: Record)
      requires Valid() && Storable(rec) && offset + HEADER_SIZE <= LOG_BUFFER_SIZE
      modifies this, logBuffer, flushBuffer
      ensures Valid() && SameBuffers(old(logBuffer), old(flushBuffer))
      ensures durable + pending == old(durable + pending) && nextLsn == old(nextLsn)
      ensures durable == old(durable) || durable == old(durable + pending)
      ensures offset + Size(rec.body) <= LOG_BUFFER_SIZE
      ensures logBuffer[offset..offset + HEADER_SIZE] == HeaderBytes(rec)
    {
      var header := HeaderToBytes(rec);
      StageHeader(header);
      if LOG_BUFFER_SIZE - offset < Size(rec.body) {
        Flush();
        StageHeader(header);
      }
    }

    /** The header goes behind the buffered records without becoming part of them. */
    method StageHeader(header: seq<byte>)
      requires Valid() && |header| == HEADER_SIZE && offset + HEADER_SIZE <= LOG_BUFFER_SIZE
      modifies logBuffer
      ensures Valid() && logBuffer[offset..offset + HEADER_SIZE] == header
    {
      Copy(offset, header);
      assert logBuffer[..offset] == old(logBuffer[..offset]);
      assert logBuffer[offset..offset + HEADER_SIZE] == header;
    }

    /** The body goes behind its header. */
    method CompleteRecord(pos: nat, rec: Record)
      requires Storable(rec) && pos + Size(rec.body) <= logBuffer.Length
      requires logBuffer[pos..pos + HEADER_SIZE] == HeaderBytes(rec)
      modifies logBuffer
      ensures logBuffer[..pos + Size(rec.body)] == old(logBuffer[..pos]) + Encode(rec)
    {
      ghost var before := logBuffer[..];
      CopyBody(pos + HEADER_SIZE, rec.body);
      AppendedBytes(before, pos, HeaderBytes(rec), BodyBytes(rec.body));
      assert logBuffer[..pos + Size(rec.body)] == logBuffer[..][..pos + Size(rec.body)];
      assert before[..pos] == old(logBuffer[..pos]);
    }

    /** The rest of an append, once the header is in place and there is room. */
    method Append(ghost r: Record, rec: Record)
      requires Valid() && rec == Stamp(r, nextLsn) && Storable(rec) && offset + Size(rec.body) <= LOG_BUFFER_SIZE
      requires logBuffer[offset..offset + HEADER_SIZE] == HeaderBytes(rec)
      modifies this`logBufferLsn, this`nextLsn, this`offset, this`pending, logBuffer
      ensures Valid() && pending == old(pending) + [rec]
      ensures nextLsn == old(nextLsn) + if rec.lsn != -1 then 1 else 0
    {
      HoldsAppended(durable, pending, logFile, logBuffer[..offset], rec);
      CountersAppended(durable, pending, nextLsn, logBufferLsn, persistentLsn, r);
      if rec.lsn != -1 {
        nextLsn := nextLsn + 1;
        logBufferLsn := rec.lsn;
      }
      CompleteRecord(offset, rec);
      offset := offset + Size(rec.body);
      pending := pending + [rec];
    }
  }

  lemma Associates(a: seq<Record>, b: seq<Record>, r: Record)
    ensures a + (b + [r]) == (a + b) + [r]
  {
  }

  lemma AppendedBytes(s: seq<byte>, o: nat, h: seq<byte>, b: seq<byte>)
    requires o + |h| + |b| <= |s| && s[o..o + |h|] == h
    ensures Splice(s, o + |h|, b)[..o + |h| + |b|] == s[..o] + (h + b)
  {
    assert s[..o + |h|] == s[..o] + h;
  }
}
