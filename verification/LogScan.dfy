/** Reading the log file back: the loop of the redo scan, one buffer-sized read at a time. */
module LogScan {
  import opened Bytes
  import opened LockTable
  import opened LogCodec
  import opened LogManager

  /** Where record `i` starts in the file. */
  function Offset(rs: seq<Record>, i: nat): (o: nat)
    requires i <= |rs|
  {
    if i == 0 then 0 else Offset(rs, i - 1) + Size(rs[i - 1].body)
  }

  function Min(a: nat, b: nat): nat { if a < b then a else b }

  /** A read that started at `from` ends here. */
  function ReadEnd(total: nat, from: nat): nat { Min(from + LOG_BUFFER_SIZE, total) }

  /** No read ends inside the body of a record.  Record `i` is reached by the read that
    * started at `from`; a read that ends before or inside its header is followed by one
    * that starts with it. */
  predicate Aligned(rs: seq<Record>, i: nat, from: nat)
    requires i <= |rs|
    decreases |rs| - i
  {
    if i == |rs| then true
    else
      var end := ReadEnd(Offset(rs, |rs|), from);
      if end < Offset(rs, i) + HEADER_SIZE then Aligned(rs, i + 1, Offset(rs, i))
      else Offset(rs, i + 1) <= end && Aligned(rs, i + 1, from)
  }

  lemma {:induction false} OffsetIsLength(rs: seq<Record>, i: nat)
    requires AllStorable(rs) && i <= |rs|
    ensures Offset(rs, i) == |EncodeAll(rs[..i])|
  {
    if i > 0 {
      OffsetIsLength(rs, i - 1);
      assert rs[..i] == rs[..i - 1] + [rs[i - 1]];
      EncodeAppend(rs[..i - 1], rs[i - 1]);
    }
  }

  lemma {:induction false} OffsetMonotone(rs: seq<Record>, i: nat, j: nat)
    requires i <= j <= |rs|
    ensures Offset(rs, i) + HEADER_SIZE * (j - i) <= Offset(rs, j)
    decreases j
  {
    if i < j { OffsetMonotone(rs, i, j - 1); }
  }

  lemma LogFrom(rs: seq<Record>, i: nat)
    requires AllStorable(rs) && i <= |rs|
    ensures Offset(rs, i) <= |EncodeAll(rs)| == Offset(rs, |rs|)
    ensures EncodeAll(rs)[Offset(rs, i)..] == EncodeAll(rs[i..])
  {
    OffsetIsLength(rs, i);
    OffsetIsLength(rs, |rs|);
    assert rs[..|rs|] == rs;
    EncodeAt(rs, i);
  }

  /** What the decoder sees at the start of record `i` when `n` bytes from there were read. */
  lemma DecodeAt(rs: seq<Record>, i: nat, n: nat)
    requires AllStorable(rs) && i < |rs| && n <= |EncodeAll(rs[i..])|
    ensures Decode(EncodeAll(rs[i..])[..n]) ==
            if n < HEADER_SIZE then Stop else if n < Size(rs[i].body) then Cut else Got(rs[i], Size(rs[i].body))
  {
    EncodeFrom(rs, i);
    DecodeEncoded(rs[i], EncodeAll(rs[i + 1..]), n);
  }

  lemma SubSlice(s: seq<byte>, from: nat, at: nat, end: nat)
    requires from + at <= end <= |s|
    ensures s[from..end][at..] == s[from + at..][..end - from - at]
  {
  }

  /** The whole log read at once is always aligned. */
  lemma {:induction false} OneReadIsAligned(rs: seq<Record>, i: nat)
    requires i <= |rs| && Offset(rs, |rs|) <= LOG_BUFFER_SIZE
    ensures Aligned(rs, i, 0)
    decreases |rs| - i
  {
    if i < |rs| {
      OffsetMonotone(rs, i + 1, |rs|);
      OneReadIsAligned(rs, i + 1);
    }
  }

  /** A record that starts before the end of the first read, header included, and ends behind
    * it breaks the scan, whatever comes after. */
  lemma {:induction false} CutIsNotAligned(rs: seq<Record>, i: nat, k: nat)
    requires i <= k < |rs|
    requires Offset(rs, k) + HEADER_SIZE <= LOG_BUFFER_SIZE < Offset(rs, k + 1)
    ensures !Aligned(rs, i, 0)
    decreases k - i
  {
    OffsetMonotone(rs, k + 1, |rs|);
    OffsetMonotone(rs, i, k);
    if i < k {
      OffsetMonotone(rs, i + 1, k);
      CutIsNotAligned(rs, i + 1, k);
    }
  }

  /** The record the next read starts with is read whole. */
  lemma RestartKeepsAligned(rs: seq<Record>, i: nat, from: nat)
    requires AllStorable(rs) && i < |rs|
    requires ReadEnd(Offset(rs, |rs|), from) < Offset(rs, i) + HEADER_SIZE
    ensures Aligned(rs, i, Offset(rs, i)) == Aligned(rs, i, from)
  {
    OffsetMonotone(rs, i + 1, |rs|);
  }

  /** `lsn_mapping` after the first `i` records. */
  ghost predicate Maps(m: map<int, int>, rs: seq<Record>, i: nat)
    requires i <= |rs|
  {
    forall j :: 0 <= j < i && rs[j].lsn != -1 ==> rs[j].lsn in m && m[rs[j].lsn] == Offset(rs, j)
  }

  lemma MapsNext(m: map<int, int>, rs: seq<Record>, i: nat)
    requires Numbered(rs) && i < |rs| && Maps(m, rs, i)
    ensures Maps(m[rs[i].lsn := Offset(rs, i)], rs, i + 1)
  {
    forall j | 0 <= j < i && rs[j].lsn != -1 && rs[i].lsn != -1 ensures rs[j].lsn < rs[i].lsn {
      NumberedInOrder(rs, j, i);
    }
  }

  datatype Scanned = Panicked | Read(records: seq<Record>, lsnMapping: map<int, int>)

  ghost predicate ScanOk(rs: seq<Record>, r: Scanned) {
    if Aligned(rs, 0, 0) then r.Read? && r.records == rs && Maps(r.lsnMapping, rs, |rs|) else r.Panicked?
  }

  /** Between two reads: the records found, the offset behind them, and where they start. */
  ghost predicate Between(rs: seq<Record>, found: seq<Record>, at: nat, m: map<int, int>) {
    && |found| <= |rs| && found == rs[..|found|]
    && at == Offset(rs, |found|) && Maps(m, rs, |found|)
    && Aligned(rs, |found|, at) == Aligned(rs, 0, 0)
  }

  lemma BetweenAtStart(rs: seq<Record>)
    ensures Between(rs, [], 0, map[])
  {
    assert rs[..0] == [];
  }

  lemma BetweenAtEnd(rs: seq<Record>, found: seq<Record>, at: nat, m: map<int, int>)
    requires Between(rs, found, at, m)
    ensures at <= Offset(rs, |rs|) && (at < Offset(rs, |rs|) <==> |found| < |rs|)
    ensures at == Offset(rs, |rs|) ==> found == rs && Maps(m, rs, |rs|) && Aligned(rs, 0, 0)
  {
    OffsetMonotone(rs, |found|, |rs|);
    assert rs[..|rs|] == rs;
  }

  /** The scan returns exactly the records that were appended, in order, and where each of
    * them starts, if and only if no read ends inside a record. */
  method ScanLog(file: seq<byte>, ghost rs: seq<Record>) returns (r: Scanned)
    requires AllStorable(rs) && Numbered(rs) && file == EncodeAll(rs)
    ensures ScanOk(rs, r)
  {
    var fileOffset, records, lsnMapping := 0, [], map[];
    LogFrom(rs, |rs|);
    BetweenAtStart(rs);
    while fileOffset < |file|
      invariant Between(rs, records, fileOffset, lsnMapping)
      decreases |file| - fileOffset
    {
      BetweenAtEnd(rs, records, fileOffset, lsnMapping);
      var r', n := ScanRead(file, fileOffset, records, lsnMapping, rs);
      if r'.Panicked? { return Panicked; }
      records, lsnMapping := r'.records, r'.lsnMapping;
      fileOffset := fileOffset + n;
      BetweenAtEnd(rs, records, fileOffset, lsnMapping);
    }
    BetweenAtEnd(rs, records, fileOffset, lsnMapping);
    return Read(records, lsnMapping);
  }

  /** The read that started at `from` with record `start` has been decoded up to offset `at`. */
  ghost predicate Progress(rs: seq<Record>, from: nat, start: nat, records: seq<Record>, at: nat, m: map<int, int>) {
    var i := |records|;
    && start <= i <= |rs| && records == rs[..i]
    && from + at == Offset(rs, i) && (at == 0 <==> i == start)
    && Maps(m, rs, i)
    && Aligned(rs, i, from) == Aligned(rs, start, from)
  }

  lemma ProgressNext(rs: seq<Record>, from: nat, start: nat, records: seq<Record>, at: nat, m: map<int, int>)
    requires Progress(rs, from, start, records, at, m) && Numbered(rs) && |records| < |rs|
    requires Offset(rs, |records| + 1) <= ReadEnd(Offset(rs, |rs|), from)
    ensures var r := rs[|records|];
            Progress(rs, from, start, records + [r], at + Size(r.body), m[r.lsn := from + at])
  {
    var i := |records|;
    MapsNext(m, rs, i);
    assert records + [rs[i]] == rs[..i + 1];
    assert Offset(rs, i + 1) == Offset(rs, i) + Size(rs[i].body);
  }

  /** What the decoder says at the start of record `i` of the read that started at `from`. */
  ghost function Seen(rs: seq<Record>, i: nat, from: nat): Decoded
    requires i <= |rs|
  {
    var end := ReadEnd(Offset(rs, |rs|), from);
    if i == |rs| || end < Offset(rs, i) + HEADER_SIZE then Stop
    else if end < Offset(rs, i + 1) then Cut
    else Got(rs[i], Size(rs[i].body))
  }

  /** The bytes of the read that starts at `from`. */
  ghost predicate IsRead(rs: seq<Record>, from: nat, read: seq<byte>)
    requires AllStorable(rs)
  {
    && |EncodeAll(rs)| == Offset(rs, |rs|) && from <= |EncodeAll(rs)|
    && read == EncodeAll(rs)[from..ReadEnd(|EncodeAll(rs)|, from)]
  }

  /** The inner loop: one read, decoded until no whole record is left of it. */
  method ScanRead(file: seq<byte>, from: nat, found: seq<Record>, mapping: map<int, int>, ghost rs: seq<Record>)
    returns (r: Scanned, bufferOffset: nat)
    requires AllStorable(rs) && Numbered(rs) && file == EncodeAll(rs)
    requires Between(rs, found, from, mapping) && |found| < |rs| && from <= |file| == Offset(rs, |rs|)
    ensures r.Panicked? ==> !Aligned(rs, 0, 0)
    ensures r.Read? ==> bufferOffset > 0 && Between(rs, r.records, from + bufferOffset, r.lsnMapping)
  {
    var logBuffer := file[from..ReadEnd(|file|, from)];
    var records, lsnMapping, cut;
    records, lsnMapping, bufferOffset, cut := DecodeRead(logBuffer, from, found, mapping, rs);
    if cut {
      CutIsFound(rs, from, |found|, records, bufferOffset, lsnMapping);
      return Panicked, bufferOffset;
    }
    ReadIsDone(rs, from, |found|, records, bufferOffset, lsnMapping);
    return Read(records, lsnMapping), bufferOffset;
  }

  method DecodeRead(logBuffer: seq<byte>, from: nat, found: seq<Record>, mapping: map<int, int>, ghost rs: seq<Record>)
    returns (records: seq<Record>, lsnMapping: map<int, int>, bufferOffset: nat, cut: bool)
    requires AllStorable(rs) && Numbered(rs) && IsRead(rs, from, logBuffer)
    requires Between(rs, found, from, mapping) && |found| < |rs|
    ensures Progress(rs, from, |found|, records, bufferOffset, lsnMapping)
    ensures if cut then Seen(rs, |records|, from).Cut? else Seen(rs, |records|, from).Stop?
  {
    ghost var start := |found|;
    records, lsnMapping, bufferOffset := found, mapping, 0;
    ProgressAtStart(rs, from, found, mapping);
    var d := DecodeNext(logBuffer, 0, from, rs, start);
    while d.Got?
      invariant Progress(rs, from, start, records, bufferOffset, lsnMapping)
      invariant d == Seen(rs, |records|, from)
      decreases |rs| - |records|
    {
      ProgressGot(rs, from, start, records, bufferOffset, lsnMapping, d);
      lsnMapping := lsnMapping[d.record.lsn := from + bufferOffset];
      records := records + [d.record];
      bufferOffset := bufferOffset + d.size;
      ProgressAt(rs, from, start, records, bufferOffset, lsnMapping);
      d := DecodeNext(logBuffer, bufferOffset, from, rs, |records|);
    }
    cut := d.Cut?;
  }

  method DecodeNext(read: seq<byte>, at: nat, from: nat, ghost rs: seq<Record>, ghost i: nat) returns (d: Decoded)
    requires AllStorable(rs) && i <= |rs| && from + at == Offset(rs, i) && IsRead(rs, from, read)
    requires from + at <= ReadEnd(Offset(rs, |rs|), from)
    ensures d == Seen(rs, i, from)
  {
    Decodes(rs, i, from, at, read);
    d := Decode(read[at..]);
  }

  lemma ProgressAt(rs: seq<Record>, from: nat, start: nat, records: seq<Record>, at: nat, m: map<int, int>)
    requires Progress(rs, from, start, records, at, m)
    ensures |records| <= |rs| && from + at == Offset(rs, |records|)
  {
  }

  lemma ProgressAtStart(rs: seq<Record>, from: nat, found: seq<Record>, m: map<int, int>)
    requires AllStorable(rs) && Between(rs, found, from, m) && |found| < |rs|
    ensures Progress(rs, from, |found|, found, 0, m) && from <= ReadEnd(Offset(rs, |rs|), from)
  {
    OffsetMonotone(rs, |found|, |rs|);
  }

  lemma ProgressGot(rs: seq<Record>, from: nat, start: nat, records: seq<Record>, at: nat, m: map<int, int>, d: Decoded)
    requires Progress(rs, from, start, records, at, m) && Numbered(rs) && d == Seen(rs, |records|, from) && d.Got?
    ensures Progress(rs, from, start, records + [d.record], at + d.size, m[d.record.lsn := from + at])
    ensures |records| < |rs| && from + at + d.size <= ReadEnd(Offset(rs, |rs|), from)
  {
    ProgressNext(rs, from, start, records, at, m);
  }

  lemma CutIsFound(rs: seq<Record>, from: nat, start: nat, records: seq<Record>, at: nat, m: map<int, int>)
    requires Progress(rs, from, start, records, at, m) && Seen(rs, |records|, from).Cut?
    ensures !Aligned(rs, start, from)
  {
  }

  lemma ReadIsDone(rs: seq<Record>, from: nat, start: nat, records: seq<Record>, at: nat, m: map<int, int>)
    requires AllStorable(rs) && Progress(rs, from, start, records, at, m) && start < |rs| && from == Offset(rs, start)
    requires Seen(rs, |records|, from).Stop? && Aligned(rs, start, from) == Aligned(rs, 0, 0)
    ensures at > 0 && Between(rs, records, from + at, m)
  {
    FirstIsWhole(rs, start);
    OffsetMonotone(rs, |records|, |rs|);
    if |records| < |rs| { RestartKeepsAligned(rs, |records|, from); }
  }

  lemma FirstIsWhole(rs: seq<Record>, i: nat)
    requires AllStorable(rs) && i < |rs|
    ensures Offset(rs, i + 1) <= ReadEnd(Offset(rs, |rs|), Offset(rs, i))
  {
    OffsetMonotone(rs, i + 1, |rs|);
  }

  lemma Decodes(rs: seq<Record>, i: nat, from: nat, at: nat, read: seq<byte>)
    requires AllStorable(rs) && i <= |rs| && from + at == Offset(rs, i) && |EncodeAll(rs)| == Offset(rs, |rs|)
    requires from <= |EncodeAll(rs)| && read == EncodeAll(rs)[from..ReadEnd(|EncodeAll(rs)|, from)] && at <= |read|
    ensures Decode(read[at..]) == Seen(rs, i, from)
  {
    var end := ReadEnd(Offset(rs, |rs|), from);
    if i < |rs| {
      RestOfRead(rs, i, from, at, read);
      DecodeAt(rs, i, end - from - at);
    } else {
      LogFrom(rs, i);
      DecodeNothing(read[at..]);
    }
  }

  lemma DecodeNothing(s: seq<byte>)
    requires s == []
    ensures Decode(s) == Stop
  {
  }

  lemma RestOfRead(rs: seq<Record>, i: nat, from: nat, at: nat, read: seq<byte>)
    requires AllStorable(rs) && i <= |rs| && from + at == Offset(rs, i) && |EncodeAll(rs)| == Offset(rs, |rs|)
    requires from <= |EncodeAll(rs)| && read == EncodeAll(rs)[from..ReadEnd(|EncodeAll(rs)|, from)] && at <= |read|
    ensures var n := ReadEnd(Offset(rs, |rs|), from) - from - at;
            n <= |EncodeAll(rs[i..])| && read[at..] == EncodeAll(rs[i..])[..n]
  {
    LogFrom(rs, i);
    SubSlice(EncodeAll(rs), from, at, ReadEnd(Offset(rs, |rs|), from));
  }

  /** Undo finds every record again where the scan said it is. */
  lemma UndoFindsRecord(rs: seq<Record>, m: map<int, int>, i: nat)
    requires AllStorable(rs) && Maps(m, rs, |rs|) && i < |rs| && rs[i].lsn != -1
    ensures rs[i].lsn in m && m[rs[i].lsn] < |EncodeAll(rs)|
    ensures var o := m[rs[i].lsn];
            Decode(EncodeAll(rs)[o..ReadEnd(|EncodeAll(rs)|, o)]) == Got(rs[i], Size(rs[i].body))
  {
    FirstIsWhole(rs, i);
    OffsetMonotone(rs, i + 1, |rs|);
    LogFrom(rs, i);
    var o := Offset(rs, i);
    var end := ReadEnd(Offset(rs, |rs|), o);
    Decodes(rs, i, o, 0, EncodeAll(rs)[o..end]);
    assert EncodeAll(rs)[o..end][0..] == EncodeAll(rs)[o..end];
  }
}
