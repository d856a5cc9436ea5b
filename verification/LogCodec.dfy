/** Byte strings laid end to end. */
module Streams {
  import opened Bytes

  function Flatten(cs: seq<seq<byte>>): (s: seq<byte>) {
    if cs == [] then [] else Flatten(cs[..|cs| - 1]) + cs[|cs| - 1]
  }

  lemma {:induction false} FlattenSplit(a: seq<seq<byte>>, b: seq<seq<byte>>)
    ensures Flatten(a + b) == Flatten(a) + Flatten(b)
  {
    if b == [] {
      assert a + b == a;
    } else {
      var n := |b| - 1;
      FlattenSplit(a, b[..n]);
      assert (a + b)[..|a + b| - 1] == a + b[..n];
    }
  }

  lemma FlattenOne(c: seq<byte>)
    ensures Flatten([c]) == c
  {
    assert [c][..0] == [];
    assert Flatten([]) + c == c;
  }
}

/** Log records as bytes: the layouts, the decoder of the recovery scan, and the round trip. */
module LogCodec {
  import opened Bytes
  import opened LockTable
  import opened Streams

  const HEADER_SIZE := 20
  const LOG_BUFFER_SIZE := 528384  // (128 + 1) pages of 4096 bytes

  datatype Body =
    | Insert(rid: RID, data: seq<byte>)
    | MarkDelete(rid: RID, data: seq<byte>)
    | ApplyDelete(rid: RID, data: seq<byte>)
    | RollbackDelete(rid: RID, data: seq<byte>)
    | Update(rid: RID, old_: seq<byte>, new_: seq<byte>)
    | Begin
    | Commit
    | Abort
    | NewTablePage(prevPage: int, page: int)
    | DeallocatePage(page: int)
    | ReusePage(page: int)
    | GracefulShutdown
    | Unknown(code: int)

  datatype Record = Record(lsn: int, txn: int, prevLsn: int, body: Body)

  function TypeCode(b: Body): int {
    match b
    case Insert(_, _) => 1
    case MarkDelete(_, _) => 2
    case ApplyDelete(_, _) => 3
    case RollbackDelete(_, _) => 4
    case Update(_, _, _) => 5
    case Begin => 6
    case Commit => 7
    case Abort => 8
    case NewTablePage(_, _) => 9
    case DeallocatePage(_) => 10
    case ReusePage(_) => 11
    case GracefulShutdown => 12
    case Unknown(code) => code
  }

  function Size(b: Body): (n: nat)
    ensures n >= HEADER_SIZE
  {
    match b
    case Insert(_, data) => HEADER_SIZE + 12 + |data|
    case MarkDelete(_, data) => HEADER_SIZE + 12 + |data|
    case ApplyDelete(_, data) => HEADER_SIZE + 12 + |data|
    case RollbackDelete(_, data) => HEADER_SIZE + 12 + |data|
    case Update(_, old_, new_) => HEADER_SIZE + 8 + |old_| + |new_| + 8
    case NewTablePage(_, _) => HEADER_SIZE + 8
    case DeallocatePage(_) => HEADER_SIZE + 4
    case ReusePage(_) => HEADER_SIZE + 4
    case _ => HEADER_SIZE
  }

  predicate IsInt32(x: int) { -TWO_TO_THE_31 <= x < TWO_TO_THE_31 }

  predicate IsRid(rid: RID) { IsInt32(rid.page) && rid.slot < TWO_TO_THE_32 }

  /** Every field has its machine width, and the record fits the log buffer. */
  predicate StorableBody(b: Body) {
    && Size(b) <= LOG_BUFFER_SIZE
    && match b
       case Insert(rid, _) => IsRid(rid)
       case MarkDelete(rid, _) => IsRid(rid)
       case ApplyDelete(rid, _) => IsRid(rid)
       case RollbackDelete(rid, _) => IsRid(rid)
       case Update(rid, _, _) => IsRid(rid)
       case NewTablePage(prev, page) => IsInt32(prev) && IsInt32(page)
       case DeallocatePage(page) => IsInt32(page)
       case ReusePage(page) => IsInt32(page)
       case Unknown(_) => false
       case _ => true
  }

  predicate Storable(r: Record) {
    IsInt32(r.lsn) && IsInt32(r.txn) && IsInt32(r.prevLsn) && StorableBody(r.body)
  }

  // ---- encoding ----

  ghost function I32(x: int): (s: seq<byte>)
    requires IsInt32(x)
    ensures |s| == 4
  {
    EncodeU32(Unsigned(x))
  }

  ghost function RidBytes(rid: RID): (s: seq<byte>)
    requires IsRid(rid)
    ensures |s| == 8
  {
    I32(rid.page) + EncodeU32(rid.slot)
  }

  ghost function TupleBytes(data: seq<byte>): (s: seq<byte>)
    requires |data| < TWO_TO_THE_32
    ensures |s| == 4 + |data|
  {
    EncodeU32(|data|) + data
  }

  ghost function HeaderBytes(r: Record): (s: seq<byte>)
    requires Storable(r)
    ensures |s| == HEADER_SIZE
  {
    EncodeU32(Size(r.body)) + I32(r.lsn) + I32(r.txn) + I32(r.prevLsn) + I32(TypeCode(r.body))
  }

  ghost function BodyBytes(b: Body): (s: seq<byte>)
    requires StorableBody(b)
    ensures |s| == Size(b) - HEADER_SIZE
  {
    match b
    case Insert(rid, data) => RidBytes(rid) + TupleBytes(data)
    case MarkDelete(rid, data) => RidBytes(rid) + TupleBytes(data)
    case ApplyDelete(rid, data) => RidBytes(rid) + TupleBytes(data)
    case RollbackDelete(rid, data) => RidBytes(rid) + TupleBytes(data)
    case Update(rid, old_, new_) => RidBytes(rid) + TupleBytes(old_) + TupleBytes(new_)
    case NewTablePage(prev, page) => I32(prev) + I32(page)
    case DeallocatePage(page) => I32(page)
    case ReusePage(page) => I32(page)
    case _ => []
  }

  ghost function Encode(r: Record): (s: seq<byte>)
    requires Storable(r)
    ensures |s| == Size(r.body)
  {
    HeaderBytes(r) + BodyBytes(r.body)
  }

  ghost predicate AllStorable(rs: seq<Record>) {
    forall i :: 0 <= i < |rs| ==> Storable(rs[i])
  }

  ghost function Encodings(rs: seq<Record>): seq<seq<byte>>
    requires AllStorable(rs)
  {
    seq(|rs|, i requires 0 <= i < |rs| => Encode(rs[i]))
  }

  /** The log: the encodings one after the other. */
  ghost function EncodeAll(rs: seq<Record>): (s: seq<byte>)
    requires AllStorable(rs)
  {
    Flatten(Encodings(rs))
  }

  // ---- decoding ----

  function I32At(s: seq<byte>, o: nat): (x: int)
    requires o + 4 <= |s|
    ensures IsInt32(x)
  {
    Signed(U32At(s, o))
  }

  function RidAt(s: seq<byte>, o: nat): (rid: RID)
    requires o + 8 <= |s|
  {
    RID(I32At(s, o), U32At(s, o + 4))
  }

  /** `Stop`: too few bytes for a header, or a size of zero.  `Cut`: the record runs past the
    * bytes read; the scan then slices beyond them, which is a run-time panic. */
  datatype Decoded = Stop | Cut | Got(record: Record, size: nat)

  /** The tuple stored at `o`, when all of it is there. */
  datatype TupleRead = NoTuple | TupleRead(data: seq<byte>)

  function TupleAt(s: seq<byte>, o: nat): (t: TupleRead) {
    if o + 4 > |s| || o + 4 + U32At(s, o) > |s| then NoTuple
    else TupleRead(s[o + 4..o + 4 + U32At(s, o)])
  }

  datatype BodyRead = BadBody | BodyRead(body: Body)

  function RidAndTuple(s: seq<byte>, build: (RID, seq<byte>) -> Body): (b: BodyRead) {
    if |s| < HEADER_SIZE + 8 then BadBody
    else match TupleAt(s, HEADER_SIZE + 8)
      case NoTuple => BadBody
      case TupleRead(data) => BodyRead(build(RidAt(s, HEADER_SIZE), data))
  }

  function UpdateBody(s: seq<byte>): (b: BodyRead) {
    if |s| < HEADER_SIZE + 8 then BadBody
    else match TupleAt(s, HEADER_SIZE + 8)
      case NoTuple => BadBody
      case TupleRead(old_) =>
        match TupleAt(s, HEADER_SIZE + 12 + |old_|)
        case NoTuple => BadBody
        case TupleRead(new_) => BodyRead(Update(RidAt(s, HEADER_SIZE), old_, new_))
  }

  /** The part after the header; an unknown type leaves only a header. */
  function BodyOf(s: seq<byte>, code: int): (b: BodyRead)
    requires |s| >= HEADER_SIZE
  {
    match code
    case 1 => RidAndTuple(s, (r, d) => Insert(r, d))
    case 2 => RidAndTuple(s, (r, d) => MarkDelete(r, d))
    case 3 => RidAndTuple(s, (r, d) => ApplyDelete(r, d))
    case 4 => RidAndTuple(s, (r, d) => RollbackDelete(r, d))
    case 5 => UpdateBody(s)
    case 6 => BodyRead(Begin)
    case 7 => BodyRead(Commit)
    case 8 => BodyRead(Abort)
    case 9 => if |s| < HEADER_SIZE + 8 then BadBody
              else BodyRead(NewTablePage(I32At(s, HEADER_SIZE), I32At(s, HEADER_SIZE + 4)))
    case 10 => if |s| < HEADER_SIZE + 4 then BadBody else BodyRead(DeallocatePage(I32At(s, HEADER_SIZE)))
    case 11 => if |s| < HEADER_SIZE + 4 then BadBody else BodyRead(ReusePage(I32At(s, HEADER_SIZE)))
    case 12 => BodyRead(GracefulShutdown)
    case _ => BodyRead(Unknown(code))
  }

  function Decode(s: seq<byte>): (d: Decoded) {
    if |s| < HEADER_SIZE || U32At(s, 0) == 0 then Stop
    else if U32At(s, 0) > |s| then Cut
    else match BodyOf(s, I32At(s, 16))
      case BadBody => Cut
      case BodyRead(body) => Got(Record(I32At(s, 4), I32At(s, 8), I32At(s, 12), body), U32At(s, 0))
  }

  // ---- the round trip ----

  lemma FieldReads(s: seq<byte>, o: nat, u: int)
    requires 0 <= u < TWO_TO_THE_32 && o + 4 <= |s| && s[o..o + 4] == EncodeU32(u)
    ensures U32At(s, o) == u
  {
    var b := s[o..o + 4];
    assert b[0] == s[o] && b[1] == s[o + 1] && b[2] == s[o + 2] && b[3] == s[o + 3];
  }

  lemma I32Reads(s: seq<byte>, o: nat, x: int)
    requires IsInt32(x) && o + 4 <= |s| && s[o..o + 4] == I32(x)
    ensures I32At(s, o) == x
  {
    FieldReads(s, o, Unsigned(x));
  }

  lemma RidReads(s: seq<byte>, o: nat, rid: RID)
    requires IsRid(rid) && o + 8 <= |s| && s[o..o + 8] == RidBytes(rid)
    ensures RidAt(s, o) == rid
  {
    assert s[o..o + 4] == s[o..o + 8][..4];
    I32Reads(s, o, rid.page);
    assert s[o + 4..o + 8] == s[o..o + 8][4..];
    FieldReads(s, o + 4, rid.slot);
  }

  lemma TupleReads(s: seq<byte>, o: nat, data: seq<byte>)
    requires |data| < TWO_TO_THE_32 && o + 4 + |data| <= |s| && s[o..o + 4 + |data|] == TupleBytes(data)
    ensures TupleAt(s, o) == TupleRead(data)
  {
    var t := s[o..o + 4 + |data|];
    assert s[o..o + 4] == t[..4];
    FieldReads(s, o, |data|);
    assert s[o + 4..o + 4 + |data|] == t[4..];
  }

  lemma HeaderReads(r: Record, s: seq<byte>)
    requires Storable(r) && |s| >= HEADER_SIZE && s[..HEADER_SIZE] == HeaderBytes(r)
    ensures U32At(s, 0) == Size(r.body) && I32At(s, 4) == r.lsn && I32At(s, 8) == r.txn
    ensures I32At(s, 12) == r.prevLsn && I32At(s, 16) == TypeCode(r.body)
  {
    var h := s[..HEADER_SIZE];
    assert s[0..4] == h[0..4] == EncodeU32(Size(r.body));
    assert s[4..8] == h[4..8] == I32(r.lsn);
    assert s[8..12] == h[8..12] == I32(r.txn);
    assert s[12..16] == h[12..16] == I32(r.prevLsn);
    assert s[16..20] == h[16..20] == I32(TypeCode(r.body));
    FieldReads(s, 0, Size(r.body));
    I32Reads(s, 4, r.lsn);
    I32Reads(s, 8, r.txn);
    I32Reads(s, 12, r.prevLsn);
    I32Reads(s, 16, TypeCode(r.body));
  }

  /** The bytes of `b` right after a header. */
  ghost predicate Carries(s: seq<byte>, b: seq<byte>) {
    HEADER_SIZE + |b| <= |s| && s[HEADER_SIZE..HEADER_SIZE + |b|] == b
  }

  lemma RidAndTupleReads(s: seq<byte>, rid: RID, data: seq<byte>)
    requires IsRid(rid) && |data| < TWO_TO_THE_32 && Carries(s, RidBytes(rid) + TupleBytes(data))
    ensures RidAt(s, HEADER_SIZE) == rid && TupleAt(s, HEADER_SIZE + 8) == TupleRead(data)
  {
    var b := RidBytes(rid) + TupleBytes(data);
    assert s[HEADER_SIZE..HEADER_SIZE + 8] == b[..8];
    RidReads(s, HEADER_SIZE, rid);
    assert s[HEADER_SIZE + 8..HEADER_SIZE + 12 + |data|] == b[8..];
    TupleReads(s, HEADER_SIZE + 8, data);
  }

  lemma UpdateReads(s: seq<byte>, rid: RID, old_: seq<byte>, new_: seq<byte>)
    requires IsRid(rid) && |old_| < TWO_TO_THE_32 && |new_| < TWO_TO_THE_32
    requires Carries(s, RidBytes(rid) + TupleBytes(old_) + TupleBytes(new_))
    ensures UpdateBody(s) == BodyRead(Update(rid, old_, new_))
  {
    var a := RidBytes(rid) + TupleBytes(old_);
    var b := a + TupleBytes(new_);
    assert s[HEADER_SIZE..HEADER_SIZE + |a|] == b[..|a|];
    RidAndTupleReads(s, rid, old_);
    assert s[HEADER_SIZE + |a|..HEADER_SIZE + |b|] == b[|a|..];
    TupleReads(s, HEADER_SIZE + |a|, new_);
  }

  lemma BodyReads(s: seq<byte>, b: Body)
    requires StorableBody(b) && Carries(s, BodyBytes(b))
    ensures BodyOf(s, TypeCode(b)) == BodyRead(b)
  {
    match b
    case Insert(rid, data) => RidAndTupleReads(s, rid, data);
    case MarkDelete(rid, data) => RidAndTupleReads(s, rid, data);
    case ApplyDelete(rid, data) => RidAndTupleReads(s, rid, data);
    case RollbackDelete(rid, data) => RidAndTupleReads(s, rid, data);
    case Update(rid, old_, new_) => UpdateReads(s, rid, old_, new_);
    case NewTablePage(prev, page) =>
      var p := I32(prev) + I32(page);
      assert s[20..24] == p[..4] && s[24..28] == p[4..];
      I32Reads(s, HEADER_SIZE, prev);
      I32Reads(s, HEADER_SIZE + 4, page);
    case DeallocatePage(page) => I32Reads(s, HEADER_SIZE, page);
    case ReusePage(page) => I32Reads(s, HEADER_SIZE, page);
    case _ =>
  }

  lemma MiddleSlice(h: seq<byte>, b: seq<byte>, rest: seq<byte>, n: nat)
    requires |h| + |b| <= n <= |h + b + rest|
    ensures (h + b + rest)[..n][|h|..|h| + |b|] == b
  {
  }

  /** Decoding finds the record at the front of any bytes that hold all of it, a cut when its
    * header is whole and its body is not, and nothing when not even the header is. */
  lemma DecodeEncoded(r: Record, rest: seq<byte>, n: nat)
    requires Storable(r) && n <= |Encode(r) + rest|
    ensures Decode((Encode(r) + rest)[..n]) ==
            if n < HEADER_SIZE then Stop else if n < Size(r.body) then Cut else Got(r, Size(r.body))
  {
    var s := (Encode(r) + rest)[..n];
    if n >= HEADER_SIZE {
      assert s[..HEADER_SIZE] == HeaderBytes(r);
      HeaderReads(r, s);
      if n >= Size(r.body) {
        MiddleSlice(HeaderBytes(r), BodyBytes(r.body), rest, n);
        BodyReads(s, r.body);
      }
    }
  }

  // ---- streams of records ----

  lemma EncodeAllSplit(a: seq<Record>, b: seq<Record>)
    requires AllStorable(a) && AllStorable(b)
    ensures AllStorable(a + b) && EncodeAll(a + b) == EncodeAll(a) + EncodeAll(b)
  {
    assert Encodings(a + b) == Encodings(a) + Encodings(b);
    FlattenSplit(Encodings(a), Encodings(b));
  }

  lemma EncodeOne(r: Record)
    requires Storable(r)
    ensures EncodeAll([r]) == Encode(r)
  {
    assert Encodings([r]) == [Encode(r)];
    FlattenOne(Encode(r));
  }

  /** The stream from record `i` on begins with record `i`. */
  lemma EncodeFrom(rs: seq<Record>, i: nat)
    requires AllStorable(rs) && i < |rs|
    ensures EncodeAll(rs[i..]) == Encode(rs[i]) + EncodeAll(rs[i + 1..])
  {
    assert rs[i..] == [rs[i]] + rs[i + 1..];
    EncodeAllSplit([rs[i]], rs[i + 1..]);
    EncodeOne(rs[i]);
  }

  lemma EncodeAppend(rs: seq<Record>, r: Record)
    requires AllStorable(rs) && Storable(r)
    ensures AllStorable(rs + [r]) && EncodeAll(rs + [r]) == EncodeAll(rs) + Encode(r)
  {
    EncodeAllSplit(rs, [r]);
    EncodeOne(r);
  }

  lemma EncodeAt(rs: seq<Record>, i: nat)
    requires AllStorable(rs) && i <= |rs|
    ensures EncodeAll(rs) == EncodeAll(rs[..i]) + EncodeAll(rs[i..])
  {
    assert rs == rs[..i] + rs[i..];
    EncodeAllSplit(rs[..i], rs[i..]);
  }

  /** A log determines its records. */
  lemma {:induction false} EncodeAllInjective(a: seq<Record>, b: seq<Record>)
    requires AllStorable(a) && AllStorable(b) && EncodeAll(a) == EncodeAll(b)
    ensures a == b
  {
    if a == [] {
      EmptyLog(b);
    } else if b == [] {
      EmptyLog(a);
    } else {
      SameFirst(a, b);
      EncodeAllInjective(a[1..], b[1..]);
      assert a == [a[0]] + a[1..] && b == [b[0]] + b[1..];
    }
  }

  lemma EmptyLog(rs: seq<Record>)
    requires AllStorable(rs)
    ensures EncodeAll(rs) == [] <==> rs == []
  {
    if rs != [] {
      EncodeFrom(rs, 0);
      assert rs[0..] == rs;
    }
  }

  lemma FirstRecord(rs: seq<Record>)
    requires AllStorable(rs) && rs != []
    ensures var s := EncodeAll(rs);
            && Decode(s) == Got(rs[0], Size(rs[0].body))
            && Size(rs[0].body) <= |s| && EncodeAll(rs[1..]) == s[Size(rs[0].body)..]
  {
    EncodeFrom(rs, 0);
    assert rs[0..] == rs;
    var s := EncodeAll(rs);
    DecodeEncoded(rs[0], EncodeAll(rs[1..]), |s|);
    assert s[..|s|] == s;
  }

  lemma SameFirst(a: seq<Record>, b: seq<Record>)
    requires AllStorable(a) && AllStorable(b) && a != [] && b != [] && EncodeAll(a) == EncodeAll(b)
    ensures a[0] == b[0] && EncodeAll(a[1..]) == EncodeAll(b[1..])
  {
    FirstRecord(a);
    FirstRecord(b);
  }
}
