/** Column value and record id packed into one byte string whose dictionary order is the order
  * of the values. */
module KeyEncoding {
  import opened Bytes
  import opened LockTable
  import opened KeyOrder

  datatype ColumnValue = Integer(i: int) | Varchar(s: seq<byte>)

  predicate NulFree(s: seq<byte>) { forall k :: 0 <= k < |s| ==> s[k] != 0 }

  /** 32-bit integers, and strings without NUL that leave room for twelve more bytes in a
    * 16-bit length. */
  predicate IsColumnValue(v: ColumnValue) {
    match v
    case Integer(i) => -TWO_TO_THE_31 <= i < TWO_TO_THE_31
    case Varchar(s) => NulFree(s) && |s| + 12 < TWO_TO_THE_16
  }

  predicate SameType(v: ColumnValue, w: ColumnValue) { v.Integer? <==> w.Integer? }

  predicate ValueLess(v: ColumnValue, w: ColumnValue)
    requires SameType(v, w)
  {
    match v
    case Integer(i) => i < w.i
    case Varchar(s) => Less(s, w.s)
  }

  /** Page ids are never negative in a stored record id. */
  predicate IsStoredRid(rid: RID) { 0 <= rid.page < TWO_TO_THE_31 && rid.slot < TWO_TO_THE_32 }

  const LEAST_RID := RID(0, 0)
  const GREATEST_RID := RID(TWO_TO_THE_31 - 1, TWO_TO_THE_32 - 1)

  // ---- record ids as 64-bit numbers ----

  function PackRid(rid: RID): (x: int)
    requires IsStoredRid(rid)
    ensures 0 <= x
  {
    rid.slot * TWO_TO_THE_32 + rid.page
  }

  function UnpackRid(x: int): RID
    requires 0 <= x
  {
    RID(Signed(x % TWO_TO_THE_32), x / TWO_TO_THE_32)
  }

  lemma {:induction false} PackRoundTrip(rid: RID)
    requires IsStoredRid(rid)
    ensures UnpackRid(PackRid(rid)) == rid
  {
  }

  /** The packed number, least significant byte first. */
  ghost function RidKey(rid: RID): (s: seq<byte>)
    requires IsStoredRid(rid)
    ensures |s| == 8
  {
    EncodeU32(PackRid(rid) % TWO_TO_THE_32) + EncodeU32(PackRid(rid) / TWO_TO_THE_32)
  }

  lemma {:induction false} RidKeyParts(rid: RID)
    requires IsStoredRid(rid)
    ensures RidKey(rid) == EncodeU32(rid.page) + EncodeU32(rid.slot)
  {
    PackRoundTrip(rid);
  }

  // ---- integers ----

  /** Most significant byte first. */
  function BigEndian(u: int): (s: seq<byte>)
    requires 0 <= u < TWO_TO_THE_32
    ensures |s| == 4 && DecodeU32(s[3], s[2], s[1], s[0]) == u
  {
    var s := SerializeU32(u);
    [s[3], s[2], s[1], s[0]]
  }

  function FlipSign(b: byte): byte { if b < 128 then b + 128 else b - 128 }

  function IntegerBytes(i: int): (s: seq<byte>)
    requires -TWO_TO_THE_31 <= i < TWO_TO_THE_31
    ensures |s| == 4
  {
    var s := BigEndian(Unsigned(i));
    s[0 := FlipSign(s[0])]
  }

  function IntegerFromBytes(s: seq<byte>): int
    requires |s| == 4
  {
    Signed(DecodeU32(s[3], s[2], s[1], FlipSign(s[0])))
  }

  lemma {:induction false} IntegerRoundTrip(i: int)
    requires -TWO_TO_THE_31 <= i < TWO_TO_THE_31
    ensures IntegerFromBytes(IntegerBytes(i)) == i
    ensures var s := IntegerBytes(i); DecodeU32(s[3], s[2], s[1], s[0]) == i + TWO_TO_THE_31
  {
    assert FlipSign(FlipSign(BigEndian(Unsigned(i))[0])) == BigEndian(Unsigned(i))[0];
  }

  lemma {:induction false} LessByBytes(a: seq<byte>, b: seq<byte>)
    requires |a| == |b| == 4
    ensures Less(a, b) <==>
            a[0] < b[0] || (a[0] == b[0] && (a[1] < b[1] || (a[1] == b[1] && (a[2] < b[2] || (a[2] == b[2] && a[3] < b[3])))))
  {
    assert Less(a[3..], b[3..]) <==> a[3] < b[3] by { assert a[3..][1..] == [] && b[3..][1..] == []; }
    assert Less(a[2..], b[2..]) <==> a[2] < b[2] || (a[2] == b[2] && Less(a[3..], b[3..]))
      by { assert a[2..][1..] == a[3..] && b[2..][1..] == b[3..]; }
    assert Less(a[1..], b[1..]) <==> a[1] < b[1] || (a[1] == b[1] && Less(a[2..], b[2..]))
      by { assert a[1..][1..] == a[2..] && b[1..][1..] == b[2..]; }
  }

  lemma {:induction false} LessOfFour(a: seq<byte>, b: seq<byte>)
    requires |a| == |b| == 4
    ensures Less(a, b) <==> DecodeU32(a[3], a[2], a[1], a[0]) < DecodeU32(b[3], b[2], b[1], b[0])
  {
    LessByBytes(a, b);
  }

  // ---- the encoding ----

  ghost function Prefix(v: ColumnValue): seq<byte>
    requires IsColumnValue(v)
  {
    match v
    case Integer(i) => IntegerBytes(i)
    case Varchar(s) => s + [0, 0, 0, 0]
  }

  ghost function EncodeKey(v: ColumnValue, rid: RID): (k: seq<byte>)
    requires IsColumnValue(v) && IsStoredRid(rid)
    ensures |k| >= 12
  {
    Prefix(v) + RidKey(rid)
  }

  function DecodeValue(k: seq<byte>, integer: bool): ColumnValue
    requires |k| >= 12 && (integer ==> |k| == 12)
  {
    if integer then Integer(IntegerFromBytes(k[..4])) else Varchar(k[..|k| - 12])
  }

  // ---- order of concatenations ----

  lemma {:induction false} LessSamePrefix(p: seq<byte>, a: seq<byte>, b: seq<byte>)
    ensures Less(p + a, p + b) <==> Less(a, b)
  {
    if p == [] {
      assert p + a == a && p + b == b;
    } else {
      LessSamePrefix(p[1..], a, b);
      assert (p + a)[1..] == p[1..] + a && (p + b)[1..] == p[1..] + b;
    }
  }

  lemma {:induction false} LessSameLength(p: seq<byte>, q: seq<byte>, a: seq<byte>, b: seq<byte>)
    requires |p| == |q| && Less(p, q)
    ensures Less(p + a, q + b)
  {
    if p[0] == q[0] {
      LessSameLength(p[1..], q[1..], a, b);
      assert (p + a)[1..] == p[1..] + a && (q + b)[1..] == q[1..] + b;
    }
  }

  /** The zeros behind a string keep a prefix below its extensions, whatever follows. */
  lemma {:induction false} LessTerminated(s: seq<byte>, t: seq<byte>, a: seq<byte>, b: seq<byte>)
    requires NulFree(t) && Less(s, t) && a != [] && a[0] == 0
    ensures Less(s + a, t + b)
  {
    if s == [] {
      assert s + a == a && (t + b)[0] == t[0];
    } else if s[0] == t[0] {
      LessTerminated(s[1..], t[1..], a, b);
      assert (s + a)[1..] == s[1..] + a && (t + b)[1..] == t[1..] + b;
    }
  }

  predicate AtMost(a: seq<byte>, b: seq<byte>) { a == b || Less(a, b) }

  lemma {:induction false} PairAtMost(a: seq<byte>, b: seq<byte>, p: seq<byte>, q: seq<byte>)
    requires |a| == |p| && AtMost(a, p) && AtMost(b, q)
    ensures AtMost(a + b, p + q)
  {
    if a == p { LessSamePrefix(a, b, q); } else { LessSameLength(a, p, b, q); }
  }

  /** Record ids lie between the two bounds that a scan uses. */
  lemma {:induction false} RidKeyBounds(rid: RID)
    requires IsStoredRid(rid)
    ensures AtMost(RidKey(LEAST_RID), RidKey(rid)) && AtMost(RidKey(rid), RidKey(GREATEST_RID))
  {
    RidKeyParts(rid);
    RidKeyParts(LEAST_RID);
    RidKeyParts(GREATEST_RID);
    ZeroIsLeast(0, EncodeU32(0), EncodeU32(rid.page));
    ZeroIsLeast(0, EncodeU32(0), EncodeU32(rid.slot));
    FourBytes(EncodeU32(TWO_TO_THE_32 - 1));
    OnesAreGreatest(EncodeU32(rid.slot), EncodeU32(TWO_TO_THE_32 - 1));
    PageBytesAreBounded(rid.page);
    PairAtMost(EncodeU32(0), EncodeU32(0), EncodeU32(rid.page), EncodeU32(rid.slot));
    PairAtMost(EncodeU32(rid.page), EncodeU32(rid.slot), EncodeU32(TWO_TO_THE_31 - 1), EncodeU32(TWO_TO_THE_32 - 1));
  }

  lemma {:induction false} ZeroIsLeast(x: int, z: seq<byte>, s: seq<byte>)
    requires x == 0 && z == EncodeU32(x) && |s| == 4
    ensures AtMost(z, s)
  {
    FourBytes(z);
    ZeroBytes(z);
    ZerosAreLeast(z, s);
  }

  lemma {:induction false} ZerosAreLeast(z: seq<byte>, s: seq<byte>)
    requires |s| == |z| == 4 && z[0] == 0 && z[1] == 0 && z[2] == 0 && z[3] == 0
    ensures AtMost(z, s)
  {
    StringsAreOrdered(s, z);
    LessByBytes(s, z);
  }

  lemma ZeroBytes(z: seq<byte>)
    requires |z| == 4 && DecodeU32(z[0], z[1], z[2], z[3]) == 0
    ensures z[0] == 0 && z[1] == 0 && z[2] == 0 && z[3] == 0
  {
  }

  lemma {:induction false} OnesAreGreatest(s: seq<byte>, f: seq<byte>)
    requires |s| == |f| == 4 && DecodeU32(f[0], f[1], f[2], f[3]) == TWO_TO_THE_32 - 1
    ensures AtMost(s, f)
  {
    LessByBytes(s, f);
  }

  lemma {:induction false} PageBytesAreBounded(page: int)
    requires 0 <= page < TWO_TO_THE_31
    ensures var p, m := EncodeU32(page), EncodeU32(TWO_TO_THE_31 - 1); AtMost(p, m)
  {
    var p, m := EncodeU32(page), EncodeU32(TWO_TO_THE_31 - 1);
    LessByBytes(p, m);
    FourBytes(p);
    FourBytes(m);
    assert p[3] <= 127;
    assert m[0] == 255 && m[1] == 255 && m[2] == 255 && m[3] == 127;
  }

  lemma {:induction false} IntegerKeysFollow(i: int, j: int, a: seq<byte>, b: seq<byte>)
    requires -TWO_TO_THE_31 <= i < j < TWO_TO_THE_31
    ensures Less(IntegerBytes(i) + a, IntegerBytes(j) + b)
  {
    IntegerRoundTrip(i);
    IntegerRoundTrip(j);
    var x, y := IntegerBytes(i), IntegerBytes(j);
    LessOfFour(x, y);
    LessSameLength(x, y, a, b);
  }

  lemma {:induction false} StringKeysFollow(s: seq<byte>, t: seq<byte>, a: seq<byte>, b: seq<byte>)
    requires NulFree(t) && Less(s, t)
    ensures Less(s + [0, 0, 0, 0] + a, t + [0, 0, 0, 0] + b)
  {
    var z: seq<byte> := [0, 0, 0, 0];
    LessTerminated(s, t, z + a, z + b);
    assert s + z + a == s + (z + a) && t + z + b == t + (z + b);
  }

  /** Smaller value, smaller key, whatever the record ids. */
  lemma {:induction false} KeysFollowValues(v: ColumnValue, r: RID, w: ColumnValue, q: RID)
    requires IsColumnValue(v) && IsColumnValue(w) && SameType(v, w) && ValueLess(v, w)
    requires IsStoredRid(r) && IsStoredRid(q)
    ensures Less(EncodeKey(v, r), EncodeKey(w, q))
  {
    match v
    case Integer(i) => IntegerKeysFollow(i, w.i, RidKey(r), RidKey(q));
    case Varchar(s) => StringKeysFollow(s, w.s, RidKey(r), RidKey(q));
  }

  /** The value can be read back from the key. */
  lemma {:induction false} KeyRoundTrip(v: ColumnValue, rid: RID)
    requires IsColumnValue(v) && IsStoredRid(rid)
    ensures var k := EncodeKey(v, rid);
            (v.Integer? ==> |k| == 12) && DecodeValue(k, v.Integer?) == v
  {
    var k := EncodeKey(v, rid);
    match v
    case Integer(i) => IntegerRoundTrip(i); assert k[..4] == IntegerBytes(i);
    case Varchar(s) => assert k[..|k| - 12] == s;
  }

  /** Distinct pairs have distinct keys. */
  lemma {:induction false} KeysAreInjective(v: ColumnValue, r: RID, w: ColumnValue, q: RID)
    requires IsColumnValue(v) && IsColumnValue(w) && SameType(v, w) && IsStoredRid(r) && IsStoredRid(q)
    requires EncodeKey(v, r) == EncodeKey(w, q)
    ensures v == w && r == q
  {
    KeyRoundTrip(v, r);
    KeyRoundTrip(w, q);
    var k := EncodeKey(v, r);
    assert RidKey(r) == k[|k| - 8..] == RidKey(q);
    RidKeyParts(r);
    RidKeyParts(q);
    assert EncodeU32(r.page) == RidKey(r)[..4] == EncodeU32(q.page);
    assert EncodeU32(r.slot) == RidKey(r)[4..] == EncodeU32(q.slot);
  }

  /** No key is one of the two marker strings. */
  lemma {:induction false} KeysAreNotMarkers(v: ColumnValue, rid: RID)
    requires IsColumnValue(v) && IsStoredRid(rid)
    ensures EncodeKey(v, rid) != INF_MAX && EncodeKey(v, rid) != INF_MIN
  {
    var k := EncodeKey(v, rid);
    if v.Varchar? { assert k[|v.s|] == 0; }
    assert forall j :: 0 <= j < |INF_MAX| ==> INF_MAX[j] != 0;
    assert forall j :: 0 <= j < |INF_MIN| ==> INF_MIN[j] != 0;
  }

  ghost function KeyRank(v: ColumnValue, rid: RID): real
    requires IsColumnValue(v) && IsStoredRid(rid)
  {
    Rank(EncodeKey(v, rid))
  }

  predicate ValueAtMost(v: ColumnValue, w: ColumnValue)
    requires SameType(v, w)
  {
    v == w || ValueLess(v, w)
  }

  lemma {:induction false} StringsAreOrdered(a: seq<byte>, b: seq<byte>)
    ensures a == b || Less(a, b) || Less(b, a)
    ensures !(Less(a, b) && Less(b, a)) && !Less(a, a)
  {
    FractionOrder(a, b);
    FractionOrder(b, a);
    FractionOrder(a, a);
  }

  /** The key lies at or above the lower scan key of `lo` exactly when its value does. */
  lemma {:induction false} LowerBound(lo: ColumnValue, v: ColumnValue, rid: RID)
    requires IsColumnValue(lo) && IsColumnValue(v) && SameType(lo, v) && IsStoredRid(rid)
    ensures KeyRank(lo, LEAST_RID) <= KeyRank(v, rid) <==> ValueAtMost(lo, v)
  {
    var a, b := EncodeKey(lo, LEAST_RID), EncodeKey(v, rid);
    KeysAreNotMarkers(lo, LEAST_RID);
    KeysAreNotMarkers(v, rid);
    RankOrder(a, b);
    RankOrder(b, a);
    if lo == v {
      RidKeyBounds(rid);
      LessSamePrefix(Prefix(v), RidKey(LEAST_RID), RidKey(rid));
    } else if ValueLess(lo, v) {
      KeysFollowValues(lo, LEAST_RID, v, rid);
    } else {
      if v.Varchar? { StringsAreOrdered(lo.s, v.s); }
      KeysFollowValues(v, rid, lo, LEAST_RID);
    }
  }

  /** The key lies at or below the upper scan key of `hi` exactly when its value does. */
  lemma {:induction false} UpperBound(hi: ColumnValue, v: ColumnValue, rid: RID)
    requires IsColumnValue(hi) && IsColumnValue(v) && SameType(hi, v) && IsStoredRid(rid)
    ensures KeyRank(v, rid) <= KeyRank(hi, GREATEST_RID) <==> ValueAtMost(v, hi)
  {
    var a, b := EncodeKey(v, rid), EncodeKey(hi, GREATEST_RID);
    KeysAreNotMarkers(hi, GREATEST_RID);
    KeysAreNotMarkers(v, rid);
    RankOrder(a, b);
    RankOrder(b, a);
    if hi == v {
      RidKeyBounds(rid);
      LessSamePrefix(Prefix(v), RidKey(rid), RidKey(GREATEST_RID));
    } else if ValueLess(v, hi) {
      KeysFollowValues(v, rid, hi, GREATEST_RID);
    } else {
      if v.Varchar? { StringsAreOrdered(hi.s, v.s); }
      KeysFollowValues(hi, GREATEST_RID, v, rid);
    }
  }
}
