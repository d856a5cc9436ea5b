/** Machine bytes and the fixed-width integer encodings the pages and the log use. */
module Bytes {

  newtype byte = x: int | 0 <= x < 256

  const TWO_TO_THE_16 := 0x1_0000
  const TWO_TO_THE_31 := 0x8000_0000
  const TWO_TO_THE_32 := 0x1_0000_0000

  /** Least significant byte first. */
  function LittleEndian(b: seq<byte>): (x: nat) {
    if b == [] then 0 else b[0] as int + 256 * LittleEndian(b[1..])
  }

  function DecodeU32(b0: byte, b1: byte, b2: byte, b3: byte): (x: int)
    ensures 0 <= x < TWO_TO_THE_32
  {
    b0 as int + 256 * (b1 as int + 256 * (b2 as int + 256 * b3 as int))
  }

  lemma FourBytes(b: seq<byte>)
    requires |b| == 4
    ensures LittleEndian(b) == DecodeU32(b[0], b[1], b[2], b[3])
  {
    var b1, b2, b3, b4 := b[1..], b[1..][1..], b[1..][1..][1..], b[1..][1..][1..][1..];
    assert b1[0] == b[1] && b2[0] == b[2] && b3[0] == b[3] && b4 == [];
    assert LittleEndian(b4) == 0 && LittleEndian(b3) == b[3] as int;
    assert LittleEndian(b2) == b[2] as int + 256 * b[3] as int;
    assert LittleEndian(b1) == b[1] as int + 256 * (b[2] as int + 256 * b[3] as int);
  }

  /** `types.UInt32.Serialize`: four bytes, least significant first. */
  function SerializeU32(x: int): (s: seq<byte>)
    requires 0 <= x < TWO_TO_THE_32
    ensures |s| == 4 && LittleEndian(s) == x
  {
    var y := x / 256;
    var z := y / 256;
    assert x == 256 * y + x % 256 && y == 256 * z + y % 256 && z == 256 * (z / 256) + z % 256;
    var s := [(x % 256) as byte, (y % 256) as byte, (z % 256) as byte, (z / 256) as byte];
    FourBytes(s);
    s
  }

  /** The four bytes that read back as `x`. */
  ghost function EncodeU32(x: int): (s: seq<byte>)
    requires 0 <= x < TWO_TO_THE_32
    ensures |s| == 4 && LittleEndian(s) == x
  {
    assert |SerializeU32(x)| == 4;
    var s: seq<byte> :| |s| == 4 && LittleEndian(s) == x;
    s
  }

  lemma LastDigit(q: int, r: int, q': int, r': int)
    requires 256 * q + r == 256 * q' + r' && 0 <= r < 256 && 0 <= r' < 256
    ensures q == q' && r == r'
  {
  }

  /** There is only one such encoding, so serializing produces it. */
  lemma EncodingIsUnique(x: int)
    requires 0 <= x < TWO_TO_THE_32
    ensures SerializeU32(x) == EncodeU32(x)
  {
    SameNumberSameBytes(SerializeU32(x), EncodeU32(x));
  }

  /** Byte strings of one length that read as the same number are the same. */
  lemma {:induction false} SameNumberSameBytes(a: seq<byte>, b: seq<byte>)
    requires |a| == |b| && LittleEndian(a) == LittleEndian(b)
    ensures a == b
  {
    if a != [] {
      LastDigit(LittleEndian(a[1..]), a[0] as int, LittleEndian(b[1..]), b[0] as int);
      SameNumberSameBytes(a[1..], b[1..]);
      assert a == [a[0]] + a[1..] && b == [b[0]] + b[1..];
    }
  }

  function U32At(s: seq<byte>, o: nat): (x: int)
    requires o + 4 <= |s|
    ensures 0 <= x < TWO_TO_THE_32
  {
    FourBytes(s[o..o + 4]);
    LittleEndian(s[o..o + 4])
  }

  /** A signed 32-bit integer as the unsigned one with the same bits, and back. */
  function Unsigned(x: int): (u: int)
    requires -TWO_TO_THE_31 <= x < TWO_TO_THE_31
    ensures 0 <= u < TWO_TO_THE_32 && Signed(u) == x
  {
    if x < 0 then x + TWO_TO_THE_32 else x
  }

  function Signed(u: int): (x: int)
    requires 0 <= u < TWO_TO_THE_32
    ensures -TWO_TO_THE_31 <= x < TWO_TO_THE_31
  {
    if u < TWO_TO_THE_31 then u else u - TWO_TO_THE_32
  }

  /** `s` with `b` written over it from offset `o`. */
  function Splice(s: seq<byte>, o: nat, b: seq<byte>): (r: seq<byte>)
    requires o + |b| <= |s|
    ensures |r| == |s|
  {
    s[..o] + b + s[o + |b|..]
  }

  lemma SpliceByte(s: seq<byte>, o: nat, b: seq<byte>, k: nat)
    requires o + |b| <= |s| && k < |s|
    ensures Splice(s, o, b)[k] == if o <= k < o + |b| then b[k - o] else s[k]
  {
  }

  lemma SpliceTwice(s: seq<byte>, o: nat, a: seq<byte>, b: seq<byte>)
    requires o + |a| + |b| <= |s|
    ensures Splice(Splice(s, o, a), o + |a|, b) == Splice(s, o, a + b)
  {
  }

  ghost function PutU32(s: seq<byte>, o: nat, x: int): (r: seq<byte>)
    requires o + 4 <= |s| && 0 <= x < TWO_TO_THE_32
    ensures |r| == |s|
  {
    Splice(s, o, EncodeU32(x))
  }

  /** Equal bytes, equal field. */
  lemma FieldKept(s: seq<byte>, r: seq<byte>, o: nat)
    requires |r| == |s| && o + 4 <= |s| && r[o..o + 4] == s[o..o + 4]
    ensures U32At(r, o) == U32At(s, o)
  {
  }

  lemma PutU32Read(s: seq<byte>, o: nat, x: int)
    requires o + 4 <= |s| && 0 <= x < TWO_TO_THE_32
    ensures U32At(PutU32(s, o, x), o) == x
  {
    assert PutU32(s, o, x)[o..o + 4] == EncodeU32(x);
  }

  lemma PutU32Byte(s: seq<byte>, o: nat, x: int, k: nat)
    requires o + 4 <= |s| && 0 <= x < TWO_TO_THE_32 && k < |s| && !(o <= k < o + 4)
    ensures PutU32(s, o, x)[k] == s[k]
  {
    SpliceByte(s, o, EncodeU32(x), k);
  }

  lemma PutU32Other(s: seq<byte>, o: nat, x: int, p: nat)
    requires o + 4 <= |s| && 0 <= x < TWO_TO_THE_32 && p + 4 <= |s| && (p + 4 <= o || o + 4 <= p)
    ensures U32At(PutU32(s, o, x), p) == U32At(s, p)
  {
    var r := PutU32(s, o, x);
    assert r[p..p + 4] == s[p..p + 4];
    FieldKept(s, r, p);
  }

  lemma SpliceOther(s: seq<byte>, o: nat, b: seq<byte>, p: nat)
    requires o + |b| <= |s| && p + 4 <= |s| && (p + 4 <= o || o + |b| <= p)
    ensures U32At(Splice(s, o, b), p) == U32At(s, p)
  {
    var r := Splice(s, o, b);
    assert r[p..p + 4] == s[p..p + 4];
    FieldKept(s, r, p);
  }

  // ---- header and directory fields ----

  /** Most significant byte first. */
  function BigEndian(b: seq<byte>): (x: nat) {
    if b == [] then 0 else 256 * BigEndian(b[..|b| - 1]) + b[|b| - 1] as int
  }

  lemma TwoBytes(b: seq<byte>)
    requires |b| == 2
    ensures BigEndian(b) == 256 * b[0] as int + b[1] as int < TWO_TO_THE_16
  {
    assert b[..1] == [b[0]] && b[..1][..0] == [];
    assert BigEndian(b[..1]) == b[0] as int;
  }

  /** `types.UInt16.Serialize`: two bytes, most significant first. */
  function EncodeU16(x: int): (s: seq<byte>)
    requires 0 <= x < TWO_TO_THE_16
    ensures |s| == 2 && BigEndian(s) == x
  {
    var s := [(x / 256) as byte, (x % 256) as byte];
    TwoBytes(s);
    s
  }

  function U16At(s: seq<byte>, o: nat): (x: int)
    requires o + 2 <= |s|
    ensures 0 <= x < TWO_TO_THE_16
  {
    TwoBytes(s[o..o + 2]);
    BigEndian(s[o..o + 2])
  }
}

/** Writing into byte arrays. */
module ByteArrays {
  import opened Bytes

  /** Go's `copy`; the source bytes are taken before any is written, as for overlapping slices. */
  method CopyInto(a: array<byte>, o: nat, bytes: seq<byte>)
    requires o + |bytes| <= a.Length
    modifies a
    ensures a[..] == Splice(old(a[..]), o, bytes)
  {
    ghost var was := a[..];
    for k := 0 to |bytes|
      invariant forall j :: 0 <= j < a.Length ==> a[j] == if o <= j < o + k then bytes[j - o] else was[j]
    {
      a[o + k] := bytes[k];
    }
    forall j | 0 <= j < a.Length ensures a[j] == Splice(was, o, bytes)[j] { SpliceByte(was, o, bytes, j); }
  }

  method GetU32(a: array<byte>, o: nat) returns (x: int)
    requires o + 4 <= a.Length
    ensures x == U32At(a[..], o)
  {
    x := LittleEndian(a[o..o + 4]);
    assert a[..][o..o + 4] == a[o..o + 4];
  }

  method SetU32(a: array<byte>, o: nat, x: int)
    requires o + 4 <= a.Length && 0 <= x < TWO_TO_THE_32
    modifies a
    ensures a[..] == PutU32(old(a[..]), o, x)
  {
    EncodingIsUnique(x);
    CopyInto(a, o, SerializeU32(x));
  }

  method SetU16(a: array<byte>, o: nat, x: int)
    requires o + 2 <= a.Length && 0 <= x < TWO_TO_THE_16
    modifies a
    ensures a[..] == Splice(old(a[..]), o, EncodeU16(x))
  {
    CopyInto(a, o, EncodeU16(x));
  }
}
