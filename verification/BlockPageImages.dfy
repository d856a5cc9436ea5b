/** The byte moves of a skip list block page, step by step. */
module BlockPageImages {
  import opened Bytes
  import opened BlockPageLayout

  function InfoField(i: nat): nat { OFFSET_ENTRY_INFOS + 4 * i }

  function PutU16(s: seq<byte>, o: nat, x: int): (r: seq<byte>)
    requires o + 2 <= |s| && 0 <= x < TWO_TO_THE_16
    ensures |r| == |s|
  {
    Splice(s, o, EncodeU16(x))
  }

  predicate IsInfo(e: Info) { 0 <= e.off < TWO_TO_THE_16 && 0 <= e.size < TWO_TO_THE_16 }

  /** `SetEntryOffset` and `SetEntrySize`. */
  function PutInfo(s: seq<byte>, i: nat, e: Info): (r: seq<byte>)
    requires InfoField(i) + 4 <= |s| && IsInfo(e)
    ensures |r| == |s|
  {
    PutU16(PutU16(s, InfoField(i), e.off), InfoField(i) + 2, e.size)
  }

  lemma PutU16Byte(s: seq<byte>, o: nat, x: int, k: nat)
    requires o + 2 <= |s| && 0 <= x < TWO_TO_THE_16 && k < |s|
    ensures !(o <= k < o + 2) ==> PutU16(s, o, x)[k] == s[k]
    ensures U16At(PutU16(s, o, x), o) == x
  {
    SpliceByte(s, o, EncodeU16(x), k);
    assert PutU16(s, o, x)[o..o + 2] == EncodeU16(x);
  }

  lemma PutU16Other(s: seq<byte>, o: nat, x: int, p: nat)
    requires o + 2 <= |s| && 0 <= x < TWO_TO_THE_16 && p + 2 <= |s| && (p + 2 <= o || o + 2 <= p)
    ensures U16At(PutU16(s, o, x), p) == U16At(s, p)
  {
    assert PutU16(s, o, x)[p..p + 2] == s[p..p + 2];
  }

  lemma PutInfoByte(s: Image, i: nat, e: Info, k: nat)
    requires InfoField(i) + 4 <= PAGE_SIZE && IsInfo(e) && k < PAGE_SIZE
    ensures !(InfoField(i) <= k < InfoField(i) + 4) ==> PutInfo(s, i, e)[k] == s[k]
    ensures InfoAt(PutInfo(s, i, e), i) == e
  {
    var o := InfoField(i);
    var s1 := PutU16(s, o, e.off);
    PutU16Byte(s, o, e.off, k);
    PutU16Byte(s1, o + 2, e.size, k);
    PutU16Other(s1, o + 2, e.size, o);
  }

  lemma U32Kept(s: Image, r: Image, o: nat)
    requires o + 4 <= PAGE_SIZE && r[o] == s[o] && r[o + 1] == s[o + 1] && r[o + 2] == s[o + 2] && r[o + 3] == s[o + 3]
    ensures U32At(r, o) == U32At(s, o)
  {
    assert r[o..o + 4] == s[o..o + 4];
  }

  lemma InfoKept(s: Image, i: nat, r: Image, k: nat)
    requires InfoField(i) + 4 <= PAGE_SIZE && InfoField(k) + 4 <= PAGE_SIZE
    requires r[InfoField(k)] == s[InfoField(i)] && r[InfoField(k) + 1] == s[InfoField(i) + 1]
    requires r[InfoField(k) + 2] == s[InfoField(i) + 2] && r[InfoField(k) + 3] == s[InfoField(i) + 3]
    ensures InfoAt(r, k) == InfoAt(s, i)
  {
    var o, p := InfoField(i), InfoField(k);
    assert r[p..p + 2] == s[o..o + 2] && r[p + 2..p + 4] == s[o + 2..o + 4];
  }

  // ---- insertion ----

  predicate CanAdd(s: Image, i: nat, n: nat) {
    i <= Cnt(s) && 0 < n && OFFSET_ENTRY_INFOS + 4 * Cnt(s) + 4 + n <= Fsp(s) <= PAGE_SIZE
  }

  /** The new bytes in front of the area, and the free space pointer at them. */
  ghost function PayloadAdded(s: Image, data: seq<byte>): Image
    requires |data| <= Fsp(s) <= PAGE_SIZE
  {
    PutU32(Splice(s, Fsp(s) - |data|, data), OFFSET_FREE_SPACE, Fsp(s) - |data|)
  }

  /** The slots from `i` on slid one further, and slot `i` filled in. */
  ghost function SlotOpened(s: Image, i: nat, n: nat, e: Info): Image
    requires i <= n && InfoField(n + 1) <= PAGE_SIZE && IsInfo(e)
  {
    PutInfo(Splice(s, InfoField(i + 1), s[InfoField(i)..InfoField(n)]), i, e)
  }

  ghost function AddSteps(s: Image, i: nat, data: seq<byte>): (Image, Image, Image)
    requires CanAdd(s, i, |data|)
  {
    var s2, n := PayloadAdded(s, data), Cnt(s);
    (s2, Splice(s2, InfoField(i + 1), s2[InfoField(i)..InfoField(n)]),
     SlotOpened(s2, i, n, Info(Fsp(s) - |data|, |data|)))
  }

  ghost function AddedImage(s: Image, i: nat, data: seq<byte>): Image
    requires CanAdd(s, i, |data|)
  {
    PutU32(AddSteps(s, i, data).2, OFFSET_ENTRY_CNT, Cnt(s) + 1)
  }

  predicate InField(k: int, o: int, n: int) { o <= k < o + n }

  lemma AddedByte(s: Image, i: nat, data: seq<byte>, k: nat)
    requires CanAdd(s, i, |data|) && k < PAGE_SIZE
    requires !InField(k, OFFSET_ENTRY_CNT, 4) && !InField(k, OFFSET_FREE_SPACE, 4) && !InField(k, InfoField(i), 4)
    ensures AddedImage(s, i, data)[k] ==
            if InfoField(i + 1) <= k < InfoField(Cnt(s) + 1) then s[k - 4]
            else if Fsp(s) - |data| <= k < Fsp(s) then data[k - (Fsp(s) - |data|)]
            else s[k]
  {
    var off, n := Fsp(s) - |data|, Cnt(s);
    var (s2, s3, s4) := AddSteps(s, i, data);
    PutU32Byte(s4, OFFSET_ENTRY_CNT, n + 1, k);
    PutInfoByte(s3, i, Info(off, |data|), k);
    SpliceByte(s2, InfoField(i + 1), s2[InfoField(i)..InfoField(n)], k);
    AddPayloadByte(s, data, k);
    if InfoField(i + 1) <= k < InfoField(n + 1) { AddPayloadByte(s, data, k - 4); }
  }

  lemma AddPayloadByte(s: Image, data: seq<byte>, k: nat)
    requires |data| <= Fsp(s) <= PAGE_SIZE && k < PAGE_SIZE && !InField(k, OFFSET_FREE_SPACE, 4)
    ensures var off := Fsp(s) - |data|;
            PayloadAdded(s, data)[k] == if off <= k < Fsp(s) then data[k - off] else s[k]
  {
    var off := Fsp(s) - |data|;
    PutU32Byte(Splice(s, off, data), OFFSET_FREE_SPACE, off, k);
    SpliceByte(s, off, data, k);
  }

  lemma AddedFields(s: Image, i: nat, data: seq<byte>)
    requires CanAdd(s, i, |data|)
    ensures var r := AddedImage(s, i, data);
            Cnt(r) == Cnt(s) + 1 && Fsp(r) == Fsp(s) - |data| && InfoAt(r, i) == Info(Fsp(s) - |data|, |data|)
  {
    var off, n := Fsp(s) - |data|, Cnt(s);
    var (s2, s3, s4) := AddSteps(s, i, data);
    PutU32Read(s4, OFFSET_ENTRY_CNT, n + 1);
    PutU32Read(Splice(s, off, data), OFFSET_FREE_SPACE, off);
    PutU32Other(s4, OFFSET_ENTRY_CNT, n + 1, OFFSET_FREE_SPACE);
    SlotOpenedField(s2, i, n, Info(off, |data|), OFFSET_FREE_SPACE);
    PutInfoByte(s3, i, Info(off, |data|), 0);
    CntKeepsInfo(s4, n + 1, i);
  }

  lemma SlotOpenedField(s: Image, i: nat, n: nat, e: Info, o: nat)
    requires i <= n && InfoField(n + 1) <= PAGE_SIZE && IsInfo(e) && o + 4 <= OFFSET_ENTRY_INFOS
    ensures U32At(SlotOpened(s, i, n, e), o) == U32At(s, o)
  {
    var t := Splice(s, InfoField(i + 1), s[InfoField(i)..InfoField(n)]);
    SpliceOther(s, InfoField(i + 1), s[InfoField(i)..InfoField(n)], o);
    SpliceOther(t, InfoField(i), EncodeU16(e.off), o);
    SpliceOther(PutU16(t, InfoField(i), e.off), InfoField(i) + 2, EncodeU16(e.size), o);
  }

  lemma AddedInfo(s: Image, i: nat, data: seq<byte>, k: nat)
    requires CanAdd(s, i, |data|) && k <= Cnt(s) && k != i
    ensures InfoAt(AddedImage(s, i, data), k) == InfoAt(s, if k < i then k else k - 1)
  {
    var k0 := if k < i then k else k - 1;
    AddedSlotByte(s, i, data, k, 0);
    AddedSlotByte(s, i, data, k, 1);
    AddedSlotByte(s, i, data, k, 2);
    AddedSlotByte(s, i, data, k, 3);
    InfoKept(s, k0, AddedImage(s, i, data), k);
  }

  lemma AddedSlotByte(s: Image, i: nat, data: seq<byte>, k: nat, j: nat)
    requires CanAdd(s, i, |data|) && k <= Cnt(s) && k != i && j < 4
    ensures AddedImage(s, i, data)[InfoField(k) + j] == s[InfoField(if k < i then k else k - 1) + j]
  {
    AddedByte(s, i, data, InfoField(k) + j);
  }

  /** The steps of `InsertInner` add the entry and leave the others where they are. */
  lemma AddedImageOk(s: Image, i: nat, data: seq<byte>)
    requires Layout(s) && CanAdd(s, i, |data|)
    ensures EntryAdded(s, AddedImage(s, i, data), i, data)
  {
    var r, off := AddedImage(s, i, data), Fsp(s) - |data|;
    AddedFields(s, i, data);
    forall k | 0 <= k <= Cnt(s) ensures InfoAt(r, k) == WithInfo(Infos(s), i, Info(off, |data|))[k] {
      if k != i { AddedInfo(s, i, data, k); }
    }
    assert Infos(r) == WithInfo(Infos(s), i, Info(off, |data|));
    AddedArea(s, i, data);
  }

  lemma AddedArea(s: Image, i: nat, data: seq<byte>)
    requires CanAdd(s, i, |data|)
    ensures var r := AddedImage(s, i, data);
            r[Fsp(s) - |data|..Fsp(s)] == data && r[Fsp(s)..] == s[Fsp(s)..]
  {
    var r, off := AddedImage(s, i, data), Fsp(s) - |data|;
    forall k | off <= k < PAGE_SIZE ensures r[k] == if k < Fsp(s) then data[k - off] else s[k] {
      AddedByte(s, i, data, k);
    }
  }

  lemma AddedHeader(s: Image, i: nat, data: seq<byte>, k: nat)
    requires CanAdd(s, i, |data|) && k < OFFSET_FREE_SPACE && !InField(k, OFFSET_ENTRY_CNT, 4)
    ensures AddedImage(s, i, data)[k] == s[k]
  {
    AddedByte(s, i, data, k);
  }

  // ---- removal ----

  /** Sixteen-bit wrap-around. */
  function Wrapped16(x: int): (r: int)
    ensures 0 <= r < TWO_TO_THE_16 && (0 <= x < TWO_TO_THE_16 ==> r == x)
  {
    x % TWO_TO_THE_16
  }

  /** The offset fix-up over the first `n` slots, in 16-bit arithmetic. */
  ghost function FixedUp(s: Image, n: nat, gone: Info): (r: Image)
    requires InfoField(n) <= PAGE_SIZE && IsInfo(gone)
  {
    if n == 0 then s else FixedUpSlot(FixedUp(s, n - 1, gone), n - 1, gone)
  }

  ghost function FixedUpSlot(s: Image, i: nat, gone: Info): Image
    requires InfoField(i + 1) <= PAGE_SIZE && IsInfo(gone)
  {
    var off := InfoAt(s, i).off;
    if off < gone.off then PutU16(s, InfoField(i), Wrapped16(off + gone.size)) else s
  }

  lemma FixedUpSlotByte(s: Image, i: nat, gone: Info, k: nat)
    requires InfoField(i + 1) <= PAGE_SIZE && IsInfo(gone) && k < PAGE_SIZE
    ensures !InField(k, InfoField(i), 2) ==> FixedUpSlot(s, i, gone)[k] == s[k]
  {
    var off := InfoAt(s, i).off;
    if off < gone.off { PutU16Byte(s, InfoField(i), Wrapped16(off + gone.size), k); }
  }

  lemma FixedUpSlotInfo(s: Image, i: nat, gone: Info)
    requires InfoField(i + 1) <= PAGE_SIZE && IsInfo(gone)
    requires InfoAt(s, i).off < gone.off ==> InfoAt(s, i).off + gone.size < TWO_TO_THE_16
    ensures InfoAt(FixedUpSlot(s, i, gone), i) == Moved(InfoAt(s, i), gone)
  {
    var off := InfoAt(s, i).off;
    if off < gone.off {
      PutU16Byte(s, InfoField(i), off + gone.size, InfoField(i));
      PutU16Other(s, InfoField(i), off + gone.size, InfoField(i) + 2);
    }
  }

  lemma FixedUpSlotOther(s: Image, i: nat, gone: Info, k: nat)
    requires InfoField(i + 1) <= PAGE_SIZE && IsInfo(gone) && InfoField(k + 1) <= PAGE_SIZE && k != i
    ensures InfoAt(FixedUpSlot(s, i, gone), k) == InfoAt(s, k)
  {
    FixedUpSlotByte(s, i, gone, InfoField(k));
    FixedUpSlotByte(s, i, gone, InfoField(k) + 1);
    FixedUpSlotByte(s, i, gone, InfoField(k) + 2);
    FixedUpSlotByte(s, i, gone, InfoField(k) + 3);
    InfoKept(s, k, FixedUpSlot(s, i, gone), k);
  }

  lemma {:induction false} FixedUpByte(s: Image, n: nat, gone: Info, k: nat)
    requires InfoField(n) <= PAGE_SIZE && IsInfo(gone) && k < PAGE_SIZE && !(InfoField(0) <= k < InfoField(n))
    ensures FixedUp(s, n, gone)[k] == s[k]
  {
    if n > 0 {
      FixedUpByte(s, n - 1, gone, k);
      FixedUpSlotByte(FixedUp(s, n - 1, gone), n - 1, gone, k);
    }
  }

  lemma {:induction false} FixedUpInfo(s: Image, n: nat, gone: Info, i: nat)
    requires InfoField(n) <= PAGE_SIZE && IsInfo(gone) && InfoField(i + 1) <= PAGE_SIZE
    requires InfoAt(s, i).off < gone.off ==> InfoAt(s, i).off + gone.size < TWO_TO_THE_16
    ensures InfoAt(FixedUp(s, n, gone), i) == if i < n then Moved(InfoAt(s, i), gone) else InfoAt(s, i)
  {
    if n > 0 {
      FixedUpInfo(s, n - 1, gone, i);
      var t := FixedUp(s, n - 1, gone);
      if i == n - 1 { FixedUpSlotInfo(t, i, gone); } else { FixedUpSlotOther(t, n - 1, gone, i); }
    }
  }

  /** The entry lies behind the free space pointer, that behind the slots. */
  predicate Removable(fsp: int, n: nat, i: nat, e: Info) {
    i < n && InfoField(n) <= fsp <= e.off && 0 <= e.size && e.off + e.size <= PAGE_SIZE
  }

  predicate CanRemove(s: Image, i: nat) {
    0 <= Cnt(s) && DirectoryFits(s) && i < Cnt(s) && Removable(Fsp(s), Cnt(s), i, InfoAt(s, i))
  }

  lemma LayoutCanRemove(s: Image, i: nat)
    requires Layout(s) && i < Cnt(s)
    ensures CanRemove(s, i)
  {
    assert InArea(Infos(s)[i], Fsp(s));
  }

  /** The bytes in front of the entry moved up over it, and the free space pointer with them. */
  ghost function PayloadSlid(s: Image, fsp: nat, e: Info): Image
    requires fsp <= e.off && 0 <= e.size && e.off + e.size <= PAGE_SIZE
  {
    PutU32(Splice(s, fsp + e.size, s[fsp..e.off]), OFFSET_FREE_SPACE, fsp + e.size)
  }

  ghost function SlotSlid(s: Image, i: nat, n: nat): Image
    requires i < n && InfoField(n) <= PAGE_SIZE
  {
    Splice(s, InfoField(i), s[InfoField(i + 1)..InfoField(n)])
  }

  /** Offsets fixed up, then the slot closed. */
  ghost function SlotClosed(s: Image, n: nat, i: nat, e: Info): Image
    requires i < n && InfoField(n) <= PAGE_SIZE && IsInfo(e)
  {
    SlotSlid(FixedUp(s, n, e), i, n)
  }

  ghost function RemovedBytes(s: Image, fsp: int, n: nat, i: nat, e: Info): Image
    requires Removable(fsp, n, i, e)
  {
    PutU32(SlotClosed(PayloadSlid(s, fsp, e), n, i, e), OFFSET_ENTRY_CNT, n - 1)
  }

  ghost function RemovedImage(s: Image, i: nat): Image
    requires CanRemove(s, i)
  {
    RemovedBytes(s, Fsp(s), Cnt(s), i, InfoAt(s, i))
  }

  lemma PayloadSlidByte(s: Image, fsp: nat, e: Info, k: nat)
    requires fsp <= e.off && 0 <= e.size && e.off + e.size <= PAGE_SIZE
    requires k < PAGE_SIZE && !InField(k, OFFSET_FREE_SPACE, 4)
    ensures PayloadSlid(s, fsp, e)[k] == if fsp + e.size <= k < e.off + e.size then s[k - e.size] else s[k]
  {
    PutU32Byte(Splice(s, fsp + e.size, s[fsp..e.off]), OFFSET_FREE_SPACE, fsp + e.size, k);
    SpliceByte(s, fsp + e.size, s[fsp..e.off], k);
  }

  lemma PayloadSlidFsp(s: Image, fsp: nat, e: Info)
    requires fsp <= e.off && 0 <= e.size && e.off + e.size <= PAGE_SIZE
    ensures Fsp(PayloadSlid(s, fsp, e)) == fsp + e.size
  {
    PutU32Read(Splice(s, fsp + e.size, s[fsp..e.off]), OFFSET_FREE_SPACE, fsp + e.size);
  }

  lemma PayloadSlidInfo(s: Image, fsp: nat, n: nat, i: nat, e: Info, k: nat)
    requires Removable(fsp, n, i, e) && k < n
    ensures InfoAt(PayloadSlid(s, fsp, e), k) == InfoAt(s, k)
  {
    PayloadSlidByte(s, fsp, e, InfoField(k));
    PayloadSlidByte(s, fsp, e, InfoField(k) + 1);
    PayloadSlidByte(s, fsp, e, InfoField(k) + 2);
    PayloadSlidByte(s, fsp, e, InfoField(k) + 3);
    InfoKept(s, k, PayloadSlid(s, fsp, e), k);
  }

  lemma SlotClosedByte(s: Image, n: nat, i: nat, e: Info, k: nat)
    requires i < n && InfoField(n) <= PAGE_SIZE && IsInfo(e) && k < PAGE_SIZE && !(InfoField(0) <= k < InfoField(n))
    ensures SlotClosed(s, n, i, e)[k] == s[k]
  {
    var t := FixedUp(s, n, e);
    SpliceByte(t, InfoField(i), t[InfoField(i + 1)..InfoField(n)], k);
    FixedUpByte(s, n, e, k);
  }

  lemma SlotClosedField(s: Image, n: nat, i: nat, e: Info, o: nat)
    requires i < n && InfoField(n) <= PAGE_SIZE && IsInfo(e) && o + 4 <= OFFSET_ENTRY_INFOS
    ensures U32At(SlotClosed(s, n, i, e), o) == U32At(s, o)
  {
    SlotClosedByte(s, n, i, e, o);
    SlotClosedByte(s, n, i, e, o + 1);
    SlotClosedByte(s, n, i, e, o + 2);
    SlotClosedByte(s, n, i, e, o + 3);
    U32Kept(s, SlotClosed(s, n, i, e), o);
  }

  lemma SlotSlidInfo(s: Image, i: nat, n: nat, k: nat)
    requires i < n && k < n - 1 && InfoField(n) <= PAGE_SIZE
    ensures InfoAt(SlotSlid(s, i, n), k) == InfoAt(s, if k < i then k else k + 1)
  {
    var r, k0 := SlotSlid(s, i, n), if k < i then k else k + 1;
    var from, to := InfoField(k), InfoField(k) + 4;
    forall j | from <= j < to ensures r[j] == s[if k < i then j else j + 4] {
      SpliceByte(s, InfoField(i), s[InfoField(i + 1)..InfoField(n)], j);
    }
    assert r[from] == s[InfoField(k0)];
    InfoKept(s, k0, r, k);
  }

  lemma CntKeepsInfo(s: Image, cnt: int, k: nat)
    requires 0 <= cnt < TWO_TO_THE_32 && InfoField(k + 1) <= PAGE_SIZE
    ensures InfoAt(PutU32(s, OFFSET_ENTRY_CNT, cnt), k) == InfoAt(s, k)
  {
    PutU32Byte(s, OFFSET_ENTRY_CNT, cnt, InfoField(k));
    PutU32Byte(s, OFFSET_ENTRY_CNT, cnt, InfoField(k) + 1);
    PutU32Byte(s, OFFSET_ENTRY_CNT, cnt, InfoField(k) + 2);
    PutU32Byte(s, OFFSET_ENTRY_CNT, cnt, InfoField(k) + 3);
    InfoKept(s, k, PutU32(s, OFFSET_ENTRY_CNT, cnt), k);
  }

  /** Outside the slots and the two counters. */
  lemma RemovedByte(s: Image, fsp: int, n: nat, i: nat, e: Info, k: nat)
    requires Removable(fsp, n, i, e) && k < PAGE_SIZE
    requires !InField(k, OFFSET_ENTRY_CNT, 4) && !InField(k, OFFSET_FREE_SPACE, 4) && !(InfoField(0) <= k < InfoField(n))
    ensures RemovedBytes(s, fsp, n, i, e)[k] == if fsp + e.size <= k < e.off + e.size then s[k - e.size] else s[k]
  {
    var s2 := PayloadSlid(s, fsp, e);
    PutU32Byte(SlotClosed(s2, n, i, e), OFFSET_ENTRY_CNT, n - 1, k);
    SlotClosedByte(s2, n, i, e, k);
    PayloadSlidByte(s, fsp, e, k);
  }

  lemma RemovedFields(s: Image, fsp: int, n: nat, i: nat, e: Info)
    requires Removable(fsp, n, i, e)
    ensures Cnt(RemovedBytes(s, fsp, n, i, e)) == n - 1 && Fsp(RemovedBytes(s, fsp, n, i, e)) == fsp + e.size
  {
    var s2 := PayloadSlid(s, fsp, e);
    var s3 := SlotClosed(s2, n, i, e);
    PutU32Read(s3, OFFSET_ENTRY_CNT, n - 1);
    PutU32Other(s3, OFFSET_ENTRY_CNT, n - 1, OFFSET_FREE_SPACE);
    SlotClosedField(s2, n, i, e, OFFSET_FREE_SPACE);
    PayloadSlidFsp(s, fsp, e);
  }

  lemma RemovedInfo(s: Image, fsp: int, n: nat, i: nat, e: Info, k: nat)
    requires Removable(fsp, n, i, e) && k < n - 1
    requires var a := InfoAt(s, if k < i then k else k + 1); a.off < e.off ==> a.off + e.size < TWO_TO_THE_16
    ensures InfoAt(RemovedBytes(s, fsp, n, i, e), k) == Moved(InfoAt(s, if k < i then k else k + 1), e)
  {
    var k0, s2 := if k < i then k else k + 1, PayloadSlid(s, fsp, e);
    PayloadSlidInfo(s, fsp, n, i, e, k0);
    SlotClosedInfo(s2, n, i, e, k);
    CntKeepsInfo(SlotClosed(s2, n, i, e), n - 1, k);
  }

  lemma SlotClosedInfo(s: Image, n: nat, i: nat, e: Info, k: nat)
    requires i < n && InfoField(n) <= PAGE_SIZE && IsInfo(e) && k < n - 1
    requires var a := InfoAt(s, if k < i then k else k + 1); a.off < e.off ==> a.off + e.size < TWO_TO_THE_16
    ensures InfoAt(SlotClosed(s, n, i, e), k) == Moved(InfoAt(s, if k < i then k else k + 1), e)
  {
    FixedUpInfo(s, n, e, if k < i then k else k + 1);
    SlotSlidInfo(FixedUp(s, n, e), i, n, k);
  }

  /** The bytes of `s` from `lo` to `hi` stand `d` further on in `r`. */
  ghost predicate SlidBy(s: Image, r: Image, lo: nat, hi: nat, d: nat) {
    hi + d <= PAGE_SIZE && forall k :: lo + d <= k < hi + d ==> r[k] == s[k - d]
  }

  lemma RemovedArea(s: Image, fsp: int, n: nat, i: nat, e: Info)
    requires Removable(fsp, n, i, e)
    ensures var r := RemovedBytes(s, fsp, n, i, e);
            r[fsp + e.size..e.off + e.size] == s[fsp..e.off] && r[e.off + e.size..] == s[e.off + e.size..]
  {
    var r := RemovedBytes(s, fsp, n, i, e);
    forall k | fsp + e.size <= k < e.off + e.size ensures r[k] == s[k - e.size] { RemovedByte(s, fsp, n, i, e, k); }
    forall k | e.off + e.size <= k < PAGE_SIZE ensures r[k] == s[k] { RemovedByte(s, fsp, n, i, e, k); }
    SlidSlices(s, r, fsp, e.off, e.size);
  }

  lemma SlidSlices(s: Image, r: Image, lo: nat, hi: nat, d: nat)
    requires lo <= hi && SlidBy(s, r, lo, hi, d) && SlidBy(s, r, hi + d, PAGE_SIZE, 0)
    ensures r[lo + d..hi + d] == s[lo..hi] && r[hi + d..] == s[hi + d..]
  {
    SameSlice(s, r, lo, hi, d);
    SameRest(s, r, hi + d);
  }

  lemma SameRest(s: Image, r: Image, from: nat)
    requires from <= PAGE_SIZE && forall k :: from <= k < PAGE_SIZE ==> r[k] == s[k]
    ensures r[from..] == s[from..]
  {
  }

  lemma SameSlice(s: Image, r: Image, lo: nat, hi: nat, d: nat)
    requires lo <= hi && hi + d <= PAGE_SIZE
    requires forall k :: lo + d <= k < hi + d ==> r[k] == s[k - d]
    ensures r[lo + d..hi + d] == s[lo..hi]
  {
    var x, y := r[lo + d..hi + d], s[lo..hi];
    assert forall k :: 0 <= k < |x| ==> x[k] == r[lo + d + k] == s[lo + k] == y[k];
  }

  /** The steps of `RemoveInner` take the entry out and leave the others whole. */
  lemma RemovedImageOk(s: Image, i: nat)
    requires Layout(s) && i < Cnt(s) && CanRemove(s, i)
    ensures EntryRemoved(s, RemovedImage(s, i), i)
  {
    var r, e, n := RemovedImage(s, i), InfoAt(s, i), Cnt(s);
    RemovedFields(s, Fsp(s), n, i, e);
    forall k: nat | k < n - 1 ensures Infos(r)[k] == WithoutInfo(Infos(s), i)[k] {
      ApartFrom(Infos(s), Fsp(s), i, if k < i then k else k + 1);
      RemovedInfo(s, Fsp(s), n, i, e, k);
    }
    assert Infos(r) == WithoutInfo(Infos(s), i);
    RemovedArea(s, Fsp(s), n, i, e);
  }

  lemma RemovedHeader(s: Image, i: nat, k: nat)
    requires CanRemove(s, i) && k < OFFSET_FREE_SPACE && !InField(k, OFFSET_ENTRY_CNT, 4)
    ensures RemovedImage(s, i)[k] == s[k]
  {
    RemovedByte(s, Fsp(s), Cnt(s), i, InfoAt(s, i), k);
  }
}
