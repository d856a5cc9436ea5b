/** What the insertion of a key already present does to the page: `SetEntry` appends the new bytes
  * and points the slot at them.  The old bytes stay where they are, and nobody asks for room. */
module BlockPageOverwrite {
  import opened Bytes
  import opened BlockPageLayout
  import opened BlockPageImages

  predicate CanOverwrite(s: Image, i: nat, n: nat) {
    DirectoryFits(s) && i < Cnt(s) && OFFSET_ENTRY_INFOS + n <= Fsp(s) <= PAGE_SIZE
  }

  /** Payload, free space pointer and slot; then the count goes up. */
  ghost function SetImage(s: Image, i: nat, data: seq<byte>): Image
    requires CanOverwrite(s, i, |data|)
  {
    PutInfo(PayloadAdded(s, data), i, Info(Fsp(s) - |data|, |data|))
  }

  /** The caller takes the count down again. */
  ghost function OverwrittenImage(s: Image, i: nat, data: seq<byte>): Image
    requires CanOverwrite(s, i, |data|)
  {
    PutU32(PutU32(SetImage(s, i, data), OFFSET_ENTRY_CNT, Cnt(s) + 1), OFFSET_ENTRY_CNT, Cnt(s))
  }

  lemma SetField(s: Image, i: nat, data: seq<byte>, o: nat)
    requires CanOverwrite(s, i, |data|) && o + 4 <= OFFSET_ENTRY_INFOS
    ensures U32At(SetImage(s, i, data), o) == U32At(PayloadAdded(s, data), o)
  {
    var t, e := PayloadAdded(s, data), Info(Fsp(s) - |data|, |data|);
    SpliceOther(t, InfoField(i), EncodeU16(e.off), o);
    SpliceOther(PutU16(t, InfoField(i), e.off), InfoField(i) + 2, EncodeU16(e.size), o);
  }

  lemma SetCounters(s: Image, i: nat, data: seq<byte>)
    requires CanOverwrite(s, i, |data|)
    ensures Cnt(SetImage(s, i, data)) == Cnt(s) && Fsp(SetImage(s, i, data)) == Fsp(s) - |data|
  {
    var off := Fsp(s) - |data|;
    SetField(s, i, data, OFFSET_ENTRY_CNT);
    SetField(s, i, data, OFFSET_FREE_SPACE);
    PutU32Other(Splice(s, off, data), OFFSET_FREE_SPACE, off, OFFSET_ENTRY_CNT);
    SpliceOther(s, off, data, OFFSET_ENTRY_CNT);
    PutU32Read(Splice(s, off, data), OFFSET_FREE_SPACE, off);
  }

  lemma OverwrittenCounters(s: Image, i: nat, data: seq<byte>)
    requires CanOverwrite(s, i, |data|)
    ensures Cnt(OverwrittenImage(s, i, data)) == Cnt(s) && Fsp(OverwrittenImage(s, i, data)) == Fsp(s) - |data|
  {
    var t := SetImage(s, i, data);
    var u := PutU32(t, OFFSET_ENTRY_CNT, Cnt(s) + 1);
    SetCounters(s, i, data);
    PutU32Read(u, OFFSET_ENTRY_CNT, Cnt(s));
    PutU32Other(u, OFFSET_ENTRY_CNT, Cnt(s), OFFSET_FREE_SPACE);
    PutU32Other(t, OFFSET_ENTRY_CNT, Cnt(s) + 1, OFFSET_FREE_SPACE);
  }

  /** Room is lost though nothing was added; and when there was too little of it, what remains
    * wraps around to some four billion bytes. */
  lemma OverwriteLosesRoom(s: Image, i: nat, data: seq<byte>)
    requires Layout(s) && CanOverwrite(s, i, |data|)
    ensures DirectoryFits(OverwrittenImage(s, i, data))
    ensures FreeSpaceRemaining(OverwrittenImage(s, i, data)) ==
            FreeSpaceRemaining(s) - |data| + if |data| <= FreeSpaceRemaining(s) then 0 else TWO_TO_THE_32
  {
    OverwrittenCounters(s, i, data);
    RoomIsExact(s);
  }

  // ---- with room enough, every entry reads back ----

  predicate RoomFor(s: Image, n: nat) { OFFSET_ENTRY_INFOS + 4 * Cnt(s) + n <= Fsp(s) }

  lemma OverwrittenByte(s: Image, i: nat, data: seq<byte>, k: nat)
    requires CanOverwrite(s, i, |data|) && k < PAGE_SIZE
    requires !InField(k, OFFSET_ENTRY_CNT, 4) && !InField(k, OFFSET_FREE_SPACE, 4) && !InField(k, InfoField(i), 4)
    ensures OverwrittenImage(s, i, data)[k] ==
            if Fsp(s) - |data| <= k < Fsp(s) then data[k - (Fsp(s) - |data|)] else s[k]
  {
    var t, u := PayloadAdded(s, data), SetImage(s, i, data);
    PutU32Byte(PutU32(u, OFFSET_ENTRY_CNT, Cnt(s) + 1), OFFSET_ENTRY_CNT, Cnt(s), k);
    PutU32Byte(u, OFFSET_ENTRY_CNT, Cnt(s) + 1, k);
    PutInfoByte(t, i, Info(Fsp(s) - |data|, |data|), k);
    AddPayloadByte(s, data, k);
  }

  lemma OverwrittenSlot(s: Image, i: nat, data: seq<byte>)
    requires CanOverwrite(s, i, |data|)
    ensures InfoAt(OverwrittenImage(s, i, data), i) == Info(Fsp(s) - |data|, |data|)
  {
    var u := SetImage(s, i, data);
    PutInfoByte(PayloadAdded(s, data), i, Info(Fsp(s) - |data|, |data|), 0);
    CntKeepsInfo(u, Cnt(s) + 1, i);
    CntKeepsInfo(PutU32(u, OFFSET_ENTRY_CNT, Cnt(s) + 1), Cnt(s), i);
  }

  lemma OtherSlot(s: Image, i: nat, data: seq<byte>, k: nat)
    requires CanOverwrite(s, i, |data|) && RoomFor(s, |data|) && k < Cnt(s) && k != i
    ensures InfoAt(OverwrittenImage(s, i, data), k) == InfoAt(s, k)
  {
    OtherSlotByte(s, i, data, k, 0);
    OtherSlotByte(s, i, data, k, 1);
    OtherSlotByte(s, i, data, k, 2);
    OtherSlotByte(s, i, data, k, 3);
    InfoKept(s, k, OverwrittenImage(s, i, data), k);
  }

  lemma OtherSlotByte(s: Image, i: nat, data: seq<byte>, k: nat, j: nat)
    requires CanOverwrite(s, i, |data|) && RoomFor(s, |data|) && k < Cnt(s) && k != i && j < 4
    ensures OverwrittenImage(s, i, data)[InfoField(k) + j] == s[InfoField(k) + j]
  {
    OverwrittenByte(s, i, data, InfoField(k) + j);
  }

  /** Where an entry lies and what it is. */
  ghost predicate Reads(r: Image, k: nat, b: seq<byte>)
    requires InfoField(k + 1) <= PAGE_SIZE
  {
    var e := InfoAt(r, k);
    0 <= e.off && 0 <= e.size && e.off + e.size <= PAGE_SIZE && BytesOf(r, e) == b
  }

  lemma OverwriteReads(s: Image, i: nat, data: seq<byte>, k: nat)
    requires Layout(s) && CanOverwrite(s, i, |data|) && RoomFor(s, |data|) && k < Cnt(s)
    ensures Reads(OverwrittenImage(s, i, data), k, if k == i then data else Entries(s)[k])
  {
    var r, off := OverwrittenImage(s, i, data), Fsp(s) - |data|;
    if k == i {
      OverwrittenSlot(s, i, data);
      forall j | off <= j < Fsp(s) ensures r[j] == data[j - off] { OverwrittenByte(s, i, data, j); }
    } else {
      OtherSlot(s, i, data, k);
      assert InArea(Infos(s)[k], Fsp(s));
      forall j | Fsp(s) <= j < PAGE_SIZE ensures r[j] == s[j] { OverwrittenByte(s, i, data, j); }
      SameRest(s, r, Fsp(s));
      SameTail(s, r, Fsp(s), InfoAt(s, k));
    }
  }

  /** Without it the new bytes run over the slots of the directory. */
  lemma OverwriteHitsSlots(s: Image, i: nat, data: seq<byte>, k: nat)
    requires Layout(s) && CanOverwrite(s, i, |data|) && !RoomFor(s, |data|)
    requires Fsp(s) - |data| <= k < InfoField(Cnt(s)) && !InField(k, InfoField(i), 4)
    ensures OverwrittenImage(s, i, data)[k] == data[k - (Fsp(s) - |data|)]
  {
    OverwrittenByte(s, i, data, k);
  }
}
