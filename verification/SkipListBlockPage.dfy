/** A skip list node as the source keeps it: one array of 4096 bytes, changed in place.
  * Insertion, removal and replacement are proved to be those of the sequence of entries. */
module SkipListBlockPage {
  import opened Bytes
  import opened BlockPageLayout
  import opened BlockPageImages
  import opened BlockPagePacking
  import opened BlockPageOverwrite
  import opened EntryBytes
  import ByteArrays
  import KeyOrder
  import SkipListNode

  /** Page id, LSN, level and forward links: everything in front of the free space pointer but the count. */
  ghost predicate SameHeader(s: Image, r: Image) {
    forall k :: 0 <= k < OFFSET_FREE_SPACE && !InField(k, OFFSET_ENTRY_CNT, 4) ==> r[k] == s[k]
  }

  class SkipListBlockPage {
    const data: array<byte>

    ghost predicate Valid()
      reads data
    {
      data.Length == PAGE_SIZE && Layout(data[..])
    }

    ghost function Contents(): seq<seq<byte>>
      reads data
      requires Valid()
    {
      Entries(data[..])
    }

    method GetEntryCnt() returns (n: nat)
      requires data.Length == PAGE_SIZE
      ensures n == Cnt(data[..])
    {
      n := ByteArrays.GetU32(data, OFFSET_ENTRY_CNT);
    }

    method GetFreeSpacePointer() returns (x: nat)
      requires data.Length == PAGE_SIZE
      ensures x == Fsp(data[..])
    {
      x := ByteArrays.GetU32(data, OFFSET_FREE_SPACE);
    }

    method GetEntryInfo(i: nat) returns (e: Info)
      requires data.Length == PAGE_SIZE && InfoField(i + 1) <= PAGE_SIZE
      ensures e == InfoAt(data[..], i)
    {
      var o := InfoField(i);
      e := Info(BigEndian(data[o..o + 2]), BigEndian(data[o + 2..o + 4]));
      assert data[..][o..o + 2] == data[o..o + 2] && data[..][o + 2..o + 4] == data[o + 2..o + 4];
    }

    method SetEntryInfo(i: nat, e: Info)
      requires data.Length == PAGE_SIZE && InfoField(i + 1) <= PAGE_SIZE && IsInfo(e)
      modifies data
      ensures data[..] == PutInfo(old(data[..]), i, e)
    {
      ByteArrays.SetU16(data, InfoField(i), e.off);
      ByteArrays.SetU16(data, InfoField(i) + 2, e.size);
    }

    /** Reads the serialized entry back. */
    method GetEntry(i: nat) returns (b: seq<byte>)
      requires Valid() && i < |Contents()|
      ensures b == Contents()[i]
    {
      var e := GetEntryInfo(i);
      assert InArea(Infos(data[..])[i], Fsp(data[..]));
      b := data[e.off..e.off + e.size];
      assert b == BytesOf(data[..], e) == EntryAt(data[..], i);
    }

    /** The key of entry `i`. */
    method KeyAt(i: nat) returns (key: seq<byte>)
      requires Valid() && i < |Contents()| && AllEntries(Contents())
      ensures KeyOrder.Rank(key) == NodeOf(Contents())[i].key
    {
      var b := GetEntry(i);
      key := KeyString(b);
    }

    /** Bisection over the keys read from the page: it ends where the node's search ends. */
    method FindEntryByKey(key: seq<byte>) returns (found: bool, index: int)
      requires Valid() && Contents() != [] && AllEntries(Contents()) && SkipListNode.Sorted(NodeOf(Contents()))
      ensures SkipListNode.SearchEnds(NodeOf(Contents()), KeyOrder.Rank(key), found, index)
    {
      var n := GetEntryCnt();
      if n == 1 {
        found, index := FindInOne(key);
      } else {
        found, index := Bisect(n, key, NodeOf(Contents()));
      }
    }

    method Bisect(n: nat, key: seq<byte>, ghost es: seq<SkipListNode.Entry>) returns (found: bool, index: int)
      requires Valid() && AllEntries(Contents()) && es == NodeOf(Contents()) && SkipListNode.Sorted(es) && n == |es| > 1
      ensures SkipListNode.SearchEnds(es, KeyOrder.Rank(key), found, index)
    {
      ghost var rank := KeyOrder.Rank(key);
      var low: int, high: int := 0, n - 1;
      while low <= high
        invariant SkipListNode.Narrowed(es, rank, low, high)
        decreases high - low
      {
        var mid := (low + high) / 2;
        var order := CompareAt(mid, key, es);
        if order == 0 { return true, mid; }
        if order < 0 {
          SkipListNode.NarrowsUp(es, rank, low, high, mid);
          low := mid + 1;
        } else {
          SkipListNode.NarrowsDown(es, rank, low, high, mid);
          high := mid - 1;
        }
      }
      SkipListNode.NarrowedToNothing(es, rank, low, high);
      found := false;
      index := if low < high then low else if high < 0 then 0 else high;
    }

    /** `CompareEquals`, then `CompareLessThan`, with the key of entry `i` on the left. */
    method CompareAt(i: nat, key: seq<byte>, ghost es: seq<SkipListNode.Entry>) returns (order: int)
      requires Valid() && AllEntries(Contents()) && es == NodeOf(Contents()) && i < |es|
      ensures order == 0 <==> es[i].key == KeyOrder.Rank(key)
      ensures order < 0 <==> es[i].key < KeyOrder.Rank(key)
    {
      var k := KeyAt(i);
      KeyOrder.RankOrder(k, key);
      order := if KeyOrder.Equals(k, key) then 0 else if KeyOrder.LessThan(k, key) then -1 else 1;
    }

    method FindInOne(key: seq<byte>) returns (found: bool, index: int)
      requires Valid() && |Contents()| == 1 && AllEntries(Contents())
      ensures SkipListNode.SearchEnds(NodeOf(Contents()), KeyOrder.Rank(key), found, index)
    {
      var k := KeyAt(0);
      KeyOrder.RankOrder(k, key);
      KeyOrder.RankBounds(k);
      if KeyOrder.Equals(k, key) { return true, 0; }
      if k == KeyOrder.INF_MIN { return false, 0; }
      if KeyOrder.LessThan(k, key) { return false, 0; }
      return false, -1;
    }

    /** The part of `Insert` that needs no split: a key not yet there goes behind its neighbour. */
    method InsertKey(key: seq<byte>, value: int) returns (found: bool)
      requires Valid() && Contents() != [] && AllEntries(Contents()) && SkipListNode.Sorted(NodeOf(Contents()))
      requires NodeOf(Contents())[0].key < KeyOrder.Rank(key)
      requires |key| < TWO_TO_THE_16 && 0 <= value < TWO_TO_THE_64
      requires |key| + 15 <= PAGE_SIZE - OFFSET_ENTRY_INFOS - Taken(Contents())
      modifies data
      ensures Valid() && AllEntries(Contents()) && SkipListNode.Sorted(NodeOf(Contents()))
      ensures found <==> exists i :: 0 <= i < |old(Contents())| && KeyString(old(Contents())[i]) == key
      ensures found ==> data[..] == old(data[..])
      ensures !found ==> SameHeader(old(data[..]), data[..])
      ensures !found ==> multiset(Contents()) == multiset(old(Contents())) + multiset{SerializeEntry(key, value)}
    {
      ghost var bs := Contents();
      var index;
      found, index := FindEntryByKey(key);
      FoundByString(bs, key, found, index);
      if found { return; }
      EntryOfSerialized(key, value);
      InsertionKeepsOrder(bs, key, value, index);
      InsertInner(index, SerializeEntry(key, value));
      InsertedMultiset(bs, index + 1, SerializeEntry(key, value));
    }

    /** The subtractions never wrap: the answer is the capacity less what the entries take. */
    method GetFreeSpaceRemaining() returns (x: nat)
      requires Valid()
      ensures x == PAGE_SIZE - OFFSET_ENTRY_INFOS - Taken(Contents())
    {
      var fsp := GetFreeSpacePointer();
      var n := GetEntryCnt();
      RoomIsExact(data[..]);
      x := Minus(Minus(fsp, 1), OFFSET_ENTRY_INFOS + 4 * n - 1);
    }

    /** Puts an entry behind entry `idx`, or in front of all of them for -1. */
    method InsertInner(idx: int, entry: seq<byte>)
      requires Valid() && -1 <= idx < |Contents()| && 0 < |entry|
      requires |entry| + 4 <= PAGE_SIZE - OFFSET_ENTRY_INFOS - Taken(Contents())
      modifies data
      ensures Valid() && Contents() == InsertedAt(old(Contents()), idx + 1, entry)
      ensures SameHeader(old(data[..]), data[..])
    {
      InsertedWell(data[..], idx + 1, entry);
      InsertBytes(idx, entry);
    }

    method InsertBytes(idx: int, entry: seq<byte>)
      requires data.Length == PAGE_SIZE && -1 <= idx < Cnt(data[..]) && CanAdd(data[..], idx + 1, |entry|)
      modifies data
      ensures data[..] == AddedImage(old(data[..]), idx + 1, entry)
    {
      ghost var s, n := data[..], Cnt(data[..]);
      AddedInSteps(s, n, idx + 1, entry);
      var offset := AppendPayload(entry);
      ghost var t := PayloadAdded(s, entry);
      UpdateEntryInfosAtInsert(n, idx, offset, |entry|);
      assert data[..] == SlotOpened(t, idx + 1, n, Info(offset, |entry|));
      AddToCnt(n, 1);
    }

    method AppendPayload(entry: seq<byte>) returns (offset: nat)
      requires data.Length == PAGE_SIZE && |entry| <= Fsp(data[..]) <= PAGE_SIZE
      modifies data
      ensures offset == Fsp(old(data[..])) - |entry|
      ensures data[..] == PayloadAdded(old(data[..]), entry)
    {
      var fsp := GetFreeSpacePointer();
      offset := fsp - |entry|;
      ByteArrays.CopyInto(data, offset, entry);
      ByteArrays.SetU32(data, OFFSET_FREE_SPACE, offset);
    }

    /** Slides the slots behind the new one and fills it in. */
    method UpdateEntryInfosAtInsert(ghost cnt: nat, idx: int, offset: nat, size: nat)
      requires data.Length == PAGE_SIZE && cnt == Cnt(data[..]) && -1 <= idx < cnt && InfoField(cnt + 1) <= PAGE_SIZE
      requires IsInfo(Info(offset, size))
      modifies data
      ensures data[..] == SlotOpened(old(data[..]), idx + 1, cnt, Info(offset, size))
    {
      var n := GetEntryCnt();
      ByteArrays.CopyInto(data, InfoField(idx + 2), data[InfoField(idx + 1)..InfoField(n)]);
      SetEntryInfo(idx + 1, Info(offset, size));
    }

    /** Appends the bytes and points slot `idx` at them, whatever it pointed at; no room is asked for. */
    method SetEntry(idx: nat, entry: seq<byte>)
      requires data.Length == PAGE_SIZE && CanOverwrite(data[..], idx, |entry|)
      modifies data
      ensures data[..] == PutU32(SetImage(old(data[..]), idx, entry), OFFSET_ENTRY_CNT, Cnt(old(data[..])) + 1)
    {
      ghost var s := data[..];
      SetCounters(s, idx, entry);
      PayloadKeepsCnt(s, entry);
      var offset := AppendPayload(entry);
      SetEntryInfo(idx, Info(offset, |entry|));
      assert data[..] == SetImage(s, idx, entry);
      AddToCnt(Cnt(s), 1);
    }

    /** The branch of `Insert` for a key that is there: `SetEntry`, and the count back. */
    method Overwrite(idx: nat, entry: seq<byte>)
      requires data.Length == PAGE_SIZE && CanOverwrite(data[..], idx, |entry|)
      modifies data
      ensures data[..] == OverwrittenImage(old(data[..]), idx, entry)
    {
      ghost var s := data[..];
      SetEntry(idx, entry);
      PutU32Read(SetImage(s, idx, entry), OFFSET_ENTRY_CNT, Cnt(s) + 1);
      AddToCnt(Cnt(s) + 1, -1);
    }

    /** Takes entry `idx` out. */
    method RemoveInner(idx: nat)
      requires Valid() && idx < |Contents()|
      modifies data
      ensures Valid() && Contents() == RemovedAt(old(Contents()), idx)
      ensures SameHeader(old(data[..]), data[..])
    {
      RemovedWell(data[..], idx);
      RemoveBytes(idx);
    }

    method RemoveBytes(idx: nat)
      requires data.Length == PAGE_SIZE && CanRemove(data[..], idx)
      modifies data
      ensures data[..] == RemovedImage(old(data[..]), idx)
    {
      var e := GetEntryInfo(idx);
      var fsp := GetFreeSpacePointer();
      RemoveSlot(fsp, Cnt(data[..]), idx, e);
    }

    method RemoveSlot(fsp: nat, ghost n: nat, idx: nat, e: Info)
      requires data.Length == PAGE_SIZE && Removable(fsp, n, idx, e) && n == Cnt(data[..]) && e == InfoAt(data[..], idx)
      modifies data
      ensures data[..] == RemovedBytes(old(data[..]), fsp, n, idx, e)
    {
      ghost var t := RemovedInSteps(data[..], fsp, n, idx, e);
      SlidePayload(fsp, e);
      RemoveFromDirectory(t, n, idx, e);
    }

    method RemoveFromDirectory(ghost t: Image, ghost n: nat, idx: nat, ghost e: Info)
      requires data.Length == PAGE_SIZE && data[..] == t
      requires idx < n && InfoField(n) <= PAGE_SIZE && IsInfo(e) && n == Cnt(t) && e == InfoAt(t, idx)
      modifies data
      ensures data[..] == PutU32(SlotClosed(t, n, idx, e), OFFSET_ENTRY_CNT, n - 1)
    {
      SlotClosedField(t, n, idx, e, OFFSET_ENTRY_CNT);
      UpdateEntryInfosAtRemove(n, idx, e);
      AddToCnt(n, -1);
    }

    method AddToCnt(ghost cnt: nat, d: int)
      requires data.Length == PAGE_SIZE && cnt == Cnt(data[..]) && 0 <= cnt + d < TWO_TO_THE_32
      modifies data
      ensures data[..] == PutU32(old(data[..]), OFFSET_ENTRY_CNT, cnt + d)
    {
      var n := GetEntryCnt();
      ByteArrays.SetU32(data, OFFSET_ENTRY_CNT, n + d);
    }

    method SlidePayload(fsp: nat, e: Info)
      requires data.Length == PAGE_SIZE && fsp <= e.off && 0 <= e.size && e.off + e.size <= PAGE_SIZE
      modifies data
      ensures data[..] == PayloadSlid(old(data[..]), fsp, e)
    {
      ByteArrays.CopyInto(data, fsp + e.size, data[fsp..e.off]);
      ByteArrays.SetU32(data, OFFSET_FREE_SPACE, fsp + e.size);
    }

    /** Follows the moved bytes with their offsets, then closes the gap in the directory. */
    method UpdateEntryInfosAtRemove(ghost cnt: nat, idx: nat, ghost e: Info)
      requires data.Length == PAGE_SIZE && idx < cnt && InfoField(cnt) <= PAGE_SIZE && IsInfo(e)
      requires cnt == Cnt(data[..]) && e == InfoAt(data[..], idx)
      modifies data
      ensures data[..] == SlotClosed(old(data[..]), cnt, idx, e)
    {
      var gone := GetEntryInfo(idx);
      var n := GetEntryCnt();
      FixUpSlots(n, gone);
      CloseSlot(idx, n);
    }

    method FixUpSlots(n: nat, gone: Info)
      requires data.Length == PAGE_SIZE && InfoField(n) <= PAGE_SIZE && IsInfo(gone)
      modifies data
      ensures data[..] == FixedUp(old(data[..]), n, gone)
    {
      ghost var s := data[..];
      for i := 0 to n
        invariant data[..] == FixedUp(s, i, gone)
      {
        FixUpSlot(i, gone);
      }
    }

    method FixUpSlot(i: nat, gone: Info)
      requires data.Length == PAGE_SIZE && InfoField(i + 1) <= PAGE_SIZE && IsInfo(gone)
      modifies data
      ensures data[..] == FixedUpSlot(old(data[..]), i, gone)
    {
      var e := GetEntryInfo(i);
      if e.off < gone.off {
        ByteArrays.SetU16(data, InfoField(i), Wrapped16(e.off + gone.size));
      }
    }

    method CloseSlot(idx: nat, n: nat)
      requires data.Length == PAGE_SIZE && idx < n && InfoField(n) <= PAGE_SIZE
      modifies data
      ensures data[..] == SlotSlid(old(data[..]), idx, n)
    {
      ByteArrays.CopyInto(data, InfoField(idx), data[InfoField(idx + 1)..InfoField(n)]);
    }

    /** Replaces all entries. */
    method SetEntries(entries: seq<seq<byte>>)
      requires data.Length == PAGE_SIZE && CanPack(entries)
      modifies data
      ensures Valid() && Contents() == entries
      ensures SameHeader(old(data[..]), data[..])
    {
      PackedEntries(data[..], entries);
      PackedHeaderKept(data[..], entries);
      WriteEntries(entries);
    }

    method WriteEntries(entries: seq<seq<byte>>)
      requires data.Length == PAGE_SIZE && CanPack(entries)
      modifies data
      ensures data[..] == PackedImage(old(data[..]), entries)
    {
      var buf := Pack(entries);
      var offset := PAGE_SIZE - |buf|;
      ByteArrays.CopyInto(data, offset, buf);
      WriteSlots(entries);
      ByteArrays.SetU32(data, OFFSET_FREE_SPACE, offset);
      ByteArrays.SetU32(data, OFFSET_ENTRY_CNT, |entries|);
    }

    method Pack(entries: seq<seq<byte>>) returns (buf: seq<byte>)
      ensures buf == Packed(entries)
    {
      buf := [];
      var ii := |entries|;
      assert entries[..ii] == entries;
      while ii > 0
        invariant 0 <= ii <= |entries|
        invariant buf + Packed(entries[..ii]) == Packed(entries)
      {
        ii := ii - 1;
        OneMore(entries, ii);
        buf := buf + entries[ii];
      }
    }

    method WriteSlots(entries: seq<seq<byte>>)
      requires data.Length == PAGE_SIZE && CanPack(entries)
      modifies data
      ensures data[..] == WithSlots(old(data[..]), entries, |entries|)
    {
      ghost var s := data[..];
      var entryOffset := PAGE_SIZE;
      for i := 0 to |entries|
        invariant entryOffset == PAGE_SIZE - Total(entries[..i])
        invariant data[..] == WithSlots(s, entries, i)
      {
        NextSlot(entries, i);
        entryOffset := entryOffset - |entries[i]|;
        SetEntryInfo(i, Info(entryOffset, |entries[i]|));
      }
    }
  }

  lemma NextSlot(es: seq<seq<byte>>, i: nat)
    requires CanPack(es) && i < |es|
    ensures SlotFor(es, i) == Info(PAGE_SIZE - Total(es[..i]) - |es[i]|, |es[i]|) && IsInfo(SlotFor(es, i))
    ensures Total(es[..i + 1]) == Total(es[..i]) + |es[i]|
  {
    OneMore(es, i);
    SlotFits(es, i);
  }

  lemma FoundByString(bs: seq<seq<byte>>, key: seq<byte>, found: bool, index: int)
    requires AllEntries(bs) && SkipListNode.SearchEnds(NodeOf(bs), KeyOrder.Rank(key), found, index)
    ensures found <==> exists i :: 0 <= i < |bs| && KeyString(bs[i]) == key
  {
    forall i | 0 <= i < |bs| ensures NodeOf(bs)[i].key == KeyOrder.Rank(key) <==> KeyString(bs[i]) == key {
      KeyOrder.RankOrder(KeyString(bs[i]), key);
    }
  }

  lemma InsertedMultiset(bs: seq<seq<byte>>, i: nat, b: seq<byte>)
    requires i <= |bs|
    ensures multiset(InsertedAt(bs, i, b)) == multiset(bs) + multiset{b}
  {
    assert bs == bs[..i] + bs[i..];
  }

  // ---- the operations on byte images ----

  lemma InsertedWell(s: Image, i: nat, data: seq<byte>)
    requires Layout(s) && i <= Cnt(s) && 0 < |data| && |data| + 4 <= PAGE_SIZE - OFFSET_ENTRY_INFOS - Taken(Entries(s))
    ensures CanAdd(s, i, |data|) && Layout(AddedImage(s, i, data))
    ensures Entries(AddedImage(s, i, data)) == InsertedAt(Entries(s), i, data)
    ensures SameHeader(s, AddedImage(s, i, data))
  {
    RoomIsExact(s);
    AddedImageOk(s, i, data);
    AddedEntries(s, AddedImage(s, i, data), i, data);
    AddedHeaderKept(s, i, data);
  }

  lemma RemovedWell(s: Image, i: nat)
    requires Layout(s) && i < Cnt(s)
    ensures CanRemove(s, i) && Layout(RemovedImage(s, i))
    ensures Entries(RemovedImage(s, i)) == RemovedAt(Entries(s), i)
    ensures SameHeader(s, RemovedImage(s, i))
  {
    LayoutCanRemove(s, i);
    RemovedImageOk(s, i);
    RemovedEntries(s, RemovedImage(s, i), i);
    RemovedHeaderKept(s, i);
  }

  // ---- what the intermediate steps leave alone ----

  lemma AddedHeaderKept(s: Image, i: nat, data: seq<byte>)
    requires CanAdd(s, i, |data|)
    ensures SameHeader(s, AddedImage(s, i, data))
  {
    forall k | 0 <= k < OFFSET_FREE_SPACE && !InField(k, OFFSET_ENTRY_CNT, 4) ensures AddedImage(s, i, data)[k] == s[k] {
      AddedHeader(s, i, data, k);
    }
  }

  lemma RemovedHeaderKept(s: Image, i: nat)
    requires CanRemove(s, i)
    ensures SameHeader(s, RemovedImage(s, i))
  {
    forall k | 0 <= k < OFFSET_FREE_SPACE && !InField(k, OFFSET_ENTRY_CNT, 4) ensures RemovedImage(s, i)[k] == s[k] {
      RemovedHeader(s, i, k);
    }
  }

  lemma PackedHeaderKept(s: Image, es: seq<seq<byte>>)
    requires CanPack(es)
    ensures SameHeader(s, PackedImage(s, es))
  {
    forall k | 0 <= k < OFFSET_FREE_SPACE && !InField(k, OFFSET_ENTRY_CNT, 4) ensures PackedImage(s, es)[k] == s[k] {
      PackedHeader(s, es, k);
    }
  }

  lemma PayloadKeepsCnt(s: Image, data: seq<byte>)
    requires |data| + OFFSET_ENTRY_INFOS <= Fsp(s) <= PAGE_SIZE
    ensures Cnt(PayloadAdded(s, data)) == Cnt(s)
  {
    var off := Fsp(s) - |data|;
    PutU32Other(Splice(s, off, data), OFFSET_FREE_SPACE, off, OFFSET_ENTRY_CNT);
    SpliceOther(s, off, data, OFFSET_ENTRY_CNT);
  }

  lemma SlotsKeepCnt(s: Image, i: nat, data: seq<byte>)
    requires CanAdd(s, i, |data|)
    ensures Cnt(AddSteps(s, i, data).2) == Cnt(s)
  {
    PayloadKeepsCnt(s, data);
    SlotOpenedField(PayloadAdded(s, data), i, Cnt(s), Info(Fsp(s) - |data|, |data|), OFFSET_ENTRY_CNT);
  }

  lemma AddedInSteps(s: Image, n: nat, i: nat, data: seq<byte>)
    requires CanAdd(s, i, |data|) && n == Cnt(s)
    ensures Cnt(PayloadAdded(s, data)) == n
    ensures var t := SlotOpened(PayloadAdded(s, data), i, n, Info(Fsp(s) - |data|, |data|));
            Cnt(t) == n && AddedImage(s, i, data) == PutU32(t, OFFSET_ENTRY_CNT, n + 1)
  {
    PayloadKeepsCnt(s, data);
    SlotsKeepCnt(s, i, data);
  }

  lemma PayloadSlidCnt(s: Image, fsp: nat, e: Info)
    requires OFFSET_ENTRY_INFOS <= fsp <= e.off && 0 <= e.size && e.off + e.size <= PAGE_SIZE
    ensures Cnt(PayloadSlid(s, fsp, e)) == Cnt(s)
  {
    PutU32Other(Splice(s, fsp + e.size, s[fsp..e.off]), OFFSET_FREE_SPACE, fsp + e.size, OFFSET_ENTRY_CNT);
    SpliceOther(s, fsp + e.size, s[fsp..e.off], OFFSET_ENTRY_CNT);
  }

  /** Count and slot, read again after the slide, are still those of the start. */
  lemma RemovedInSteps(s: Image, fsp: int, n: nat, i: nat, e: Info) returns (t: Image)
    requires Removable(fsp, n, i, e) && n == Cnt(s) && e == InfoAt(s, i)
    ensures t == PayloadSlid(s, fsp, e) && Cnt(t) == n && InfoAt(t, i) == e
    ensures RemovedBytes(s, fsp, n, i, e) == PutU32(SlotClosed(t, n, i, e), OFFSET_ENTRY_CNT, n - 1)
  {
    t := PayloadSlid(s, fsp, e);
    PayloadSlidCnt(s, fsp, e);
    PayloadSlidInfo(s, fsp, n, i, e, i);
  }

  // ---- the node the bytes stand for ----

  lemma {:induction false} TakenIsUsed(bs: seq<seq<byte>>)
    requires AllEntries(bs)
    ensures Taken(bs) == SkipListNode.Used(NodeOf(bs))
  {
    if bs != [] {
      TakenIsUsed(bs[..|bs| - 1]);
      assert NodeOf(bs)[..|bs| - 1] == NodeOf(bs[..|bs| - 1]);
    }
  }

  /** What the page computes as its room is the node's capacity less its use. */
  lemma RoomIsCapacityLessUsed(s: Image)
    requires Layout(s) && AllEntries(Entries(s))
    ensures FreeSpaceRemaining(s) == SkipListNode.CAPACITY - SkipListNode.Used(NodeOf(Entries(s))) >= 0
  {
    RoomIsExact(s);
    TakenIsUsed(Entries(s));
  }

  /** The byte page's operations are those of the node, keys included. */
  lemma InsertionRepresents(bs: seq<seq<byte>>, idx: int, b: seq<byte>)
    requires AllEntries(bs) && -1 <= idx < |bs| && IsEntry(b)
    ensures AllEntries(InsertedAt(bs, idx + 1, b))
    ensures NodeOf(InsertedAt(bs, idx + 1, b)) == SkipListNode.InsertAfter(NodeOf(bs), idx, EntryOf(b))
  {
    var x, y := NodeOf(InsertedAt(bs, idx + 1, b)), SkipListNode.InsertAfter(NodeOf(bs), idx, EntryOf(b));
    forall i: nat | i < |x| ensures x[i] == y[i] { SkipListNode.InsertedAt(NodeOf(bs), idx, EntryOf(b), i); }
  }

  lemma RemovalRepresents(bs: seq<seq<byte>>, idx: nat)
    requires AllEntries(bs) && idx < |bs|
    ensures AllEntries(RemovedAt(bs, idx))
    ensures NodeOf(RemovedAt(bs, idx)) == SkipListNode.RemoveAt(NodeOf(bs), idx)
  {
  }

  /** Inserting where an unsuccessful search ended keeps the keys in order, unless the key lies
    * below all of several entries: the search then ends at the first of them instead of before it. */
  lemma InsertionKeepsOrder(bs: seq<seq<byte>>, key: seq<byte>, value: int, idx: int)
    requires AllEntries(bs) && bs != [] && SkipListNode.Sorted(NodeOf(bs))
    requires |key| < TWO_TO_THE_16 && 0 <= value < TWO_TO_THE_64
    requires SkipListNode.SearchEnds(NodeOf(bs), KeyOrder.Rank(key), false, idx)
    ensures -1 <= idx < |bs| && AllEntries(InsertedAt(bs, idx + 1, SerializeEntry(key, value)))
    ensures SkipListNode.Sorted(NodeOf(InsertedAt(bs, idx + 1, SerializeEntry(key, value)))) <==>
            |bs| == 1 || NodeOf(bs)[0].key < KeyOrder.Rank(key)
  {
    var es, e := NodeOf(bs), SkipListNode.Entry(KeyOrder.Rank(key), |key| + 11, value);
    EntryOfSerialized(key, value);
    KeyOrder.RankBounds(key);
    assert es[0].key != e.key;
    InsertionRepresents(bs, idx, SerializeEntry(key, value));
    if SkipListNode.Neighbour(es, e.key, idx) {
      SkipListNode.InsertKeepsSorted(es, idx, e);
    } else {
      var r := SkipListNode.InsertAfter(es, idx, e);
      assert r[0].key == es[0].key && r[1] == e;
    }
  }
}
