/** What `SetEntries` writes: the entries packed at the page's end, the last one first. */
module BlockPagePacking {
  import opened Bytes
  import opened BlockPageLayout
  import opened BlockPageImages

  function Total(es: seq<seq<byte>>): (n: nat) {
    if es == [] then 0 else Total(es[..|es| - 1]) + |es[|es| - 1]|
  }

  /** The entries one after another, in descending order. */
  function Packed(es: seq<seq<byte>>): (b: seq<byte>)
    ensures |b| == Total(es)
  {
    if es == [] then [] else es[|es| - 1] + Packed(es[..|es| - 1])
  }

  ghost predicate CanPack(es: seq<seq<byte>>) {
    (forall i :: 0 <= i < |es| ==> 0 < |es[i]|) && Total(es) + 4 * |es| <= PAGE_SIZE - OFFSET_ENTRY_INFOS
  }

  lemma {:induction false} TotalUpTo(es: seq<seq<byte>>, i: nat, j: nat)
    requires i <= j <= |es|
    ensures Total(es[..i]) <= Total(es[..j]) <= Total(es)
    ensures i < j ==> Total(es[..i + 1]) == Total(es[..i]) + |es[i]| <= Total(es[..j])
  {
    if j < |es| {
      TotalUpTo(es[..|es| - 1], i, j);
      assert es[..|es| - 1][..i] == es[..i] && es[..|es| - 1][..j] == es[..j];
      if i < j { assert es[..|es| - 1][..i + 1] == es[..i + 1]; }
    } else if i < j {
      assert es[..j] == es;
      OneMore(es, i);
      TotalUpTo(es[..j - 1], i, j - 1);
      assert es[..j - 1][..i] == es[..i];
      if i < j - 1 { assert es[..j - 1][..i + 1] == es[..i + 1]; }
    } else {
      assert es[..j] == es;
    }
  }

  lemma OneMore(es: seq<seq<byte>>, i: nat)
    requires i < |es|
    ensures Total(es[..i + 1]) == Total(es[..i]) + |es[i]|
    ensures Packed(es[..i + 1]) == es[i] + Packed(es[..i])
  {
    assert es[..i + 1][..i] == es[..i];
  }

  function SlotFor(es: seq<seq<byte>>, i: nat): Info
    requires i < |es|
  {
    Info(PAGE_SIZE - Total(es[..i + 1]), |es[i]|)
  }

  lemma SlotFits(es: seq<seq<byte>>, i: nat)
    requires CanPack(es) && i < |es|
    ensures IsInfo(SlotFor(es, i)) && InArea(SlotFor(es, i), PAGE_SIZE - Total(es))
    ensures SlotFor(es, i).off + |es[i]| == PAGE_SIZE - Total(es[..i])
  {
    TotalUpTo(es, i, i + 1);
    TotalUpTo(es, i + 1, |es|);
  }

  lemma SlotsApart(es: seq<seq<byte>>, i: nat, j: nat)
    requires CanPack(es) && i < j < |es|
    ensures Apart(SlotFor(es, i), SlotFor(es, j))
  {
    SlotFits(es, j);
    TotalUpTo(es, i, j);
  }

  function Slots(es: seq<seq<byte>>): (r: seq<Info>)
    ensures |r| == |es| && forall i :: 0 <= i < |es| ==> r[i] == SlotFor(es, i)
  {
    seq(|es|, i requires 0 <= i < |es| => SlotFor(es, i))
  }

  lemma {:induction false} SumOfSlots(es: seq<seq<byte>>, infos: seq<Info>)
    requires |infos| == |es| && forall i :: 0 <= i < |es| ==> infos[i].size == |es[i]|
    ensures Sum(infos) == Total(es)
  {
    if es != [] { SumOfSlots(es[..|es| - 1], infos[..|es| - 1]); }
  }

  lemma SlotsPlaced(es: seq<seq<byte>>)
    requires CanPack(es)
    ensures Placed(Slots(es), PAGE_SIZE - Total(es))
  {
    SumOfSlots(es, Slots(es));
    var r, fsp := Slots(es), PAGE_SIZE - Total(es);
    forall i | 0 <= i < |r| ensures InArea(r[i], fsp) { SlotFits(es, i); }
    forall i, j | 0 <= i < j < |r| ensures Apart(r[i], r[j]) { SlotsApart(es, i, j); }
  }

  /** Where an entry stands in the packed bytes. */
  lemma {:induction false} PackedAt(es: seq<seq<byte>>, i: nat)
    requires i < |es|
    ensures var p := Total(es) - Total(es[..i + 1]);
            0 <= p && p + |es[i]| <= Total(es) && Packed(es)[p..p + |es[i]|] == es[i]
  {
    var n := |es| - 1;
    TotalUpTo(es, i + 1, |es|);
    if i == n {
      LastPacked(es);
    } else {
      PackedAt(es[..n], i);
      assert es[..n][..i + 1] == es[..i + 1];
      Behind(es[n], Packed(es[..n]), Total(es[..n]) - Total(es[..i + 1]), |es[i]|);
    }
  }

  lemma LastPacked(es: seq<seq<byte>>)
    requires es != []
    ensures var n := |es| - 1;
            Total(es[..n + 1]) == Total(es) && |es[n]| <= Total(es) && Packed(es)[0..|es[n]|] == es[n]
  {
    assert es[..|es|] == es;
    InFront(es[|es| - 1], Packed(es[..|es| - 1]));
  }

  lemma InFront(a: seq<byte>, b: seq<byte>)
    ensures (a + b)[0..|a|] == a
  {
  }

  lemma Behind(a: seq<byte>, b: seq<byte>, p: nat, n: nat)
    requires p + n <= |b|
    ensures (a + b)[|a| + p..|a| + p + n] == b[p..p + n]
  {
  }

  // ---- the image ----

  ghost function WithSlots(s: Image, es: seq<seq<byte>>, n: nat): (r: Image)
    requires CanPack(es) && n <= |es|
  {
    if n == 0 then s else
      SlotFits(es, n - 1);
      PutInfo(WithSlots(s, es, n - 1), n - 1, SlotFor(es, n - 1))
  }

  lemma {:induction false} WithSlotsByte(s: Image, es: seq<seq<byte>>, n: nat, k: nat)
    requires CanPack(es) && n <= |es| && k < PAGE_SIZE && !(InfoField(0) <= k < InfoField(n))
    ensures WithSlots(s, es, n)[k] == s[k]
  {
    if n > 0 {
      WithSlotsByte(s, es, n - 1, k);
      SlotFits(es, n - 1);
      PutInfoByte(WithSlots(s, es, n - 1), n - 1, SlotFor(es, n - 1), k);
    }
  }

  lemma {:induction false} WithSlotsInfo(s: Image, es: seq<seq<byte>>, n: nat, i: nat)
    requires CanPack(es) && i < n <= |es|
    ensures InfoAt(WithSlots(s, es, n), i) == SlotFor(es, i)
  {
    var t := WithSlots(s, es, n - 1);
    SlotFits(es, n - 1);
    PutInfoByte(t, n - 1, SlotFor(es, n - 1), 0);
    if i < n - 1 {
      WithSlotsInfo(s, es, n - 1, i);
      PutInfoOther(t, n - 1, SlotFor(es, n - 1), i);
    }
  }

  lemma PutInfoOther(s: Image, i: nat, e: Info, k: nat)
    requires InfoField(i + 1) <= PAGE_SIZE && IsInfo(e) && InfoField(k + 1) <= PAGE_SIZE && k != i
    ensures InfoAt(PutInfo(s, i, e), k) == InfoAt(s, k)
  {
    PutInfoByte(s, i, e, InfoField(k));
    PutInfoByte(s, i, e, InfoField(k) + 1);
    PutInfoByte(s, i, e, InfoField(k) + 2);
    PutInfoByte(s, i, e, InfoField(k) + 3);
    InfoKept(s, k, PutInfo(s, i, e), k);
  }

  ghost function WithCounters(s: Image, fsp: int, cnt: int): Image
    requires 0 <= fsp < TWO_TO_THE_32 && 0 <= cnt < TWO_TO_THE_32
  {
    PutU32(PutU32(s, OFFSET_FREE_SPACE, fsp), OFFSET_ENTRY_CNT, cnt)
  }

  lemma CountersRead(s: Image, fsp: int, cnt: int)
    requires 0 <= fsp < TWO_TO_THE_32 && 0 <= cnt < TWO_TO_THE_32
    ensures Cnt(WithCounters(s, fsp, cnt)) == cnt && Fsp(WithCounters(s, fsp, cnt)) == fsp
  {
    var t := PutU32(s, OFFSET_FREE_SPACE, fsp);
    PutU32Read(s, OFFSET_FREE_SPACE, fsp);
    PutU32Read(t, OFFSET_ENTRY_CNT, cnt);
    PutU32Other(t, OFFSET_ENTRY_CNT, cnt, OFFSET_FREE_SPACE);
  }

  lemma CountersByte(s: Image, fsp: int, cnt: int, k: nat)
    requires 0 <= fsp < TWO_TO_THE_32 && 0 <= cnt < TWO_TO_THE_32
    requires k < PAGE_SIZE && !InField(k, OFFSET_ENTRY_CNT, 4) && !InField(k, OFFSET_FREE_SPACE, 4)
    ensures WithCounters(s, fsp, cnt)[k] == s[k]
  {
    PutU32Byte(s, OFFSET_FREE_SPACE, fsp, k);
    PutU32Byte(PutU32(s, OFFSET_FREE_SPACE, fsp), OFFSET_ENTRY_CNT, cnt, k);
  }

  /** Slots, free space pointer and count for entries already in place. */
  ghost function Described(t: Image, es: seq<seq<byte>>): Image
    requires CanPack(es)
  {
    WithCounters(WithSlots(t, es, |es|), PAGE_SIZE - Total(es), |es|)
  }

  ghost function PayloadPacked(s: Image, es: seq<seq<byte>>): Image
    requires CanPack(es)
  {
    Splice(s, PAGE_SIZE - Total(es), Packed(es))
  }

  ghost function PackedImage(s: Image, es: seq<seq<byte>>): Image
    requires CanPack(es)
  {
    Described(PayloadPacked(s, es), es)
  }

  lemma DescribedByte(t: Image, es: seq<seq<byte>>, k: nat)
    requires CanPack(es) && k < PAGE_SIZE && !InField(k, OFFSET_ENTRY_CNT, 4) && !InField(k, OFFSET_FREE_SPACE, 4)
    ensures Described(t, es)[k] == WithSlots(t, es, |es|)[k]
  {
    CountersByte(WithSlots(t, es, |es|), PAGE_SIZE - Total(es), |es|, k);
  }

  /** Outside the slots and the two counters. */
  lemma DescribedOutside(t: Image, es: seq<seq<byte>>, k: nat)
    requires CanPack(es) && k < PAGE_SIZE && !InField(k, OFFSET_ENTRY_CNT, 4) && !InField(k, OFFSET_FREE_SPACE, 4)
    requires !(InfoField(0) <= k < InfoField(|es|))
    ensures Described(t, es)[k] == t[k]
  {
    DescribedByte(t, es, k);
    WithSlotsByte(t, es, |es|, k);
  }

  lemma DescribedFields(t: Image, es: seq<seq<byte>>)
    requires CanPack(es)
    ensures Cnt(Described(t, es)) == |es| && Fsp(Described(t, es)) == PAGE_SIZE - Total(es)
  {
    CountersRead(WithSlots(t, es, |es|), PAGE_SIZE - Total(es), |es|);
  }

  lemma DescribedInfo(t: Image, es: seq<seq<byte>>, i: nat)
    requires CanPack(es) && i < |es|
    ensures InfoAt(Described(t, es), i) == SlotFor(es, i)
  {
    WithSlotsInfo(t, es, |es|, i);
    DescribedByte(t, es, InfoField(i));
    DescribedByte(t, es, InfoField(i) + 1);
    DescribedByte(t, es, InfoField(i) + 2);
    DescribedByte(t, es, InfoField(i) + 3);
    InfoKept(WithSlots(t, es, |es|), i, Described(t, es), i);
  }

  lemma PayloadByte(s: Image, es: seq<seq<byte>>, k: nat)
    requires CanPack(es) && k < PAGE_SIZE
    ensures k < PAGE_SIZE - Total(es) ==> PayloadPacked(s, es)[k] == s[k]
    ensures PAGE_SIZE - Total(es) <= k ==> PayloadPacked(s, es)[k] == Packed(es)[k - (PAGE_SIZE - Total(es))]
  {
    SpliceByte(s, PAGE_SIZE - Total(es), Packed(es), k);
  }

  /** The page describes the packed entries. */
  ghost predicate Describes(r: Image, es: seq<seq<byte>>)
    requires CanPack(es)
  {
    && Cnt(r) == |es| && Fsp(r) == PAGE_SIZE - Total(es) && DirectoryFits(r)
    && Infos(r) == Slots(es)
    && r[PAGE_SIZE - Total(es)..PAGE_SIZE] == Packed(es)
  }

  lemma DescribesEntry(r: Image, es: seq<seq<byte>>, i: nat)
    requires CanPack(es) && Describes(r, es) && Layout(r) && i < |es|
    ensures EntryAt(r, i) == es[i]
  {
    assert InfoAt(r, i) == Infos(r)[i] == SlotFor(es, i);
    SlotFits(es, i);
    PackedAt(es, i);
    SubSlice(r, PAGE_SIZE - Total(es), PAGE_SIZE, Total(es) - Total(es[..i + 1]), |es[i]|);
  }

  lemma DescribesEntries(r: Image, es: seq<seq<byte>>)
    requires CanPack(es) && Describes(r, es)
    ensures Layout(r) && Entries(r) == es
  {
    SlotsPlaced(es);
    forall i | 0 <= i < |es| ensures EntryAt(r, i) == es[i] { DescribesEntry(r, es, i); }
  }

  lemma PackedDescribes(s: Image, es: seq<seq<byte>>)
    requires CanPack(es)
    ensures Describes(PackedImage(s, es), es)
  {
    var r := PackedImage(s, es);
    DescribedFields(PayloadPacked(s, es), es);
    forall i | 0 <= i < |es| ensures Infos(r)[i] == Slots(es)[i] { DescribedInfo(PayloadPacked(s, es), es, i); }
    assert Infos(r) == Slots(es);
    PackedTail(s, es);
  }

  /** Whatever the page held, it now holds the given entries in the given order. */
  lemma PackedEntries(s: Image, es: seq<seq<byte>>)
    requires CanPack(es)
    ensures Layout(PackedImage(s, es)) && Entries(PackedImage(s, es)) == es
  {
    PackedDescribes(s, es);
    DescribesEntries(PackedImage(s, es), es);
  }

  lemma PackedTail(s: Image, es: seq<seq<byte>>)
    requires CanPack(es)
    ensures PackedImage(s, es)[PAGE_SIZE - Total(es)..PAGE_SIZE] == Packed(es)
  {
    var r, off, b := PackedImage(s, es), PAGE_SIZE - Total(es), Packed(es);
    forall k | off <= k < PAGE_SIZE ensures r[k] == b[k - off] {
      DescribedOutside(PayloadPacked(s, es), es, k);
      PayloadByte(s, es, k);
    }
  }

  lemma PackedHeader(s: Image, es: seq<seq<byte>>, k: nat)
    requires CanPack(es) && k < OFFSET_FREE_SPACE && !InField(k, OFFSET_ENTRY_CNT, 4)
    ensures PackedImage(s, es)[k] == s[k]
  {
    DescribedOutside(PayloadPacked(s, es), es, k);
    PayloadByte(s, es, k);
  }
}
