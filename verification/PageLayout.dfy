/** How a table page lays its slots out in 4096 bytes, and what byte writes do to them. */
module PageLayout {
  import opened Bytes
  import opened SlottedPage
  import opened Tiling

  const OFFSET_PAGE_ID := 0
  const OFFSET_PREV_PAGE_ID := 8
  const OFFSET_NEXT_PAGE_ID := 12
  const OFFSET_FREE_SPACE := 16
  const OFFSET_TUPLE_COUNT := 20
  const OFFSET_TUPLE_OFFSET := 24
  const OFFSET_TUPLE_SIZE := 28

  type Image = s: seq<byte> | |s| == PAGE_SIZE witness seq(PAGE_SIZE, _ => 0 as byte)

  function Fsp(s: Image): int { U32At(s, OFFSET_FREE_SPACE) }
  function Count(s: Image): int { U32At(s, OFFSET_TUPLE_COUNT) }

  predicate InDirectory(i: int) { 0 <= i && OFFSET_TUPLE_SIZE + 8 * i + 4 <= PAGE_SIZE }

  function Off(s: Image, i: int): int
    requires InDirectory(i)
  {
    U32At(s, OFFSET_TUPLE_OFFSET + 8 * i)
  }

  function Sz(s: Image, i: int): int
    requires InDirectory(i)
  {
    U32At(s, OFFSET_TUPLE_SIZE + 8 * i)
  }

  // The top bit of a size is the deleted flag.

  predicate IsFlagged(size: int) { size >= TWO_TO_THE_31 }

  function SetDeletedFlag(size: int): int { if IsFlagged(size) then size else size + TWO_TO_THE_31 }

  function UnsetDeletedFlag(size: int): int { if IsFlagged(size) then size - TWO_TO_THE_31 else size }

  function Length(s: Image, i: int): int
    requires InDirectory(i)
  {
    UnsetDeletedFlag(Sz(s, i))
  }

  // ---- well-formed images and the slots they hold ----

  predicate DirectoryFits(s: Image) {
    HEADER_SIZE + 8 * Count(s) <= Fsp(s) <= PAGE_SIZE
  }

  ghost predicate EntryOk(s: Image, i: int)
    requires InDirectory(i)
  {
    if Sz(s, i) == 0 then Off(s, i) == 0
    else Length(s, i) > 0 && Fsp(s) <= Off(s, i) && Off(s, i) + Length(s, i) <= PAGE_SIZE
  }

  ghost predicate Apart(s: Image, i: int, j: int)
    requires InDirectory(i) && InDirectory(j)
  {
    Off(s, i) + Length(s, i) <= Off(s, j) || Off(s, j) + Length(s, j) <= Off(s, i)
  }

  ghost function SlotAt(s: Image, i: int): Slot
    requires InDirectory(i) && EntryOk(s, i)
  {
    if Sz(s, i) == 0 then Empty
    else Tuple(s[Off(s, i)..Off(s, i) + Length(s, i)], IsFlagged(Sz(s, i)))
  }

  ghost predicate EntriesOk(s: Image) {
    && DirectoryFits(s)
    && (forall i :: 0 <= i < Count(s) ==> EntryOk(s, i))
    && (forall i, j :: 0 <= i < j < Count(s) && Sz(s, i) != 0 && Sz(s, j) != 0 ==> Apart(s, i, j))
  }

  ghost function Slots(s: Image): (p: Page)
    requires EntriesOk(s)
    ensures |p| == Count(s)
    ensures forall i :: 0 <= i < Count(s) ==> p[i] == SlotAt(s, i)
  {
    seq(Count(s), i requires 0 <= i < Count(s) => SlotAt(s, i))
  }

  /** The tuples are apart from each other and together account for every byte above the pointer. */
  ghost predicate Layout(s: Image) {
    EntriesOk(s) && Used(Slots(s)) == PAGE_SIZE - Fsp(s)
  }

  /** So the free space the header arithmetic yields is the free space of the slots, and never negative. */
  lemma FreeSpaceAgrees(s: Image)
    requires Layout(s)
    ensures Fsp(s) - HEADER_SIZE - 8 * Count(s) == FreeSpace(Slots(s))
    ensures WellFormed(Slots(s))
  {
    forall i | 0 <= i < |Slots(s)| && Slots(s)[i].Tuple? ensures Slots(s)[i].data != [] {
      assert EntryOk(s, i);
    }
  }

  lemma PageIsWellFormed(s: Image)
    requires Layout(s)
    ensures WellFormed(Slots(s))
  {
    FreeSpaceAgrees(s);
  }

  // ---- the tiling, byte by byte ----

  ghost predicate Owns(s: Image, i: int, k: int)
    requires InDirectory(i)
  {
    Sz(s, i) != 0 && Off(s, i) <= k < Off(s, i) + Length(s, i)
  }

  ghost predicate OwnedByOneOf(s: Image, k: int)
    requires EntriesOk(s)
  {
    exists i :: 0 <= i < Count(s) && Owns(s, i, k)
  }

  ghost function Intervals(s: Image, n: int): (vs: seq<Interval>)
    requires EntriesOk(s) && 0 <= n <= Count(s)
    ensures |vs| == n
    ensures forall i :: 0 <= i < n ==> vs[i] == Interval(Off(s, i), Size(Slots(s)[i]))
  {
    seq(n, i requires 0 <= i < n => Interval(Off(s, i), Size(Slots(s)[i])))
  }

  lemma {:induction false} IntervalsTotal(s: Image, n: int)
    requires EntriesOk(s) && 0 <= n <= Count(s)
    ensures Total(Intervals(s, n)) == Used(Slots(s)[..n])
    decreases n
  {
    if n > 0 {
      IntervalsTotal(s, n - 1);
      assert Intervals(s, n)[..n - 1] == Intervals(s, n - 1);
      assert Slots(s)[..n][..n - 1] == Slots(s)[..n - 1];
    }
  }

  lemma EntryInterval(s: Image, i: int, k: int)
    requires EntriesOk(s) && 0 <= i < Count(s)
    ensures Owns(s, i, k) <==> Inside(Intervals(s, Count(s))[i], k)
    ensures Size(Slots(s)[i]) == if Sz(s, i) == 0 then 0 else Length(s, i)
    ensures Size(Slots(s)[i]) > 0 ==> Fsp(s) <= Off(s, i) && Off(s, i) + Length(s, i) <= PAGE_SIZE
  {
    assert EntryOk(s, i);
    assert Slots(s)[i] == SlotAt(s, i);
  }

  /** Every byte from the free space pointer to the end of the page belongs to exactly one
    * tuple, and no byte below it to any: no gap, no overlap. */
  lemma {:induction false} TuplesTile(s: Image, k: int)
    requires Layout(s)
    ensures Fsp(s) <= k < PAGE_SIZE <==> OwnedByOneOf(s, k)
    ensures forall i, j :: 0 <= i < j < Count(s) && Owns(s, i, k) ==> !Owns(s, j, k)
  {
    var vs := Intervals(s, Count(s));
    forall i, j | 0 <= i < j < |vs| ensures Tiling.Apart(vs[i], vs[j]) {
      EntryInterval(s, i, k);
      EntryInterval(s, j, k);
      if Sz(s, i) != 0 && Sz(s, j) != 0 {
        assert Apart(s, i, j);
      } else if Sz(s, i) == 0 {
        assert EntryOk(s, i);
        if Sz(s, j) != 0 { assert EntryOk(s, j); }
      } else {
        assert EntryOk(s, i) && EntryOk(s, j);
      }
    }
    forall i | 0 <= i < |vs| && vs[i].len > 0
      ensures Fsp(s) <= vs[i].start && vs[i].start + vs[i].len <= PAGE_SIZE
    {
      EntryInterval(s, i, k);
    }
    IntervalsTotal(s, Count(s));
    assert Slots(s)[..Count(s)] == Slots(s);
    IntervalsTile(vs, Fsp(s), PAGE_SIZE, k);
    forall i | 0 <= i < Count(s) ensures Owns(s, i, k) <==> Inside(vs[i], k) {
      EntryInterval(s, i, k);
    }
    forall i, j | 0 <= i < j < Count(s) && Owns(s, i, k) ensures !Owns(s, j, k) {
      assert Tiling.Apart(vs[i], vs[j]);
    }
  }

  // ---- images that differ in known places ----

  /** Same tuples: fields equal and every live tuple's bytes carried over, possibly moved by `move`. */
  ghost predicate Carried(s: Image, r: Image, i: int)
    requires InDirectory(i)
  {
    && Sz(r, i) == Sz(s, i)
    && (Sz(s, i) != 0 ==>
          && Off(r, i) >= 0 && Off(s, i) + Length(s, i) <= PAGE_SIZE && Off(r, i) + Length(s, i) <= PAGE_SIZE
          && r[Off(r, i)..Off(r, i) + Length(s, i)] == s[Off(s, i)..Off(s, i) + Length(s, i)])
  }

  lemma CarriedSlot(s: Image, r: Image, i: int)
    requires InDirectory(i) && EntryOk(s, i) && EntryOk(r, i) && Carried(s, r, i)
    ensures SlotAt(r, i) == SlotAt(s, i)
  {
  }

  /** The slots of an image whose entry `i` was rewritten and whose other entries were carried over. */
  lemma {:induction false} SlotsAfter(s: Image, r: Image, i: nat, slot: Slot)
    requires EntriesOk(s) && EntriesOk(r) && i <= Count(s)
    requires Count(r) == if i == Count(s) then Count(s) + 1 else Count(s)
    requires EntryOk(r, i) && SlotAt(r, i) == slot
    requires forall j :: 0 <= j < Count(s) && j != i ==> Carried(s, r, j)
    ensures Slots(r) == Put(Slots(s), i, slot)
  {
    var p := Put(Slots(s), i, slot);
    forall j: nat | j < Count(r) ensures Slots(r)[j] == p[j] {
      assert p[j] == At(p, j);
      if j != i {
        assert At(Slots(s), j) == SlotAt(s, j);
        CarriedSlot(s, r, j);
      }
    }
  }

  // ---- the three kinds of page change ----

  /** A tuple placed just below the free space pointer under a free entry or a new one. */
  ghost predicate PlacedIn(s: Image, r: Image, i: int, data: seq<byte>)
    requires EntriesOk(s) && 0 <= i <= Count(s) && InDirectory(i)
  {
    && |data| > 0 && (i < Count(s) ==> Sz(s, i) == 0)
    && Fsp(r) == Fsp(s) - |data|
    && Count(r) == (if i == Count(s) then Count(s) + 1 else Count(s))
    && HEADER_SIZE + 8 * Count(r) <= Fsp(r)
    && Off(r, i) == Fsp(r) && Sz(r, i) == |data|
    && r[Fsp(r)..Fsp(s)] == data
    && (forall j :: 0 <= j < Count(s) && j != i ==> Off(r, j) == Off(s, j) && Sz(r, j) == Sz(s, j))
    && (forall k :: Fsp(s) <= k < PAGE_SIZE ==> r[k] == s[k])
  }

  lemma {:induction false} PlacedEntries(s: Image, r: Image, i: nat, data: seq<byte>)
    requires Layout(s) && i <= Count(s) && InDirectory(i) && PlacedIn(s, r, i, data)
    ensures EntriesOk(r)
    ensures forall j :: 0 <= j < Count(s) && j != i ==> Carried(s, r, j)
    ensures SlotAt(r, i) == Tuple(data, false)
  {
    forall j: nat | j < Count(s) && j != i ensures EntryOk(r, j) && Carried(s, r, j) { PlacedOther(s, r, i, data, j); }
    forall j: nat, k: nat | j < k < Count(r) && Sz(r, j) != 0 && Sz(r, k) != 0 ensures Apart(r, j, k) {
      if j == i { PlacedOther(s, r, i, data, k); }
      else if k == i { PlacedOther(s, r, i, data, j); }
      else { assert Apart(s, j, k); }
    }
  }

  lemma PlacedOther(s: Image, r: Image, i: nat, data: seq<byte>, j: nat)
    requires Layout(s) && i <= Count(s) && InDirectory(i) && PlacedIn(s, r, i, data) && j < Count(s) && j != i
    ensures EntryOk(s, j) && EntryOk(r, j) && Carried(s, r, j)
    ensures Off(r, j) == Off(s, j) && Sz(r, j) == Sz(s, j)
  {
    assert EntryOk(s, j);
  }

  lemma {:induction false} PlacedLayout(s: Image, r: Image, i: nat, data: seq<byte>)
    requires Layout(s) && i <= Count(s) && InDirectory(i) && PlacedIn(s, r, i, data)
    ensures Layout(r) && Slots(r) == Put(Slots(s), i, Tuple(data, false))
  {
    PlacedEntries(s, r, i, data);
    SlotsAfter(s, r, i, Tuple(data, false));
    if i < Count(s) { assert Slots(s)[i] == SlotAt(s, i) && EntryOk(s, i); }
    UsedPut(Slots(s), i, Tuple(data, false));
  }

  /** Where an entry points after the tuples below `cut` moved by `delta`. */
  function Shifted(off: int, cut: int, delta: int): int {
    if off < cut then off + delta else off
  }

  /** Tuple `i` replaced by `data`, or removed when that is empty, everything below it slid up or down. */
  ghost predicate ResizedIn(s: Image, r: Image, i: int, data: seq<byte>)
    requires EntriesOk(s) && 0 <= i < Count(s) && InDirectory(i)
  {
    var cut, delta := Off(s, i), Length(s, i) - |data|;
    && Sz(s, i) != 0
    && Fsp(r) == Fsp(s) + delta && Count(r) == Count(s)
    && HEADER_SIZE + 8 * Count(r) <= Fsp(r)
    && (if data == [] then Off(r, i) == 0 && Sz(r, i) == 0 else Off(r, i) == cut + delta && Sz(r, i) == |data|)
    && (forall j :: 0 <= j < Count(s) && j != i ==>
          Sz(r, j) == Sz(s, j) && (Sz(s, j) != 0 ==> Off(r, j) == Shifted(Off(s, j), cut, delta))
          && (Sz(s, j) == 0 ==> Off(r, j) == Off(s, j)))
    && Fsp(s) <= cut && cut + Length(s, i) <= PAGE_SIZE
    && r[Fsp(r)..cut + delta] == s[Fsp(s)..cut]
    && r[cut + delta..cut + Length(s, i)] == data
    && r[cut + Length(s, i)..] == s[cut + Length(s, i)..]
  }

  lemma SameSubslice(s: seq<byte>, r: seq<byte>, lo: nat, hi: nat, lo': nat, hi': nat, o: nat, n: nat)
    requires lo <= hi <= |s| && lo' <= hi' <= |r| && s[lo..hi] == r[lo'..hi']
    requires lo <= o && o + n <= hi
    ensures lo' + (o - lo) + n <= |r| && r[lo' + (o - lo)..lo' + (o - lo) + n] == s[o..o + n]
  {
    var d := o - lo;
    var a, b := s[o..o + n], r[lo' + d..lo' + d + n];
    forall k | 0 <= k < n ensures b[k] == a[k] {
      assert s[lo..hi][d + k] == r[lo'..hi'][d + k];
    }
  }

  /** Two live tuples of a page: one ends before the other starts. */
  lemma LiveApart(s: Image, i: nat, j: nat)
    requires EntriesOk(s) && i < Count(s) && j < Count(s) && i != j && Sz(s, i) != 0 && Sz(s, j) != 0
    ensures EntryOk(s, i) && EntryOk(s, j)
    ensures Off(s, j) + Length(s, j) <= Off(s, i) || Off(s, i) + Length(s, i) <= Off(s, j)
  {
    if i < j { assert Apart(s, i, j); } else { assert Apart(s, j, i); }
  }

  lemma {:induction false} ResizedBytes(s: Image, r: Image, i: nat, data: seq<byte>, o: int, n: int)
    requires EntriesOk(s) && i < Count(s) && ResizedIn(s, r, i, data)
    requires 0 < n && Fsp(s) <= o && o + n <= PAGE_SIZE && (o + n <= Off(s, i) || Off(s, i) + Length(s, i) <= o)
    ensures var o' := Shifted(o, Off(s, i), Length(s, i) - |data|);
            Fsp(r) <= o' && o' + n <= PAGE_SIZE && r[o'..o' + n] == s[o..o + n]
  {
    var cut, end := Off(s, i), Off(s, i) + Length(s, i);
    if o < cut {
      SameSubslice(s, r, Fsp(s), cut, Fsp(r), end - |data|, o, n);
    } else {
      SameSubslice(s, r, end, PAGE_SIZE, end, PAGE_SIZE, o, n);
    }
  }

  lemma {:induction false} ResizedOther(s: Image, r: Image, i: nat, data: seq<byte>, j: nat)
    requires EntriesOk(s) && i < Count(s) && j < Count(s) && j != i && ResizedIn(s, r, i, data) && |data| < TWO_TO_THE_31
    ensures EntryOk(r, j) && Carried(s, r, j)
    ensures Sz(s, j) != 0 && data != [] ==> Apart(r, i, j)
  {
    assert EntryOk(s, j);
    if Sz(s, j) != 0 {
      LiveApart(s, i, j);
      ResizedBytes(s, r, i, data, Off(s, j), Length(s, j));
    }
  }

  lemma {:induction false} ResizedEntries(s: Image, r: Image, i: nat, data: seq<byte>)
    requires EntriesOk(s) && i < Count(s) && ResizedIn(s, r, i, data) && |data| < TWO_TO_THE_31
    ensures EntriesOk(r)
    ensures forall j :: 0 <= j < Count(s) && j != i ==> Carried(s, r, j)
    ensures SlotAt(r, i) == if data == [] then Empty else Tuple(data, false)
  {
    assert EntryOk(s, i);
    forall j | 0 <= j < Count(s) && j != i ensures EntryOk(r, j) && Carried(s, r, j) {
      ResizedOther(s, r, i, data, j);
    }
    forall j, k | 0 <= j < k < Count(r) && Sz(r, j) != 0 && Sz(r, k) != 0 ensures Apart(r, j, k) {
      if j == i { ResizedOther(s, r, i, data, k); }
      else if k == i { ResizedOther(s, r, i, data, j); }
      else { LiveApart(s, j, k); LiveApart(s, i, j); LiveApart(s, i, k); }
    }
  }

  lemma {:induction false} ResizedLayout(s: Image, r: Image, i: nat, data: seq<byte>)
    requires Layout(s) && i < Count(s) && ResizedIn(s, r, i, data) && |data| < TWO_TO_THE_31
    ensures Layout(r) && Slots(r) == Put(Slots(s), i, if data == [] then Empty else Tuple(data, false))
  {
    var slot := if data == [] then Empty else Tuple(data, false);
    ResizedEntries(s, r, i, data);
    SlotsAfter(s, r, i, slot);
    assert Slots(s)[i] == SlotAt(s, i) && EntryOk(s, i);
    UsedPut(Slots(s), i, slot);
  }

  /** Only the size field of entry `i` rewritten, to the same length with a new flag. */
  lemma {:induction false} ReflaggedLayout(s: Image, r: Image, i: nat, size: int)
    requires Layout(s) && i < Count(s) && Sz(s, i) != 0 && UnsetDeletedFlag(size) == Length(s, i) && size > 0
    requires Sz(r, i) == size && Off(r, i) == Off(s, i) && Fsp(r) == Fsp(s) && Count(r) == Count(s)
    requires forall j :: 0 <= j < Count(s) && j != i ==> Off(r, j) == Off(s, j) && Sz(r, j) == Sz(s, j)
    requires forall k :: Fsp(s) <= k < PAGE_SIZE ==> r[k] == s[k]
    ensures Layout(r)
    ensures Slots(s)[i].Tuple? && Slots(r) == Put(Slots(s), i, Tuple(Slots(s)[i].data, IsFlagged(size)))
  {
    ReflaggedEntries(s, r, i, size);
    assert Slots(s)[i] == SlotAt(s, i);
    var slot := Tuple(Slots(s)[i].data, IsFlagged(size));
    SlotsAfter(s, r, i, slot);
    UsedPut(Slots(s), i, slot);
  }

  lemma {:induction false} ReflaggedEntries(s: Image, r: Image, i: nat, size: int)
    requires Layout(s) && i < Count(s) && Sz(s, i) != 0 && UnsetDeletedFlag(size) == Length(s, i) && size > 0
    requires Sz(r, i) == size && Off(r, i) == Off(s, i) && Fsp(r) == Fsp(s) && Count(r) == Count(s)
    requires forall j :: 0 <= j < Count(s) && j != i ==> Off(r, j) == Off(s, j) && Sz(r, j) == Sz(s, j)
    requires forall k :: Fsp(s) <= k < PAGE_SIZE ==> r[k] == s[k]
    ensures EntriesOk(r) && EntryOk(s, i)
    ensures forall j :: 0 <= j < Count(s) && j != i ==> Carried(s, r, j)
    ensures SlotAt(r, i) == Tuple(s[Off(s, i)..Off(s, i) + Length(s, i)], IsFlagged(size))
  {
    assert EntryOk(s, i);
    forall j | 0 <= j < Count(s) && j != i ensures EntryOk(r, j) && Carried(s, r, j) { assert EntryOk(s, j); }
    forall j, k | 0 <= j < k < Count(r) && Sz(r, j) != 0 && Sz(r, k) != 0 ensures Apart(r, j, k) {
      assert Apart(s, j, k);
    }
    assert r[Off(s, i)..Off(s, i) + Length(s, i)] == s[Off(s, i)..Off(s, i) + Length(s, i)];
  }

  // ---- a page's header ----

  predicate IsInt32(x: int) { -TWO_TO_THE_31 <= x < TWO_TO_THE_31 }

  /** `Init`: ids first; for redo that is all. */
  ghost function WithIds(s: Image, id: int, prev: int): Image
    requires IsInt32(id) && IsInt32(prev)
  {
    PutU32(PutU32(s, OFFSET_PAGE_ID, Unsigned(id)), OFFSET_PREV_PAGE_ID, Unsigned(prev))
  }

  ghost function WithEmptyDirectory(s: Image): Image {
    PutU32(PutU32(PutU32(s, OFFSET_NEXT_PAGE_ID, Unsigned(-1)), OFFSET_TUPLE_COUNT, 0), OFFSET_FREE_SPACE, PAGE_SIZE)
  }

  ghost predicate HasIds(s: Image, id: int, prev: int) {
    Signed(U32At(s, OFFSET_PAGE_ID)) == id && Signed(U32At(s, OFFSET_PREV_PAGE_ID)) == prev
  }

  lemma IdsRead(s: Image, id: int, prev: int)
    requires IsInt32(id) && IsInt32(prev)
    ensures HasIds(WithIds(s, id, prev), id, prev)
  {
    var s1 := PutU32(s, OFFSET_PAGE_ID, Unsigned(id));
    PutU32Read(s, OFFSET_PAGE_ID, Unsigned(id));
    PutU32Read(s1, OFFSET_PREV_PAGE_ID, Unsigned(prev));
    PutU32Other(s1, OFFSET_PREV_PAGE_ID, Unsigned(prev), OFFSET_PAGE_ID);
  }

  lemma EmptyDirectoryKeeps(s: Image, o: nat)
    requires o + 4 <= OFFSET_NEXT_PAGE_ID
    ensures U32At(WithEmptyDirectory(s), o) == U32At(s, o)
  {
    var s1 := PutU32(s, OFFSET_NEXT_PAGE_ID, Unsigned(-1));
    var s2 := PutU32(s1, OFFSET_TUPLE_COUNT, 0);
    PutU32Other(s, OFFSET_NEXT_PAGE_ID, Unsigned(-1), o);
    PutU32Other(s1, OFFSET_TUPLE_COUNT, 0, o);
    PutU32Other(s2, OFFSET_FREE_SPACE, PAGE_SIZE, o);
  }

  /** A page freshly initialised has no slots and no successor. */
  lemma EmptyDirectoryRead(s: Image)
    ensures var r := WithEmptyDirectory(s);
            Layout(r) && Slots(r) == [] && Signed(U32At(r, OFFSET_NEXT_PAGE_ID)) == -1
  {
    var s1 := PutU32(s, OFFSET_NEXT_PAGE_ID, Unsigned(-1));
    var s2 := PutU32(s1, OFFSET_TUPLE_COUNT, 0);
    PutU32Read(s, OFFSET_NEXT_PAGE_ID, Unsigned(-1));
    PutU32Other(s1, OFFSET_TUPLE_COUNT, 0, OFFSET_NEXT_PAGE_ID);
    PutU32Other(s2, OFFSET_FREE_SPACE, PAGE_SIZE, OFFSET_NEXT_PAGE_ID);
    PutU32Read(s1, OFFSET_TUPLE_COUNT, 0);
    PutU32Read(s2, OFFSET_FREE_SPACE, PAGE_SIZE);
    PutU32Other(s2, OFFSET_FREE_SPACE, PAGE_SIZE, OFFSET_TUPLE_COUNT);
    EmptyLayout(WithEmptyDirectory(s));
  }

  /** An initialised page. */
  lemma EmptyLayout(s: Image)
    requires Fsp(s) == PAGE_SIZE && Count(s) == 0
    ensures Layout(s) && Slots(s) == []
  {
  }

  /** Nothing in front of the free space pointer matters to the slots. */
  lemma SlotsBehindIds(s: Image, r: Image)
    requires Layout(s) && forall k :: OFFSET_FREE_SPACE <= k < PAGE_SIZE ==> r[k] == s[k]
    ensures Layout(r) && Slots(r) == Slots(s)
  {
    FieldBehindIds(s, r, OFFSET_FREE_SPACE);
    FieldBehindIds(s, r, OFFSET_TUPLE_COUNT);
    forall j: nat | j < Count(s) ensures EntryOk(r, j) && SlotAt(r, j) == SlotAt(s, j) { EntryBehindIds(s, r, j); }
    forall j: nat, k: nat | j < k < Count(s) && Sz(r, j) != 0 && Sz(r, k) != 0 ensures Apart(r, j, k) {
      EntryBehindIds(s, r, j);
      EntryBehindIds(s, r, k);
      assert Apart(s, j, k);
    }
    assert Slots(r) == Slots(s);
  }

  lemma FieldBehindIds(s: Image, r: Image, o: nat)
    requires OFFSET_FREE_SPACE <= o && o + 4 <= PAGE_SIZE && forall k :: OFFSET_FREE_SPACE <= k < PAGE_SIZE ==> r[k] == s[k]
    ensures U32At(r, o) == U32At(s, o)
  {
    assert r[o..o + 4] == s[o..o + 4];
  }

  lemma EntryBehindIds(s: Image, r: Image, j: nat)
    requires Layout(s) && j < Count(s) && forall k :: OFFSET_FREE_SPACE <= k < PAGE_SIZE ==> r[k] == s[k]
    ensures Off(r, j) == Off(s, j) && Sz(r, j) == Sz(s, j) && EntryOk(r, j) && EntryOk(s, j) && SlotAt(r, j) == SlotAt(s, j)
  {
    FieldBehindIds(s, r, OFFSET_FREE_SPACE);
    FieldBehindIds(s, r, OFFSET_TUPLE_OFFSET + 8 * j);
    FieldBehindIds(s, r, OFFSET_TUPLE_SIZE + 8 * j);
    assert EntryOk(s, j);
    if Sz(s, j) != 0 { assert r[Off(s, j)..Off(s, j) + Length(s, j)] == s[Off(s, j)..Off(s, j) + Length(s, j)]; }
  }

  /** Initialised for redo, a page keeps the slots it had. */
  lemma IdsKeepSlots(s: Image, id: int, prev: int)
    requires Layout(s) && IsInt32(id) && IsInt32(prev)
    ensures Layout(WithIds(s, id, prev)) && Slots(WithIds(s, id, prev)) == Slots(s)
  {
    var r := WithIds(s, id, prev);
    forall k | OFFSET_FREE_SPACE <= k < PAGE_SIZE ensures r[k] == s[k] { IdsByte(s, id, prev, k); }
    SlotsBehindIds(s, r);
  }

  lemma IdsByte(s: Image, id: int, prev: int, k: nat)
    requires IsInt32(id) && IsInt32(prev) && OFFSET_FREE_SPACE <= k < PAGE_SIZE
    ensures WithIds(s, id, prev)[k] == s[k]
  {
    var s1 := PutU32(s, OFFSET_PAGE_ID, Unsigned(id));
    PutU32Byte(s, OFFSET_PAGE_ID, Unsigned(id), k);
    PutU32Byte(s1, OFFSET_PREV_PAGE_ID, Unsigned(prev), k);
  }

  /** A page that never reached the disk is read as zeros; initialising it for redo leaves it
    * without a free space pointer, and the unsigned free space is nearly the whole range. */
  lemma RedoneInitIsNoPage(s: Image, id: int, prev: int)
    requires IsInt32(id) && IsInt32(prev) && forall k :: 0 <= k < PAGE_SIZE ==> s[k] == 0
    ensures var r := WithIds(s, id, prev);
            !Layout(r) && Count(r) == 0 && Fsp(r) == 0 && FreeSpaceRemaining(r) == TWO_TO_THE_32 - HEADER_SIZE
  {
    var r := WithIds(s, id, prev);
    forall k | OFFSET_FREE_SPACE <= k < PAGE_SIZE ensures r[k] == 0 { IdsByte(s, id, prev, k); }
    FourBytes(r[OFFSET_FREE_SPACE..OFFSET_FREE_SPACE + 4]);
    FourBytes(r[OFFSET_TUPLE_COUNT..OFFSET_TUPLE_COUNT + 4]);
  }

  // ---- the byte writes the operations make ----

  /** The result of one unsigned 32-bit addition or subtraction. */
  function Wrap32(x: int): (r: int)
    requires -TWO_TO_THE_32 <= x < 2 * TWO_TO_THE_32
    ensures 0 <= r < TWO_TO_THE_32
  {
    if x < 0 then x + TWO_TO_THE_32 else if x < TWO_TO_THE_32 then x else x - TWO_TO_THE_32
  }

  /** Free space as the header arithmetic computes it, in unsigned 32-bit arithmetic. */
  function FreeSpaceRemaining(s: Image): int {
    Wrap32(Wrap32(Fsp(s) - HEADER_SIZE) - 8 * Count(s) % TWO_TO_THE_32)
  }

  /** On a valid page the unsigned arithmetic does not wrap. */
  lemma FreeSpaceDoesNotWrap(s: Image)
    requires Layout(s)
    ensures FreeSpaceRemaining(s) == FreeSpace(Slots(s)) && 0 <= FreeSpaceRemaining(s) <= PAGE_SIZE
  {
    FreeSpaceAgrees(s);
    Unwrapped(8 * Count(s));
  }

  lemma Unwrapped(x: int)
    requires 0 <= x < TWO_TO_THE_32
    ensures x % TWO_TO_THE_32 == x
  {
  }

  function OffsetField(i: int): int { OFFSET_TUPLE_OFFSET + 8 * i }
  function SizeField(i: int): int { OFFSET_TUPLE_SIZE + 8 * i }

  /** `setTuple` with the header writes around it. */
  ghost function PlaceImage(s: Image, i: nat, data: seq<byte>): Image
    requires CanPlace(s, i, |data|)
  {
    var s4 := PlaceSteps(s, i, data).2;
    if i == Count(s) then PutU32(s4, OFFSET_TUPLE_COUNT, Count(s) + 1) else s4
  }

  predicate CanPlace(s: Image, i: nat, n: nat) {
    && OffsetField(i) + SLOT_SIZE <= Fsp(s) - n && Fsp(s) <= PAGE_SIZE && Count(s) + 1 < TWO_TO_THE_32
  }

  ghost function PlaceSteps(s: Image, i: nat, data: seq<byte>): (Image, Image, Image)
    requires CanPlace(s, i, |data|)
  {
    var fsp := Fsp(s) - |data|;
    var s2 := Splice(PutU32(s, OFFSET_FREE_SPACE, fsp), fsp, data);
    var s3 := PutU32(s2, OffsetField(i), fsp);
    (s2, s3, PutU32(s3, SizeField(i), |data|))
  }

  lemma {:induction false} PlaceImageBytes(s: Image, i: nat, data: seq<byte>, k: nat)
    requires CanPlace(s, i, |data|) && k < PAGE_SIZE
    ensures var r := PlaceImage(s, i, data);
            && (k >= Fsp(s) ==> r[k] == s[k])
            && (Fsp(s) - |data| <= k < Fsp(s) ==> r[k] == data[k - (Fsp(s) - |data|)])
  {
    var fsp := Fsp(s) - |data|;
    var (s2, s3, s4) := PlaceSteps(s, i, data);
    if k >= fsp {
      PutU32Byte(s, OFFSET_FREE_SPACE, fsp, k);
      SpliceByte(PutU32(s, OFFSET_FREE_SPACE, fsp), fsp, data, k);
      PutU32Byte(s2, OffsetField(i), fsp, k);
      PutU32Byte(s3, SizeField(i), |data|, k);
      if i == Count(s) { PutU32Byte(s4, OFFSET_TUPLE_COUNT, Count(s) + 1, k); }
    }
  }

  /** A header or directory field that is not one of those written. */
  lemma {:induction false} PlaceImageOther(s: Image, i: nat, data: seq<byte>, p: nat)
    requires CanPlace(s, i, |data|) && OFFSET_FREE_SPACE + 4 <= p && p + 4 <= Fsp(s) - |data|
    requires p + 4 <= OffsetField(i) || OffsetField(i) + SLOT_SIZE <= p
    requires p + 4 <= OFFSET_TUPLE_COUNT || OFFSET_TUPLE_COUNT + 4 <= p || (p == OFFSET_TUPLE_COUNT && i != Count(s))
    ensures U32At(PlaceImage(s, i, data), p) == U32At(s, p)
  {
    var fsp := Fsp(s) - |data|;
    var (s2, s3, s4) := PlaceSteps(s, i, data);
    PutU32Other(s, OFFSET_FREE_SPACE, fsp, p);
    SpliceOther(PutU32(s, OFFSET_FREE_SPACE, fsp), fsp, data, p);
    PutU32Other(s2, OffsetField(i), fsp, p);
    PutU32Other(s3, SizeField(i), |data|, p);
    if i == Count(s) { PutU32Other(s4, OFFSET_TUPLE_COUNT, Count(s) + 1, p); }
  }

  lemma {:induction false} PlaceImageFields(s: Image, i: nat, data: seq<byte>)
    requires CanPlace(s, i, |data|)
    ensures var r := PlaceImage(s, i, data);
            && Fsp(r) == Fsp(s) - |data| && Count(r) == (if i == Count(s) then Count(s) + 1 else Count(s))
            && Off(r, i) == Fsp(r) && Sz(r, i) == |data|
  {
    var s4 := PlaceSteps(s, i, data).2;
    PlaceStepsFields(s, i, data);
    if i == Count(s) {
      PutU32Other(s4, OFFSET_TUPLE_COUNT, Count(s) + 1, OFFSET_FREE_SPACE);
      PutU32Other(s4, OFFSET_TUPLE_COUNT, Count(s) + 1, OffsetField(i));
      PutU32Other(s4, OFFSET_TUPLE_COUNT, Count(s) + 1, SizeField(i));
      PutU32Read(s4, OFFSET_TUPLE_COUNT, Count(s) + 1);
    } else {
      PlaceImageOther(s, i, data, OFFSET_TUPLE_COUNT);
    }
  }

  lemma {:induction false} PlaceStepsFields(s: Image, i: nat, data: seq<byte>)
    requires CanPlace(s, i, |data|)
    ensures var r := PlaceSteps(s, i, data).2;
            Fsp(r) == Fsp(s) - |data| && Off(r, i) == Fsp(s) - |data| && Sz(r, i) == |data|
  {
    var fsp := Fsp(s) - |data|;
    var (s2, s3, s4) := PlaceSteps(s, i, data);
    PutU32Read(s, OFFSET_FREE_SPACE, fsp);
    SpliceOther(PutU32(s, OFFSET_FREE_SPACE, fsp), fsp, data, OFFSET_FREE_SPACE);
    PutU32Other(s2, OffsetField(i), fsp, OFFSET_FREE_SPACE);
    PutU32Other(s3, SizeField(i), |data|, OFFSET_FREE_SPACE);
    PutU32Read(s2, OffsetField(i), fsp);
    PutU32Other(s3, SizeField(i), |data|, OffsetField(i));
    PutU32Read(s3, SizeField(i), |data|);
  }

  lemma {:induction false} PlaceImageIsPlaced(s: Image, i: nat, data: seq<byte>)
    requires EntriesOk(s) && i <= Count(s) && InDirectory(i) && data != [] && (i < Count(s) ==> Sz(s, i) == 0)
    requires HEADER_SIZE + 8 * (Count(s) + 1) <= Fsp(s) - |data| && |data| < TWO_TO_THE_32
    ensures PlacedIn(s, PlaceImage(s, i, data), i, data)
  {
    var r := PlaceImage(s, i, data);
    PlaceImageFields(s, i, data);
    forall k | 0 <= k < |data| ensures r[Fsp(r)..Fsp(s)][k] == data[k] {
      PlaceImageBytes(s, i, data, Fsp(r) + k);
    }
    forall k | Fsp(s) <= k < PAGE_SIZE ensures r[k] == s[k] {
      PlaceImageBytes(s, i, data, k);
    }
    forall j | 0 <= j < Count(s) && j != i ensures Off(r, j) == Off(s, j) && Sz(r, j) == Sz(s, j) {
      PlaceImageOther(s, i, data, OffsetField(j));
      PlaceImageOther(s, i, data, SizeField(j));
    }
  }

  lemma {:induction false} PlaceImageOk(s: Image, i: nat, data: seq<byte>)
    requires Layout(s) && i <= Count(s) && data != [] && (i < Count(s) ==> Sz(s, i) == 0)
    requires HEADER_SIZE + 8 * (Count(s) + 1) <= Fsp(s) - |data|
    ensures Layout(PlaceImage(s, i, data))
    ensures Slots(PlaceImage(s, i, data)) == Put(Slots(s), i, Tuple(data, false))
  {
    PlaceImageIsPlaced(s, i, data);
    PlacedLayout(s, PlaceImage(s, i, data), i, data);
  }

  /** Progress of the loop that re-points the entries of slid tuples: the first `n` are done. */
  ghost predicate Repointed(s: Image, r: Image, n: int, bound: int, delta: int) {
    && HEADER_SIZE + 8 * Count(s) <= PAGE_SIZE
    && (forall k :: 0 <= k < OFFSET_TUPLE_OFFSET ==> r[k] == s[k])
    && (forall k :: OffsetField(Count(s)) <= k < PAGE_SIZE ==> r[k] == s[k])
    && (forall j :: 0 <= j < Count(s) ==> Sz(r, j) == Sz(s, j))
    && (forall j :: 0 <= j < Count(s) ==>
          Off(r, j) == if j < n && Sz(s, j) != 0 then Shifted(Off(s, j), bound, delta) else Off(s, j))
  }

  lemma FieldsAfterOffset(s: Image, i: nat, x: int, j: nat)
    requires InDirectory(i) && InDirectory(j) && 0 <= x < TWO_TO_THE_32
    ensures var r := PutU32(s, OffsetField(i), x);
            Sz(r, j) == Sz(s, j) && Off(r, j) == if j == i then x else Off(s, j)
  {
    PutU32Other(s, OffsetField(i), x, SizeField(j));
    PutU32Read(s, OffsetField(i), x);
    if j != i { PutU32Other(s, OffsetField(i), x, OffsetField(j)); }
  }

  lemma {:induction false} RepointNext(s: Image, r: Image, i: nat, bound: int, delta: int)
    requires Repointed(s, r, i, bound, delta) && i < Count(s)
    requires Sz(s, i) != 0 && Off(s, i) < bound && 0 <= Off(s, i) + delta < TWO_TO_THE_32
    ensures Repointed(s, PutU32(r, OffsetField(i), Off(s, i) + delta), i + 1, bound, delta)
  {
    var q := PutU32(r, OffsetField(i), Off(s, i) + delta);
    forall j | 0 <= j < Count(s)
      ensures Sz(q, j) == Sz(s, j)
      ensures Off(q, j) == if j < i + 1 && Sz(s, j) != 0 then Shifted(Off(s, j), bound, delta) else Off(s, j)
    {
      FieldsAfterOffset(r, i, Off(s, i) + delta, j);
    }
    forall k | 0 <= k < PAGE_SIZE && !(OffsetField(i) <= k < OffsetField(i) + 4) ensures q[k] == r[k] {
      PutU32Byte(r, OffsetField(i), Off(s, i) + delta, k);
    }
  }

  lemma RepointSkip(s: Image, r: Image, i: nat, bound: int, delta: int)
    requires Repointed(s, r, i, bound, delta) && i < Count(s) && (Sz(s, i) == 0 || Off(s, i) >= bound)
    ensures Repointed(s, r, i + 1, bound, delta)
  {
  }

  lemma RepointedHeader(s: Image, r: Image, n: int, bound: int, delta: int)
    requires Repointed(s, r, n, bound, delta)
    ensures Fsp(r) == Fsp(s) && Count(r) == Count(s)
  {
    assert r[OFFSET_FREE_SPACE..OFFSET_FREE_SPACE + 4] == s[OFFSET_FREE_SPACE..OFFSET_FREE_SPACE + 4];
    assert r[OFFSET_TUPLE_COUNT..OFFSET_TUPLE_COUNT + 4] == s[OFFSET_TUPLE_COUNT..OFFSET_TUPLE_COUNT + 4];
  }

  // ---- replacing or removing a tuple: payload first, entries after ----

  predicate CanResize(s: Image, i: nat, n: nat) {
    && HEADER_SIZE + 8 * Count(s) <= PAGE_SIZE && i < Count(s)
    && Fsp(s) <= Off(s, i) && Length(s, i) > 0 && Off(s, i) + Length(s, i) <= PAGE_SIZE
    && HEADER_SIZE + 8 * Count(s) <= Fsp(s)
    && HEADER_SIZE + 8 * Count(s) <= Fsp(s) + Length(s, i) - n
    && n < TWO_TO_THE_31
  }

  /** Slide the bytes from `fsp` to `cut`, move the pointer, write the new bytes below `end`. */
  ghost function Slide(s: Image, fsp: int, cut: int, end: int, data: seq<byte>): Image
    requires 0 <= fsp <= cut <= end <= PAGE_SIZE && 0 <= fsp + (end - cut) - |data|
  {
    var to := fsp + (end - cut) - |data|;
    Splice(PutU32(Splice(s, to, s[fsp..cut]), OFFSET_FREE_SPACE, to), end - |data|, data)
  }

  ghost function Payload(s: Image, i: nat, data: seq<byte>): Image
    requires CanResize(s, i, |data|)
  {
    Slide(s, Fsp(s), Off(s, i), Off(s, i) + Length(s, i), data)
  }

  lemma {:induction false} PayloadBytes(s: Image, i: nat, data: seq<byte>, k: nat)
    requires CanResize(s, i, |data|) && k < PAGE_SIZE
    ensures var r := Payload(s, i, data);
            var cut, end, fsp := Off(s, i), Off(s, i) + Length(s, i), Fsp(s) + Length(s, i) - |data|;
            && (end <= k ==> r[k] == s[k])
            && (end - |data| <= k < end ==> r[k] == data[k - (end - |data|)])
            && (fsp <= k < end - |data| ==> r[k] == s[k - fsp + Fsp(s)])
            && (k < OffsetField(Count(s)) && !(OFFSET_FREE_SPACE <= k < OFFSET_FREE_SPACE + 4) ==> r[k] == s[k])
  {
    var cut, end, fsp := Off(s, i), Off(s, i) + Length(s, i), Fsp(s) + Length(s, i) - |data|;
    var s1 := Splice(s, fsp, s[Fsp(s)..cut]);
    SpliceByte(s, fsp, s[Fsp(s)..cut], k);
    if !(OFFSET_FREE_SPACE <= k < OFFSET_FREE_SPACE + 4) { PutU32Byte(s1, OFFSET_FREE_SPACE, fsp, k); }
    SpliceByte(PutU32(s1, OFFSET_FREE_SPACE, fsp), end - |data|, data, k);
  }

  lemma {:induction false} PayloadFields(s: Image, i: nat, data: seq<byte>)
    requires CanResize(s, i, |data|)
    ensures var r := Payload(s, i, data);
            && Fsp(r) == Fsp(s) + Length(s, i) - |data| && Count(r) == Count(s)
            && forall j :: 0 <= j < Count(s) ==> Off(r, j) == Off(s, j) && Sz(r, j) == Sz(s, j)
  {
    var r := Payload(s, i, data);
    var top := OffsetField(Count(s));
    var end, fsp := Off(s, i) + Length(s, i), Fsp(s) + Length(s, i) - |data|;
    var s1 := Splice(s, fsp, s[Fsp(s)..Off(s, i)]);
    PutU32Read(s1, OFFSET_FREE_SPACE, fsp);
    SpliceOther(PutU32(s1, OFFSET_FREE_SPACE, fsp), end - |data|, data, OFFSET_FREE_SPACE);
    forall k | 0 <= k < top && !(OFFSET_FREE_SPACE <= k < OFFSET_FREE_SPACE + 4) ensures r[k] == s[k] {
      PayloadBytes(s, i, data, k);
    }
    assert r[OFFSET_TUPLE_COUNT..top] == s[OFFSET_TUPLE_COUNT..top];
    SubField(s, r, OFFSET_TUPLE_COUNT, top, OFFSET_TUPLE_COUNT);
    forall j | 0 <= j < Count(s) ensures Off(r, j) == Off(s, j) && Sz(r, j) == Sz(s, j) {
      SubField(s, r, OFFSET_TUPLE_COUNT, top, OffsetField(j));
      SubField(s, r, OFFSET_TUPLE_COUNT, top, SizeField(j));
    }
  }

  lemma SubField(s: seq<byte>, r: seq<byte>, lo: nat, hi: nat, o: nat)
    requires |r| == |s| && lo <= o && o + 4 <= hi <= |s| && r[lo..hi] == s[lo..hi]
    ensures U32At(r, o) == U32At(s, o)
  {
    SameSubslice(s, r, lo, hi, lo, hi, o, 4);
    FieldKept(s, r, o);
  }

  ghost predicate SlidIn(s: Image, h: Image, i: nat, data: seq<byte>)
    requires CanResize(s, i, |data|)
  {
    var cut, end, fsp := Off(s, i), Off(s, i) + Length(s, i), Fsp(s) + Length(s, i) - |data|;
    && h[fsp..end - |data|] == s[Fsp(s)..cut]
    && h[end - |data|..end] == data
    && h[end..] == s[end..]
  }

  lemma {:induction false} PayloadSlid(s: Image, i: nat, data: seq<byte>)
    requires CanResize(s, i, |data|)
    ensures SlidIn(s, Payload(s, i, data), i, data)
  {
    var r := Payload(s, i, data);
    var cut, end, fsp := Off(s, i), Off(s, i) + Length(s, i), Fsp(s) + Length(s, i) - |data|;
    forall k | fsp <= k < end - |data| ensures r[k] == s[k - fsp + Fsp(s)] { PayloadBytes(s, i, data, k); }
    forall k | end - |data| <= k < end ensures r[k] == data[k - (end - |data|)] { PayloadBytes(s, i, data, k); }
    forall k | end <= k < PAGE_SIZE ensures r[k] == s[k] { PayloadBytes(s, i, data, k); }
  }

  /** Directory entry `i` set after the payload is in place; the payload itself is untouched. */
  ghost predicate EntrySet(h: Image, e: Image, i: nat, off: int, size: int) {
    && HEADER_SIZE + 8 * Count(h) <= PAGE_SIZE && i < Count(h)
    && Fsp(e) == Fsp(h) && Count(e) == Count(h) && Off(e, i) == off && Sz(e, i) == size
    && (forall j :: 0 <= j < Count(h) && j != i ==> Off(e, j) == Off(h, j) && Sz(e, j) == Sz(h, j))
    && (forall k :: OffsetField(Count(h)) <= k < PAGE_SIZE ==> e[k] == h[k])
  }

  lemma {:induction false} SizeWritten(h: Image, i: nat, size: int)
    requires HEADER_SIZE + 8 * Count(h) <= PAGE_SIZE && i < Count(h) && 0 <= size < TWO_TO_THE_32
    ensures EntrySet(h, PutU32(h, SizeField(i), size), i, Off(h, i), size)
  {
    var e := PutU32(h, SizeField(i), size);
    PutU32Read(h, SizeField(i), size);
    PutU32Other(h, SizeField(i), size, OFFSET_FREE_SPACE);
    PutU32Other(h, SizeField(i), size, OFFSET_TUPLE_COUNT);
    forall j | 0 <= j < Count(h) ensures Off(e, j) == Off(h, j) && (j != i ==> Sz(e, j) == Sz(h, j)) {
      PutU32Other(h, SizeField(i), size, OffsetField(j));
      if j != i { PutU32Other(h, SizeField(i), size, SizeField(j)); }
    }
    forall k | OffsetField(Count(h)) <= k < PAGE_SIZE ensures e[k] == h[k] { PutU32Byte(h, SizeField(i), size, k); }
  }

  lemma {:induction false} OffsetWritten(h: Image, e: Image, i: nat, size: int, off: int)
    requires InDirectory(i) && EntrySet(h, e, i, Off(h, i), size) && 0 <= off < TWO_TO_THE_32
    ensures EntrySet(h, PutU32(e, OffsetField(i), off), i, off, size)
  {
    var q := PutU32(e, OffsetField(i), off);
    PutU32Other(e, OffsetField(i), off, OFFSET_FREE_SPACE);
    PutU32Other(e, OffsetField(i), off, OFFSET_TUPLE_COUNT);
    forall k | OffsetField(Count(h)) <= k < PAGE_SIZE ensures q[k] == e[k] { PutU32Byte(e, OffsetField(i), off, k); }
    forall j | 0 <= j < Count(h)
      ensures Sz(q, j) == Sz(e, j) && Off(q, j) == if j == i then off else Off(e, j)
    {
      FieldsAfterOffset(e, i, off, j);
    }
  }

  ghost predicate ResizeWrites(s: Image, e: Image, r: Image, i: nat, data: seq<byte>) {
    && EntriesOk(s) && i < Count(s) && Sz(s, i) != 0 && CanResize(s, i, |data|)
    && EntrySet(Payload(s, i, data), e, i, if data == [] then 0 else Off(s, i), |data|)
    && Repointed(e, r, Count(s), Bound(s, i, data), Length(s, i) - |data|)
  }

  lemma {:induction false} ResizeDoneEntry(s: Image, e: Image, r: Image, i: nat, data: seq<byte>, j: nat)
    requires ResizeWrites(s, e, r, i, data) && j < Count(s) && j != i
    ensures Sz(r, j) == Sz(s, j)
    ensures Sz(s, j) != 0 ==> Off(r, j) == Shifted(Off(s, j), Off(s, i), Length(s, i) - |data|)
    ensures Sz(s, j) == 0 ==> Off(r, j) == Off(s, j)
  {
    PayloadFields(s, i, data);
    if Sz(s, j) != 0 { LiveApart(s, i, j); }
  }

  lemma {:induction false} ResizeDoneBytes(s: Image, e: Image, r: Image, i: nat, data: seq<byte>)
    requires ResizeWrites(s, e, r, i, data)
    ensures Fsp(r) == Fsp(s) + Length(s, i) - |data| && Count(r) == Count(s) && SlidIn(s, r, i, data)
  {
    var h := Payload(s, i, data);
    PayloadFields(s, i, data);
    PayloadSlid(s, i, data);
    RepointedHeader(e, r, Count(s), Bound(s, i, data), Length(s, i) - |data|);
    var top := OffsetField(Count(s));
    SameTail(h, e, r, top);
    TailSlid(s, h, r, i, data, top);
  }

  lemma SameTail(h: Image, e: Image, r: Image, top: nat)
    requires top <= PAGE_SIZE
    requires forall k :: top <= k < PAGE_SIZE ==> e[k] == h[k]
    requires forall k :: top <= k < PAGE_SIZE ==> r[k] == e[k]
    ensures r[top..] == h[top..]
  {
    forall k | top <= k < PAGE_SIZE ensures r[k] == h[k] { assert e[k] == h[k]; }
  }

  lemma {:induction false} ResizeDoneOwn(s: Image, e: Image, r: Image, i: nat, data: seq<byte>)
    requires ResizeWrites(s, e, r, i, data)
    ensures Sz(r, i) == |data|
    ensures Off(r, i) == if data == [] then 0 else Off(s, i) + Length(s, i) - |data|
  {
    PayloadFields(s, i, data);
  }

  /** Payload, entry and re-pointing together resize the tuple. */
  lemma {:induction false} ResizeDone(s: Image, e: Image, r: Image, i: nat, data: seq<byte>)
    requires ResizeWrites(s, e, r, i, data)
    ensures ResizedIn(s, r, i, data)
  {
    ResizeDoneBytes(s, e, r, i, data);
    ResizeDoneOwn(s, e, r, i, data);
    forall j | 0 <= j < Count(s) && j != i
      ensures Sz(r, j) == Sz(s, j)
      ensures Sz(s, j) != 0 ==> Off(r, j) == Shifted(Off(s, j), Off(s, i), Length(s, i) - |data|)
      ensures Sz(s, j) == 0 ==> Off(r, j) == Off(s, j)
    {
      ResizeDoneEntry(s, e, r, i, data, j);
    }
  }

  lemma {:induction false} TailSlid(s: Image, h: Image, r: Image, i: nat, data: seq<byte>, top: nat)
    requires CanResize(s, i, |data|) && SlidIn(s, h, i, data)
    requires top <= Fsp(s) + Length(s, i) - |data| && top <= PAGE_SIZE && r[top..] == h[top..]
    ensures SlidIn(s, r, i, data)
  {
    var end, fsp := Off(s, i) + Length(s, i), Fsp(s) + Length(s, i) - |data|;
    SameSubslice(h, r, top, PAGE_SIZE, top, PAGE_SIZE, fsp, end - |data| - fsp);
    SameSubslice(h, r, top, PAGE_SIZE, top, PAGE_SIZE, end - |data|, |data|);
    SameSubslice(h, r, top, PAGE_SIZE, top, PAGE_SIZE, end, PAGE_SIZE - end);
  }

  function Bound(s: Image, i: nat, data: seq<byte>): int
    requires InDirectory(i)
  {
    if data == [] then Off(s, i) else Off(s, i) + Length(s, i)
  }

  /** Re-pointing stays within the page, so the unsigned offsets do not wrap. */
  lemma {:induction false} RepointInRange(s: Image, e: Image, i: nat, data: seq<byte>, j: nat)
    requires EntriesOk(s) && i < Count(s) && Sz(s, i) != 0 && CanResize(s, i, |data|) && j < Count(s)
    requires EntrySet(Payload(s, i, data), e, i, if data == [] then 0 else Off(s, i), |data|)
    requires Sz(e, j) != 0 && Off(e, j) < Bound(s, i, data)
    ensures 0 <= Off(e, j) + (Length(s, i) - |data|) < TWO_TO_THE_32
  {
    PayloadFields(s, i, data);
    if j != i { LiveApart(s, i, j); }
  }

  lemma CanResizeLive(s: Image, i: nat, n: nat)
    requires Layout(s) && i < Count(s) && Sz(s, i) != 0 && n < TWO_TO_THE_31
    requires n <= FreeSpace(Slots(s)) + Length(s, i)
    ensures CanResize(s, i, n)
  {
    FreeSpaceAgrees(s);
    assert EntryOk(s, i);
  }

  ghost predicate RepointSafe(e: Image, bound: int, delta: int) {
    && HEADER_SIZE + 8 * Count(e) <= PAGE_SIZE
    && forall j :: 0 <= j < Count(e) && Sz(e, j) != 0 && Off(e, j) < bound ==> 0 <= Off(e, j) + delta < TWO_TO_THE_32
  }

  lemma {:induction false} RepointIsSafe(s: Image, e: Image, i: nat, data: seq<byte>)
    requires EntriesOk(s) && i < Count(s) && Sz(s, i) != 0 && CanResize(s, i, |data|)
    requires EntrySet(Payload(s, i, data), e, i, if data == [] then 0 else Off(s, i), |data|)
    ensures Count(e) == Count(s) && RepointSafe(e, Bound(s, i, data), Length(s, i) - |data|)
  {
    PayloadFields(s, i, data);
    forall j | 0 <= j < Count(e) && Sz(e, j) != 0 && Off(e, j) < Bound(s, i, data)
      ensures 0 <= Off(e, j) + (Length(s, i) - |data|) < TWO_TO_THE_32
    {
      RepointInRange(s, e, i, data, j);
    }
  }

  lemma RepointStart(e: Image, bound: int, delta: int)
    requires HEADER_SIZE + 8 * Count(e) <= PAGE_SIZE
    ensures Repointed(e, e, 0, bound, delta)
  {
  }

  /** The bytes after payload and size field, and after the offset field is cleared as well. */
  lemma {:induction false} EntryWritten(s: Image, i: nat, data: seq<byte>)
    requires CanResize(s, i, |data|)
    ensures EntrySet(Payload(s, i, data), PutU32(Payload(s, i, data), SizeField(i), |data|), i, Off(s, i), |data|)
  {
    PayloadFields(s, i, data);
    SizeWritten(Payload(s, i, data), i, |data|);
  }

  lemma {:induction false} EntryCleared(s: Image, i: nat)
    requires CanResize(s, i, 0)
    ensures var e := PutU32(Payload(s, i, []), SizeField(i), 0);
            EntrySet(Payload(s, i, []), PutU32(e, OffsetField(i), 0), i, 0, 0)
  {
    var h := Payload(s, i, []);
    EntryWritten(s, i, []);
    PayloadFields(s, i, []);
    assert Off(h, i) == Off(s, i);
    OffsetWritten(h, PutU32(h, SizeField(i), 0), i, 0, 0);
  }

  /** One turn of the loop, whichever branch it takes. */
  ghost function RepointedOnce(r: Image, i: nat, bound: int, delta: int): Image
    requires CanRepoint(r, i, bound, delta)
  {
    if Sz(r, i) != 0 && Off(r, i) < bound then PutU32(r, OffsetField(i), Off(r, i) + delta) else r
  }

  predicate CanRepoint(r: Image, i: nat, bound: int, delta: int) {
    InDirectory(i) && (Sz(r, i) != 0 && Off(r, i) < bound ==> 0 <= Off(r, i) + delta < TWO_TO_THE_32)
  }

  lemma {:induction false} RepointStep(e: Image, r: Image, i: nat, bound: int, delta: int)
    requires i < Count(e) && RepointSafe(e, bound, delta) && Repointed(e, r, i, bound, delta)
    ensures CanRepoint(r, i, bound, delta) && Repointed(e, RepointedOnce(r, i, bound, delta), i + 1, bound, delta)
  {
    RepointBefore(e, r, i, bound, delta);
    RepointTaken(e, r, i, bound, delta);
  }

  lemma {:induction false} RepointTaken(e: Image, r: Image, i: nat, bound: int, delta: int)
    requires i < Count(e) && Repointed(e, r, i, bound, delta)
    requires CanRepoint(r, i, bound, delta) && Off(r, i) == Off(e, i) && Sz(r, i) == Sz(e, i)
    ensures Repointed(e, RepointedOnce(r, i, bound, delta), i + 1, bound, delta)
  {
    if Sz(e, i) != 0 && Off(e, i) < bound {
      RepointNext(e, r, i, bound, delta);
      assert RepointedOnce(r, i, bound, delta) == PutU32(r, OffsetField(i), Off(e, i) + delta);
    } else {
      RepointSkip(e, r, i, bound, delta);
      assert RepointedOnce(r, i, bound, delta) == r;
    }
  }

  lemma RepointBefore(e: Image, r: Image, i: nat, bound: int, delta: int)
    requires i < Count(e) && RepointSafe(e, bound, delta) && Repointed(e, r, i, bound, delta)
    ensures CanRepoint(r, i, bound, delta) && Off(r, i) == Off(e, i) && Sz(r, i) == Sz(e, i)
  {
  }

  // ---- the two whole operations on a live tuple ----

  ghost function NewTupleImage(s: Image, i: nat, data: seq<byte>): Image
    requires CanResize(s, i, |data|)
  {
    PutU32(Payload(s, i, data), SizeField(i), |data|)
  }

  lemma NewTupleInSteps(s: Image, i: nat, offset: int, size: int, data: seq<byte>)
    requires CanResize(s, i, |data|) && offset == Off(s, i) && size == Length(s, i)
    ensures 0 <= Fsp(s) <= offset <= offset + size <= PAGE_SIZE && 0 <= Fsp(s) + size - |data| && InDirectory(i)
    ensures NewTupleImage(s, i, data) == PutU32(Slide(s, Fsp(s), offset, offset + size, data), SizeField(i), |data|)
  {
  }

  lemma {:induction false} ResizeStarts(s: Image, i: nat, data: seq<byte>)
    requires Layout(s) && i < Count(s) && Sz(s, i) != 0 && CanResize(s, i, |data|) && data != []
    ensures RepointSafe(NewTupleImage(s, i, data), Off(s, i) + Length(s, i), Length(s, i) - |data|)
  {
    EntryWritten(s, i, data);
    RepointIsSafe(s, NewTupleImage(s, i, data), i, data);
  }

  lemma {:induction false} ResizeEnds(s: Image, r: Image, i: nat, data: seq<byte>)
    requires Layout(s) && i < Count(s) && Sz(s, i) != 0 && CanResize(s, i, |data|) && data != []
    requires var e := NewTupleImage(s, i, data);
             Repointed(e, r, Count(e), Off(s, i) + Length(s, i), Length(s, i) - |data|)
    ensures Layout(r) && Slots(r) == Put(Slots(s), i, Tuple(data, false))
  {
    var e := NewTupleImage(s, i, data);
    EntryWritten(s, i, data);
    PayloadFields(s, i, data);
    ResizeDone(s, e, r, i, data);
    ResizedLayout(s, r, i, data);
  }

  ghost function NoTupleImage(s: Image, i: nat): Image
    requires CanResize(s, i, 0)
  {
    PutU32(PutU32(Payload(s, i, []), SizeField(i), 0), OffsetField(i), 0)
  }

  lemma {:induction false} VacateStarts(s: Image, i: nat)
    requires Layout(s) && i < Count(s) && Sz(s, i) != 0 && CanResize(s, i, 0)
    ensures RepointSafe(NoTupleImage(s, i), Off(s, i), Length(s, i))
  {
    EntryCleared(s, i);
    RepointIsSafe(s, NoTupleImage(s, i), i, []);
  }

  lemma {:induction false} VacateEnds(s: Image, r: Image, i: nat)
    requires Layout(s) && i < Count(s) && Sz(s, i) != 0 && CanResize(s, i, 0)
    requires var e := NoTupleImage(s, i); Repointed(e, r, Count(e), Off(s, i), Length(s, i))
    ensures Layout(r) && Slots(r) == Put(Slots(s), i, Empty)
  {
    EntryCleared(s, i);
    VacateEndsFrom(s, NoTupleImage(s, i), r, i);
  }

  lemma {:induction false} VacateEndsFrom(s: Image, e: Image, r: Image, i: nat)
    requires Layout(s) && i < Count(s) && Sz(s, i) != 0 && CanResize(s, i, 0)
    requires EntrySet(Payload(s, i, []), e, i, 0, 0) && Repointed(e, r, Count(e), Off(s, i), Length(s, i))
    ensures Layout(r) && Slots(r) == Put(Slots(s), i, Empty)
  {
    PayloadFields(s, i, []);
    ResizeDone(s, e, r, i, []);
    ResizedLayout(s, r, i, []);
  }

  /** The first size of zero stands in the first empty slot. */
  lemma FirstFree(s: Image, slot: nat)
    requires Layout(s) && slot <= Count(s) && (forall j :: 0 <= j < slot ==> Sz(s, j) != 0)
    requires slot < Count(s) ==> Sz(s, slot) == 0
    ensures slot == FirstEmpty(Slots(s))
  {
    forall j: nat | j < Count(s) ensures Slots(s)[j].Empty? <==> Sz(s, j) == 0 { EntryMeaning(s, j); }
  }

  /** What a directory entry says about its slot. */
  lemma EntryMeaning(s: Image, i: nat)
    requires Layout(s)
    ensures At(Slots(s), i).Tuple? ==> i < Count(s)
    ensures i < Count(s) ==>
              var slot := Slots(s)[i];
              && InDirectory(i) && At(Slots(s), i) == slot
              && (slot.Empty? <==> Sz(s, i) == 0)
              && (slot.Tuple? ==> slot.deleted == IsFlagged(Sz(s, i)) && |slot.data| == Length(s, i) > 0)
  {
    if i < Count(s) { assert EntryOk(s, i) && Slots(s)[i] == SlotAt(s, i); }
  }

  lemma {:induction false} ReflagImageOk(s: Image, i: nat, size: int)
    requires Layout(s) && i < Count(s) && Sz(s, i) != 0 && UnsetDeletedFlag(size) == Length(s, i) && 0 < size < TWO_TO_THE_32
    ensures var r := PutU32(s, SizeField(i), size);
            && Layout(r) && Slots(s)[i].Tuple?
            && Slots(r) == Put(Slots(s), i, Tuple(Slots(s)[i].data, IsFlagged(size)))
  {
    var r := PutU32(s, SizeField(i), size);
    SizeWritten(s, i, size);
    ReflaggedLayout(s, r, i, size);
  }
}
