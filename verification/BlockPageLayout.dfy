/** How a skip list node lies in its 4096 bytes, and what byte moves do to its entries. */
module BlockPageLayout {
  import opened Bytes

  const PAGE_SIZE := 4096
  const OFFSET_ENTRY_CNT := 12
  const OFFSET_FREE_SPACE := 96
  const OFFSET_ENTRY_INFOS := 100

  type Image = s: seq<byte> | |s| == PAGE_SIZE witness seq(PAGE_SIZE, _ => 0 as byte)

  /** Where an entry lies. */
  datatype Info = Info(off: int, size: int)

  function Cnt(s: Image): int { U32At(s, OFFSET_ENTRY_CNT) }
  function Fsp(s: Image): int { U32At(s, OFFSET_FREE_SPACE) }

  function InfoAt(s: Image, i: nat): Info
    requires OFFSET_ENTRY_INFOS + 4 * i + 4 <= PAGE_SIZE
  {
    Info(U16At(s, OFFSET_ENTRY_INFOS + 4 * i), U16At(s, OFFSET_ENTRY_INFOS + 4 * i + 2))
  }

  predicate DirectoryFits(s: Image) { OFFSET_ENTRY_INFOS + 4 * Cnt(s) <= PAGE_SIZE }

  function Infos(s: Image): (r: seq<Info>)
    requires DirectoryFits(s)
    ensures |r| == Cnt(s)
    ensures forall i :: 0 <= i < |r| ==> r[i] == InfoAt(s, i)
  {
    seq(Cnt(s), i requires 0 <= i < Cnt(s) => InfoAt(s, i))
  }

  // ---- a directory and the area it describes ----

  ghost predicate InArea(e: Info, fsp: int) { fsp <= e.off && 0 < e.size && e.off + e.size <= PAGE_SIZE }

  predicate Apart(a: Info, b: Info) { a.off + a.size <= b.off || b.off + b.size <= a.off }

  function Sum(es: seq<Info>): int {
    if es == [] then 0 else Sum(es[..|es| - 1]) + es[|es| - 1].size
  }

  /** The entries lie in the area without overlap and fill it. */
  ghost predicate Placed(es: seq<Info>, fsp: int) {
    && (forall i {:trigger InArea(es[i], fsp)} :: 0 <= i < |es| ==> InArea(es[i], fsp))
    && (forall i, j {:trigger Apart(es[i], es[j])} :: 0 <= i < j < |es| ==> Apart(es[i], es[j]))
    && Sum(es) == PAGE_SIZE - fsp
  }

  ghost predicate Layout(s: Image) {
    && DirectoryFits(s) && OFFSET_ENTRY_INFOS + 4 * Cnt(s) <= Fsp(s) <= PAGE_SIZE
    && Placed(Infos(s), Fsp(s))
  }

  function BytesOf(s: Image, e: Info): seq<byte>
    requires 0 <= e.off && 0 <= e.size && e.off + e.size <= PAGE_SIZE
  {
    s[e.off..e.off + e.size]
  }

  /** The serialized entries in order. */
  ghost function Entries(s: Image): (r: seq<seq<byte>>)
    requires Layout(s)
    ensures |r| == Cnt(s) && forall i :: 0 <= i < |r| ==> r[i] == EntryAt(s, i)
  {
    seq(Cnt(s), i requires 0 <= i < Cnt(s) => EntryAt(s, i))
  }

  ghost function EntryAt(s: Image, i: nat): (r: seq<byte>)
    requires Layout(s) && i < Cnt(s)
    ensures InArea(InfoAt(s, i), Fsp(s)) && r == BytesOf(s, InfoAt(s, i)) && |r| == InfoAt(s, i).size
  {
    assert InArea(Infos(s)[i], Fsp(s));
    BytesOf(s, InfoAt(s, i))
  }

  lemma {:induction false} SumSplit(a: seq<Info>, b: seq<Info>)
    ensures Sum(a + b) == Sum(a) + Sum(b)
  {
    if b == [] {
      assert a + b == a;
    } else {
      SumSplit(a, b[..|b| - 1]);
      assert (a + b)[..|a + b| - 1] == a + b[..|b| - 1];
    }
  }

  lemma SumOne(e: Info)
    ensures Sum([e]) == e.size
  {
    assert [e][..0] == [];
  }

  // ---- one entry more ----

  function WithInfo(es: seq<Info>, i: nat, e: Info): (r: seq<Info>)
    requires i <= |es|
    ensures |r| == |es| + 1
    ensures forall k :: 0 <= k < |r| ==> r[k] == if k < i then es[k] else if k == i then e else es[k - 1]
  {
    es[..i] + [e] + es[i..]
  }

  lemma InfoAdded(es: seq<Info>, fsp: int, i: nat, size: int)
    requires Placed(es, fsp) && i <= |es| && 0 < size <= fsp <= PAGE_SIZE
    ensures Placed(WithInfo(es, i, Info(fsp - size, size)), fsp - size)
  {
    var e := Info(fsp - size, size);
    SumAdded(es, i, e);
    forall k | 0 <= k < |es| ensures InArea(es[k], fsp - size) && Apart(es[k], e) {
      assert InArea(es[k], fsp);
    }
  }

  lemma SumAdded(es: seq<Info>, i: nat, e: Info)
    requires i <= |es|
    ensures Sum(WithInfo(es, i, e)) == Sum(es) + e.size
  {
    assert es == es[..i] + es[i..];
    SumSplit(es[..i], es[i..]);
    SumSplit(es[..i], [e]);
    SumSplit(es[..i] + [e], es[i..]);
    SumOne(e);
  }

  // ---- one entry less ----

  function Moved(e: Info, gone: Info): Info {
    if e.off < gone.off then e.(off := e.off + gone.size) else e
  }

  function WithoutInfo(es: seq<Info>, i: nat): (r: seq<Info>)
    requires i < |es|
    ensures |r| == |es| - 1
    ensures forall k :: 0 <= k < |r| ==> r[k] == Moved(es[if k < i then k else k + 1], es[i])
  {
    seq(|es| - 1, k requires 0 <= k < |es| - 1 => Moved(es[if k < i then k else k + 1], es[i]))
  }

  lemma {:induction false} SumMoved(es: seq<Info>, rs: seq<Info>)
    requires |rs| == |es| && forall k :: 0 <= k < |es| ==> rs[k].size == es[k].size
    ensures Sum(rs) == Sum(es)
  {
    if es != [] { SumMoved(es[..|es| - 1], rs[..|rs| - 1]); }
  }

  lemma InfoRemoved(es: seq<Info>, fsp: int, i: nat)
    requires Placed(es, fsp) && i < |es|
    ensures Placed(WithoutInfo(es, i), fsp + es[i].size)
  {
    var r := WithoutInfo(es, i);
    SumWithout(es, i);
    forall k | 0 <= k < |r| ensures InArea(r[k], fsp + es[i].size) { StillInArea(es, fsp, i, k); }
    forall k, l | 0 <= k < l < |r| ensures Apart(r[k], r[l]) { StillApart(es, fsp, i, k, l); }
  }

  lemma SumOfParts(a: seq<Info>, e: Info, b: seq<Info>)
    ensures Sum(a + [e] + b) == Sum(a + b) + e.size
  {
    SumSplit(a + [e], b);
    SumSplit(a, [e]);
    SumSplit(a, b);
    SumOne(e);
  }

  lemma SumWithout(es: seq<Info>, i: nat)
    requires i < |es|
    ensures Sum(WithoutInfo(es, i)) == Sum(es) - es[i].size
  {
    SumOfParts(es[..i], es[i], es[i + 1..]);
    assert es == es[..i] + [es[i]] + es[i + 1..];
    SumMoved(es[..i] + es[i + 1..], WithoutInfo(es, i));
  }

  lemma ApartFrom(es: seq<Info>, fsp: int, i: nat, k: nat)
    requires Placed(es, fsp) && i < |es| && k < |es| && k != i
    ensures InArea(es[k], fsp) && InArea(es[i], fsp) && Apart(es[k], es[i])
  {
    if k < i { assert Apart(es[k], es[i]); } else { assert Apart(es[i], es[k]); }
  }

  lemma StillInArea(es: seq<Info>, fsp: int, i: nat, k: nat)
    requires Placed(es, fsp) && i < |es| && k < |es| - 1
    ensures InArea(WithoutInfo(es, i)[k], fsp + es[i].size)
  {
    ApartFrom(es, fsp, i, if k < i then k else k + 1);
  }

  lemma StillApart(es: seq<Info>, fsp: int, i: nat, k: nat, l: nat)
    requires Placed(es, fsp) && i < |es| && k < l < |es| - 1
    ensures Apart(WithoutInfo(es, i)[k], WithoutInfo(es, i)[l])
  {
    var k0, l0 := if k < i then k else k + 1, if l < i then l else l + 1;
    ApartFrom(es, fsp, i, k0);
    ApartFrom(es, fsp, i, l0);
    assert Apart(es[k0], es[l0]);
  }

  // ---- room ----

  /** Unsigned 32-bit subtraction, as the source computes it. */
  function Minus(a: int, b: int): int
    requires 0 <= a < TWO_TO_THE_32 && 0 <= b < TWO_TO_THE_32
  {
    if a >= b then a - b else a - b + TWO_TO_THE_32
  }

  /** `getFreeSpaceRemaining`. */
  function FreeSpaceRemaining(s: Image): int
    requires DirectoryFits(s)
  {
    Minus(Minus(Fsp(s), 1), OFFSET_ENTRY_INFOS + 4 * Cnt(s) - 1)
  }

  /** Bytes the entries and their slots take. */
  function Taken(es: seq<seq<byte>>): nat {
    if es == [] then 0 else Taken(es[..|es| - 1]) + |es[|es| - 1]| + 4
  }

  lemma {:induction false} TakenIsSum(es: seq<seq<byte>>, infos: seq<Info>)
    requires |es| == |infos| && forall i :: 0 <= i < |es| ==> |es[i]| == infos[i].size
    ensures Taken(es) == Sum(infos) + 4 * |es|
  {
    if es != [] { TakenIsSum(es[..|es| - 1], infos[..|es| - 1]); }
  }

  /** The subtractions do not wrap, and what remains is the capacity less what is taken. */
  lemma RoomIsExact(s: Image)
    requires Layout(s)
    ensures FreeSpaceRemaining(s) == PAGE_SIZE - OFFSET_ENTRY_INFOS - Taken(Entries(s)) >= 0
  {
    TakenIsSum(Entries(s), Infos(s));
  }

  // ---- from bytes to entries ----

  /** The directory of `r` is that of `s` with one slot more, the new bytes in front of the area,
    * and the area itself untouched. */
  ghost predicate EntryAdded(s: Image, r: Image, i: nat, data: seq<byte>)
    requires Layout(s) && i <= Cnt(s) && |data| <= Fsp(s)
  {
    var off := Fsp(s) - |data|;
    && Cnt(r) == Cnt(s) + 1 && DirectoryFits(r) && Fsp(r) == off
    && Infos(r) == WithInfo(Infos(s), i, Info(off, |data|))
    && r[off..Fsp(s)] == data
    && r[Fsp(s)..] == s[Fsp(s)..]
  }

  function InsertedAt(es: seq<seq<byte>>, i: nat, data: seq<byte>): (r: seq<seq<byte>>)
    requires i <= |es|
    ensures |r| == |es| + 1
    ensures forall k :: 0 <= k < |r| ==> r[k] == if k < i then es[k] else if k == i then data else es[k - 1]
  {
    es[..i] + [data] + es[i..]
  }

  lemma AddedEntries(s: Image, r: Image, i: nat, data: seq<byte>)
    requires Layout(s) && i <= Cnt(s) && 0 < |data| && |data| + 4 <= Fsp(s) - (OFFSET_ENTRY_INFOS + 4 * Cnt(s))
    requires EntryAdded(s, r, i, data)
    ensures Layout(r) && Entries(r) == InsertedAt(Entries(s), i, data)
  {
    AddedLayout(s, r, i, |data|);
    var es, want := Entries(r), InsertedAt(Entries(s), i, data);
    assert |es| == |want|;
    forall k: nat | k < |es| ensures es[k] == want[k] { AddedEntry(s, r, i, data, k); }
  }

  lemma AddedLayout(s: Image, r: Image, i: nat, size: int)
    requires Layout(s) && i <= Cnt(s) && 0 < size && size + 4 <= Fsp(s) - (OFFSET_ENTRY_INFOS + 4 * Cnt(s))
    requires Cnt(r) == Cnt(s) + 1 && DirectoryFits(r) && Fsp(r) == Fsp(s) - size
    requires Infos(r) == WithInfo(Infos(s), i, Info(Fsp(s) - size, size))
    ensures Layout(r)
  {
    InfoAdded(Infos(s), Fsp(s), i, size);
    assert Placed(Infos(r), Fsp(r));
  }

  lemma AddedEntry(s: Image, r: Image, i: nat, data: seq<byte>, k: nat)
    requires Layout(s) && Layout(r) && i <= Cnt(s) && |data| <= Fsp(s) && EntryAdded(s, r, i, data) && k < Cnt(r)
    ensures EntryAt(r, k) == if k < i then EntryAt(s, k) else if k == i then data else EntryAt(s, k - 1)
  {
    assert InfoAt(r, k) == Infos(r)[k];
    if k != i {
      var k0 := if k < i then k else k - 1;
      assert InfoAt(s, k0) == Infos(s)[k0];
      assert InArea(Infos(s)[k0], Fsp(s));
      SameTail(s, r, Fsp(s), Infos(s)[k0]);
    }
  }

  lemma SameTail(s: Image, r: Image, from: nat, e: Info)
    requires from <= PAGE_SIZE && r[from..] == s[from..] && InArea(e, from)
    ensures BytesOf(r, e) == BytesOf(s, e)
  {
    SubSlice(r, from, PAGE_SIZE, e.off - from, e.size);
    SubSlice(s, from, PAGE_SIZE, e.off - from, e.size);
    assert r[from..PAGE_SIZE] == r[from..] && s[from..PAGE_SIZE] == s[from..];
  }

  /** The slot is gone, the bytes in front of the entry have moved up over it, and the offsets of
    * the entries that moved have followed. */
  ghost predicate EntryRemoved(s: Image, r: Image, i: nat)
    requires Layout(s) && i < Cnt(s)
  {
    var e := Infos(s)[i];
    && Cnt(r) == Cnt(s) - 1 && DirectoryFits(r) && Fsp(r) == Fsp(s) + e.size
    && Infos(r) == WithoutInfo(Infos(s), i)
    && e.off + e.size <= PAGE_SIZE && Fsp(s) <= e.off && 0 <= e.size
    && r[Fsp(s) + e.size..e.off + e.size] == s[Fsp(s)..e.off]
    && r[e.off + e.size..] == s[e.off + e.size..]
  }

  function RemovedAt(es: seq<seq<byte>>, i: nat): (r: seq<seq<byte>>)
    requires i < |es|
    ensures |r| == |es| - 1 && forall k :: 0 <= k < |r| ==> r[k] == es[if k < i then k else k + 1]
  {
    es[..i] + es[i + 1..]
  }

  lemma RemovedEntries(s: Image, r: Image, i: nat)
    requires Layout(s) && i < Cnt(s) && EntryRemoved(s, r, i)
    ensures Layout(r) && Entries(r) == RemovedAt(Entries(s), i)
  {
    RemovedLayout(s, r, i);
    var es, want := Entries(r), RemovedAt(Entries(s), i);
    assert |es| == |want|;
    forall k: nat | k < |es| ensures es[k] == want[k] { RemovedEntry(s, r, i, k); }
  }

  lemma RemovedLayout(s: Image, r: Image, i: nat)
    requires Layout(s) && i < Cnt(s) && EntryRemoved(s, r, i)
    ensures Layout(r)
  {
    InfoRemoved(Infos(s), Fsp(s), i);
    assert InArea(Infos(s)[i], Fsp(s));
  }

  lemma RemovedEntry(s: Image, r: Image, i: nat, k: nat)
    requires Layout(s) && Layout(r) && i < Cnt(s) && EntryRemoved(s, r, i) && k < Cnt(r)
    ensures EntryAt(r, k) == if k < i then EntryAt(s, k) else EntryAt(s, k + 1)
  {
    var k0 := if k < i then k else k + 1;
    ApartFrom(Infos(s), Fsp(s), i, k0);
    MovedBytes(s, r, i, k0);
    assert InfoAt(r, k) == Infos(r)[k] && InfoAt(s, k0) == Infos(s)[k0];
  }

  lemma SubSlice(s: seq<byte>, lo: nat, hi: nat, a: nat, n: nat)
    requires lo + a + n <= hi <= |s|
    ensures s[lo..hi][a..a + n] == s[lo + a..lo + a + n]
  {
    var x, y := s[lo..hi][a..a + n], s[lo + a..lo + a + n];
    assert |x| == |y|;
    assert forall k :: 0 <= k < n ==> x[k] == y[k];
  }

  lemma MovedBytes(s: Image, r: Image, i: nat, k: nat)
    requires Layout(s) && i < Cnt(s) && k < Cnt(s) && k != i && EntryRemoved(s, r, i)
    requires InArea(Infos(s)[k], Fsp(s)) && InArea(Infos(s)[i], Fsp(s)) && Apart(Infos(s)[k], Infos(s)[i])
    ensures var e := Moved(Infos(s)[k], Infos(s)[i]);
            0 <= e.off && e.off + e.size <= PAGE_SIZE && BytesOf(r, e) == BytesOf(s, Infos(s)[k])
  {
    var gone, e := Infos(s)[i], Infos(s)[k];
    if e.off < gone.off {
      SlidBytes(s, r, Fsp(s), gone, e);
    } else {
      SameTail(s, r, gone.off + gone.size, e);
    }
  }

  lemma SlidBytes(s: Image, r: Image, fsp: nat, gone: Info, e: Info)
    requires InArea(gone, fsp) && InArea(e, fsp) && e.off + e.size <= gone.off
    requires r[fsp + gone.size..gone.off + gone.size] == s[fsp..gone.off]
    ensures BytesOf(r, e.(off := e.off + gone.size)) == BytesOf(s, e)
  {
    SubSlice(r, fsp + gone.size, gone.off + gone.size, e.off - fsp, e.size);
    SubSlice(s, fsp, gone.off, e.off - fsp, e.size);
  }
}
