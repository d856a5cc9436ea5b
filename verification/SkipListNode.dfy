/** The entries of one skip list node: sorted by key, searched by bisection, split by size.
  * A key is given by its rank in the key order and the length of its serialized entry. */
module SkipListNode {
  datatype Entry = Entry(key: real, size: nat, value: int)

  /** The ranks of the two marker keys. */
  const INF_MIN: real := -1.0
  const INF_MAX: real := 2.0

  ghost predicate Sorted(es: seq<Entry>) {
    forall i, j :: 0 <= i < j < |es| ==> es[i].key < es[j].key
  }

  // ---- room ----

  const CAPACITY := 3996  // 4096 bytes less the fixed header of 100
  const HALF := 1998
  const LIMIT := 999

  /** The serialized entry and the four bytes of its slot. */
  function Need(e: Entry): nat { e.size + 4 }

  function Used(es: seq<Entry>): nat {
    if es == [] then 0 else Used(es[..|es| - 1]) + Need(es[|es| - 1])
  }

  ghost predicate Small(es: seq<Entry>) {
    forall i :: 0 <= i < |es| ==> Need(es[i]) <= LIMIT
  }

  lemma {:induction false} UsedSplit(a: seq<Entry>, b: seq<Entry>)
    ensures Used(a + b) == Used(a) + Used(b)
  {
    if b == [] {
      assert a + b == a;
    } else {
      UsedSplit(a, b[..|b| - 1]);
      assert (a + b)[..|a + b| - 1] == a + b[..|b| - 1];
    }
  }

  function InsertAfter(es: seq<Entry>, idx: int, e: Entry): seq<Entry>
    requires -1 <= idx < |es|
  {
    es[..idx + 1] + [e] + es[idx + 1..]
  }

  function RemoveAt(es: seq<Entry>, idx: nat): seq<Entry>
    requires idx < |es|
  {
    es[..idx] + es[idx + 1..]
  }

  lemma {:induction false} UsedOne(e: Entry)
    ensures Used([e]) == Need(e)
  {
    assert [e][..0] == [];
  }

  lemma {:induction false} UsedInsert(es: seq<Entry>, idx: int, e: Entry)
    requires -1 <= idx < |es|
    ensures Used(InsertAfter(es, idx, e)) == Used(es) + Need(e)
  {
    var a, b := es[..idx + 1], es[idx + 1..];
    assert es == a + b;
    UsedSplit(a, b);
    UsedSplit(a, [e]);
    UsedSplit(a + [e], b);
    UsedOne(e);
  }

  lemma {:induction false} UsedRemove(es: seq<Entry>, idx: nat)
    requires idx < |es|
    ensures Used(RemoveAt(es, idx)) == Used(es) - Need(es[idx])
  {
    var a, b := es[..idx], es[idx + 1..];
    assert es == a + [es[idx]] + b;
    UsedSplit(a + [es[idx]], b);
    UsedSplit(a, [es[idx]]);
    UsedSplit(a, b);
    UsedOne(es[idx]);
  }

  /** `idx` is where bisection for `key` ends when no entry has it. */
  ghost predicate Neighbour(es: seq<Entry>, key: real, idx: int) {
    && -1 <= idx < |es|
    && (idx >= 0 ==> es[idx].key < key)
    && (idx + 1 < |es| ==> key < es[idx + 1].key)
  }

  lemma InsertedAt(es: seq<Entry>, idx: int, e: Entry, i: nat)
    requires -1 <= idx < |es| && i <= |es|
    ensures |InsertAfter(es, idx, e)| == |es| + 1
    ensures InsertAfter(es, idx, e)[i] == if i <= idx then es[i] else if i == idx + 1 then e else es[i - 1]
  {
  }

  /** Putting a new entry behind its neighbour keeps the order. */
  lemma {:induction false} InsertKeepsSorted(es: seq<Entry>, idx: int, e: Entry)
    requires Sorted(es) && Neighbour(es, e.key, idx)
    ensures Sorted(InsertAfter(es, idx, e))
  {
    var r := InsertAfter(es, idx, e);
    forall i, j | 0 <= i < j < |r| ensures r[i].key < r[j].key {
      InsertedAt(es, idx, e, i);
      InsertedAt(es, idx, e, j);
      if i <= idx { BelowInserted(es, idx, e, i); }
      if j > idx + 1 { AboveInserted(es, idx, e, j - 1); }
    }
  }

  lemma BelowInserted(es: seq<Entry>, idx: int, e: Entry, i: nat)
    requires Sorted(es) && Neighbour(es, e.key, idx) && i <= idx
    ensures es[i].key < e.key
  {
  }

  lemma AboveInserted(es: seq<Entry>, idx: int, e: Entry, i: nat)
    requires Sorted(es) && Neighbour(es, e.key, idx) && idx < i < |es|
    ensures e.key < es[i].key
  {
  }

  // ---- search ----

  /** Where a search ends: at the match, or at the greatest smaller entry; a key below every
    * entry gets -1 from a node with one entry and 0 from a node with more. */
  ghost predicate SearchEnds(es: seq<Entry>, key: real, found: bool, index: int) {
    && es != []
    && (found <==> exists i :: 0 <= i < |es| && es[i].key == key)
    && (found ==> 0 <= index < |es| && es[index].key == key)
    && (!found && es[0].key < key ==> index >= 0 && Neighbour(es, key, index))
    && (!found && es[0].key > key ==> index == if |es| == 1 && es[0].key != INF_MIN then -1 else 0)
  }

  /** There is only one such end. */
  lemma SearchEndsOnce(es: seq<Entry>, key: real, f: bool, i: int, g: bool, j: int)
    requires Sorted(es) && SearchEnds(es, key, f, i) && SearchEnds(es, key, g, j)
    ensures f == g && i == j
  {
  }

  /** What bisection has ruled out: the entries before `low` are smaller, those behind `high` greater. */
  ghost predicate Narrowed(es: seq<Entry>, key: real, low: int, high: int) {
    && 0 <= low <= |es| && -1 <= high < |es| && low <= high + 1
    && (forall i :: 0 <= i < low ==> es[i].key < key)
    && (forall i :: high < i < |es| ==> key < es[i].key)
  }

  lemma NarrowsUp(es: seq<Entry>, key: real, low: int, high: int, mid: int)
    requires Sorted(es) && Narrowed(es, key, low, high) && low <= mid <= high && es[mid].key < key
    ensures Narrowed(es, key, mid + 1, high)
  {
  }

  lemma NarrowsDown(es: seq<Entry>, key: real, low: int, high: int, mid: int)
    requires Sorted(es) && Narrowed(es, key, low, high) && low <= mid <= high && key < es[mid].key
    ensures Narrowed(es, key, low, mid - 1)
  {
  }

  lemma NarrowedToNothing(es: seq<Entry>, key: real, low: int, high: int)
    requires |es| > 1 && Narrowed(es, key, low, high) && low > high
    ensures SearchEnds(es, key, false, if high < 0 then 0 else high)
  {
  }

  /** Bisection. */
  method FindEntryByKey(es: seq<Entry>, key: real) returns (found: bool, index: int)
    requires es != [] && Sorted(es)
    ensures SearchEnds(es, key, found, index)
  {
    if |es| == 1 {
      if es[0].key == key { return true, 0; }
      if es[0].key == INF_MIN { return false, 0; }
      if es[0].key < key { return false, 0; }
      return false, -1;
    }
    var low, high := 0, |es| - 1;
    while low <= high
      invariant Narrowed(es, key, low, high)
      decreases high - low
    {
      var mid := (low + high) / 2;
      if es[mid].key == key { return true, mid; }
      if es[mid].key < key {
        NarrowsUp(es, key, low, high, mid);
        low := mid + 1;
      } else {
        NarrowsDown(es, key, low, high, mid);
        high := mid - 1;
      }
    }
    NarrowedToNothing(es, key, low, high);
    found := false;
    index := if low < high then low else if high < 0 then 0 else high;
  }

  // ---- split ----

  /** The first index at which half of the capacity is reached, or the last one. */
  ghost predicate IsSplit(es: seq<Entry>, idx: nat) {
    && idx < |es|
    && Used(es[..idx]) < HALF
    && (Used(es[..idx + 1]) >= HALF || idx == |es| - 1)
  }

  /** `TooLarge` stands for the panic "insert entry must be too large". */
  datatype SplitResult = TooLarge | SplitAt(idx: nat)

  method SplitIndex(es: seq<Entry>) returns (r: SplitResult)
    requires es != []
    ensures r.SplitAt? ==> r.idx < |es| - 1 && IsSplit(es, r.idx)
    ensures r.TooLarge? ==> IsSplit(es, |es| - 1)
  {
    var size, i := 0, 0;
    assert es[..0] == [];
    while i < |es| - 1 && size + Need(es[i]) < HALF
      invariant 0 <= i < |es| && size == Used(es[..i]) < HALF
    {
      assert es[..i + 1][..i] == es[..i];
      size := size + Need(es[i]);
      i := i + 1;
    }
    assert es[..i + 1][..i] == es[..i];
    r := if i == |es| - 1 then TooLarge else SplitAt(i);
  }

  /** With every entry at most a quarter of the capacity: a node too full for one more entry is
    * split into two non-empty halves, and either half has room for it. */
  lemma {:induction false} SplitLeavesRoom(es: seq<Entry>, idx: nat, e: Entry)
    requires Small(es) && Need(e) <= LIMIT && CAPACITY - Used(es) < Need(e) && Used(es) <= CAPACITY
    requires IsSplit(es, idx)
    ensures idx + 1 < |es|
    ensures Used(es[..idx + 1]) + Need(e) <= CAPACITY
    ensures Used(es[idx + 1..]) + Need(e) <= CAPACITY
  {
    assert es[..idx + 1][..idx] == es[..idx];
    assert Need(es[idx]) <= LIMIT;
    assert es == es[..idx + 1] + es[idx + 1..];
    UsedSplit(es[..idx + 1], es[idx + 1..]);
    assert es[..|es|] == es;
  }

  /** The bound is sharp: with entries of 1000 bytes a full node may have no split at all. */
  lemma {:induction false} LimitIsSharp(es: seq<Entry>, e: Entry)
    requires |es| == 3 && Need(es[0]) == 998 && Need(es[1]) == 999 && Need(es[2]) == 1000 && Need(e) == 1000
    ensures Used(es) <= CAPACITY && CAPACITY - Used(es) < Need(e)
    ensures forall idx :: IsSplit(es, idx) ==> idx == |es| - 1
  {
    assert es[..0] == [] && es[..1][..0] == [] && es[..2][..1] == es[..1] && es[..3][..2] == es[..2];
    assert es[..3] == es;
    assert Used(es[..1]) == 998;
    assert Used(es[..2]) == 1997;
    assert Used(es) == 2997;
  }
}
