/** The index over a column: a set of (value, record id) pairs kept in a skip list whose keys
  * are the order-preserving encodings of the pairs. */
module SkipListIndex {
  import opened Wrappers
  import opened Bytes
  import opened LockTable
  import KeyOrder
  import EntryBytes
  import opened KeyEncoding
  import opened SkipListNode
  import C = SkipListContents
  import opened SkipList
  import opened SkipListIterator

  datatype Pair = Pair(value: ColumnValue, rid: RID)

  predicate IsPair(p: Pair) { IsColumnValue(p.value) && IsStoredRid(p.rid) }

  /** Null flag, 16-bit length, key bytes, 64-bit value. */
  ghost function KeyEntry(p: Pair): (e: Entry)
    requires IsPair(p)
  {
    Entry(KeyRank(p.value, p.rid), |EncodeKey(p.value, p.rid)| + 11, PackRid(p.rid))
  }

  /** The entry the node keeps is what the bytes of the stored entry stand for. */
  lemma StoredBytes(p: Pair)
    requires IsPair(p) && |EncodeKey(p.value, p.rid)| < TWO_TO_THE_16
    ensures var b := EntryBytes.SerializeEntry(EncodeKey(p.value, p.rid), PackRid(p.rid));
            EntryBytes.IsEntry(b) && EntryBytes.EntryOf(b) == KeyEntry(p)
  {
    EntryBytes.EntryOfSerialized(EncodeKey(p.value, p.rid), PackRid(p.rid));
  }

  ghost predicate HasPair(ps: set<Pair>, e: Entry) {
    exists p :: p in ps && IsPair(p) && KeyEntry(p) == e
  }

  ghost predicate Stores(es: set<Entry>, ps: set<Pair>) {
    && (forall p :: p in ps ==> IsPair(p) && KeyEntry(p) in es)
    && (forall e :: e in es ==> HasPair(ps, e))
  }

  lemma KeyInRange(p: Pair)
    requires IsPair(p)
    ensures INF_MIN < KeyEntry(p).key < INF_MAX
  {
    KeysAreNotMarkers(p.value, p.rid);
    KeyOrder.RankBounds(EncodeKey(p.value, p.rid));
  }

  /** Two pairs never share a key. */
  lemma KeyDetermines(p: Pair, q: Pair)
    requires IsPair(p) && IsPair(q) && SameType(p.value, q.value) && KeyEntry(p).key == KeyEntry(q).key
    ensures p == q
  {
    KeyOrder.RankOrder(EncodeKey(p.value, p.rid), EncodeKey(q.value, q.rid));
    KeysAreInjective(p.value, p.rid, q.value, q.rid);
  }

  /** `EncodeValueAndRIDToDicOrderComparableVarchar` and `PackRIDtoUint64`. */
  method MakeEntry(p: Pair) returns (e: Entry)
    requires IsPair(p)
    ensures e == KeyEntry(p)
  {
    var low, high := PackRid(p.rid) % TWO_TO_THE_32, PackRid(p.rid) / TWO_TO_THE_32;
    PackRoundTrip(p.rid);
    EncodingIsUnique(low);
    EncodingIsUnique(high);
    var prefix := match p.value { case Integer(i) => IntegerBytes(i) case Varchar(s) => s + [0, 0, 0, 0] };
    var key := prefix + (SerializeU32(low) + SerializeU32(high));
    e := Entry(KeyOrder.Rank(key), |key| + 11, PackRid(p.rid));
  }

  /** The pairs a range scan visits. */
  predicate InRange(lo: Option<ColumnValue>, hi: Option<ColumnValue>, v: ColumnValue)
    requires lo.Some? ==> SameType(lo.value, v)
    requires hi.Some? ==> SameType(hi.value, v)
  {
    && (lo.Some? ==> ValueAtMost(lo.value, v))
    && (hi.Some? ==> ValueAtMost(v, hi.value))
  }

  predicate BoundOk(b: Option<ColumnValue>, integer: bool) {
    b.Some? ==> IsColumnValue(b.value) && b.value.Integer? == integer
  }

  ghost function LowerKey(b: Option<ColumnValue>): Bound
    requires b.Some? ==> IsColumnValue(b.value)
  {
    if b.Some? then At(KeyRank(b.value, LEAST_RID)) else Unbounded
  }

  ghost function UpperKey(b: Option<ColumnValue>): Bound
    requires b.Some? ==> IsColumnValue(b.value)
  {
    if b.Some? then At(KeyRank(b.value, GREATEST_RID)) else Unbounded
  }

  lemma RangeOfKeys(lo: Option<ColumnValue>, hi: Option<ColumnValue>, p: Pair)
    requires IsPair(p) && BoundOk(lo, p.value.Integer?) && BoundOk(hi, p.value.Integer?)
    ensures AboveBound(LowerKey(lo), KeyEntry(p).key) && BelowBound(UpperKey(hi), KeyEntry(p).key)
            <==> InRange(lo, hi, p.value)
  {
    if lo.Some? { LowerBound(lo.value, p.value, p.rid); }
    if hi.Some? { UpperBound(hi.value, p.value, p.rid); }
  }

  /** The entries of `list` are those of the pairs `found`, distinct and in value order. */
  ghost predicate Presents(list: seq<Entry>, found: seq<Pair>) {
    && |found| == |list|
    && (forall i :: 0 <= i < |found| ==> IsPair(found[i]) && list[i] == KeyEntry(found[i]))
    && (forall i, j :: 0 <= i < j < |found| ==>
          found[i] != found[j] && SameType(found[i].value, found[j].value) && ValueAtMost(found[i].value, found[j].value))
  }

  /** `found` are exactly the pairs of the index with their value in range. */
  ghost predicate Complete(ps: set<Pair>, lo: Option<ColumnValue>, hi: Option<ColumnValue>, integer: bool, found: seq<Pair>) {
    && BoundOk(lo, integer) && BoundOk(hi, integer)
    && forall p :: p in found <==> p in ps && p.value.Integer? == integer && InRange(lo, hi, p.value)
  }

  ghost function PairOf(ps: set<Pair>, e: Entry): (p: Pair)
    requires HasPair(ps, e)
    ensures p in ps && IsPair(p) && KeyEntry(p) == e
  {
    var p :| p in ps && IsPair(p) && KeyEntry(p) == e;
    p
  }

  ghost function PairsOf(ps: set<Pair>, list: seq<Entry>): (found: seq<Pair>)
    requires forall i :: 0 <= i < |list| ==> HasPair(ps, list[i])
    ensures |found| == |list|
    ensures forall i :: 0 <= i < |list| ==> found[i] in ps && IsPair(found[i]) && KeyEntry(found[i]) == list[i]
  {
    seq(|list|, i requires 0 <= i < |list| => PairOf(ps, list[i]))
  }

  lemma ValueOrder(p: Pair, q: Pair)
    requires IsPair(p) && IsPair(q) && SameType(p.value, q.value) && KeyEntry(p).key < KeyEntry(q).key
    ensures p != q && ValueAtMost(p.value, q.value)
  {
    if p.value.Varchar? { StringsAreOrdered(p.value.s, q.value.s); }
    if ValueLess(q.value, p.value) {
      KeysFollowValues(q.value, q.rid, p.value, p.rid);
      KeysAreNotMarkers(p.value, p.rid);
      KeysAreNotMarkers(q.value, q.rid);
      KeyOrder.RankOrder(EncodeKey(q.value, q.rid), EncodeKey(p.value, p.rid));
    }
  }

  /** A snapshot of the entries between the two scan keys presents the pairs in range. */
  lemma SnapshotPresents(es: C.Blocks, contents: set<Entry>, ps: set<Pair>, integer: bool,
                         lo: Option<ColumnValue>, hi: Option<ColumnValue>, list: seq<Entry>) returns (found: seq<Pair>)
    requires contents == (set e | e in C.All(es) && INF_MIN < e.key < INF_MAX) && Stores(contents, ps)
    requires forall p :: p in ps ==> p.value.Integer? == integer
    requires BoundOk(lo, integer) && BoundOk(hi, integer) && Snapshot(es, LowerKey(lo), UpperKey(hi), list)
    ensures Presents(list, found) && Complete(ps, lo, hi, integer, found)
  {
    SnapshotHasPairs(es, contents, ps, lo, hi, list);
    found := PairsOf(ps, list);
    FoundAreOrdered(ps, integer, list, found);
    FoundAreInRange(es, contents, ps, integer, lo, hi, list, found);
  }

  lemma SnapshotHasPairs(es: C.Blocks, contents: set<Entry>, ps: set<Pair>,
                         lo: Option<ColumnValue>, hi: Option<ColumnValue>, list: seq<Entry>)
    requires contents == (set e | e in C.All(es) && INF_MIN < e.key < INF_MAX) && Stores(contents, ps)
    requires lo.Some? ==> IsColumnValue(lo.value)
    requires hi.Some? ==> IsColumnValue(hi.value)
    requires Snapshot(es, LowerKey(lo), UpperKey(hi), list)
    ensures forall i :: 0 <= i < |list| ==> HasPair(ps, list[i])
  {
    forall i | 0 <= i < |list| ensures HasPair(ps, list[i]) {
      assert list[i] in list;
      assert list[i] in contents;
    }
  }

  lemma FoundAreOrdered(ps: set<Pair>, integer: bool, list: seq<Entry>, found: seq<Pair>)
    requires Sorted(list) && |found| == |list| && forall p :: p in ps ==> p.value.Integer? == integer
    requires forall i :: 0 <= i < |list| ==> found[i] in ps && IsPair(found[i]) && KeyEntry(found[i]) == list[i]
    ensures Presents(list, found)
  {
    forall i, j | 0 <= i < j < |found|
      ensures found[i] != found[j] && SameType(found[i].value, found[j].value)
      ensures ValueAtMost(found[i].value, found[j].value)
    {
      assert list[i].key < list[j].key;
      ValueOrder(found[i], found[j]);
    }
  }

  lemma FoundAreInRange(es: C.Blocks, contents: set<Entry>, ps: set<Pair>, integer: bool, lo: Option<ColumnValue>,
                        hi: Option<ColumnValue>, list: seq<Entry>, found: seq<Pair>)
    requires contents == (set e | e in C.All(es) && INF_MIN < e.key < INF_MAX) && Stores(contents, ps)
    requires forall p :: p in ps ==> p.value.Integer? == integer
    requires BoundOk(lo, integer) && BoundOk(hi, integer) && Snapshot(es, LowerKey(lo), UpperKey(hi), list)
    requires |found| == |list|
    requires forall i :: 0 <= i < |list| ==> found[i] in ps && IsPair(found[i]) && KeyEntry(found[i]) == list[i]
    ensures Complete(ps, lo, hi, integer, found)
  {
    forall p ensures p in found <==> p in ps && p.value.Integer? == integer && InRange(lo, hi, p.value) {
      if p in found {
        var i :| 0 <= i < |found| && found[i] == p;
        assert list[i] in list;
        RangeOfKeys(lo, hi, p);
      }
      if p in ps && InRange(lo, hi, p.value) {
        RangeOfKeys(lo, hi, p);
        assert KeyEntry(p) in contents;
        assert KeyEntry(p) in list;
        var i :| 0 <= i < |list| && list[i] == KeyEntry(p);
        KeyDetermines(p, found[i]);
      }
    }
  }

  class SkipListIndex {
    const container: SkipList
    const integer: bool

    ghost var pairs: set<Pair>

    ghost predicate Valid()
      reads this, container
    {
      && container.Valid() && Stores(container.Contents(), pairs)
      && forall p :: p in pairs ==> p.value.Integer? == integer
    }

    constructor (start: SkipListChain.PageId, sentinel: SkipListChain.PageId, integer: bool)
      requires start != sentinel
      ensures Valid() && pairs == {} && this.integer == integer
    {
      container := new SkipList(start, sentinel, 32);
      this.integer := integer;
      pairs := {};
    }

    method InsertEntry(p: Pair, level: int, newId: SkipListChain.PageId)
      requires Valid() && IsPair(p) && p.value.Integer? == integer && p !in pairs && Need(KeyEntry(p)) <= LIMIT
      requires 1 <= level <= SkipListChain.LEVELS && newId !in container.nodes
      modifies this, container
      ensures Valid() && pairs == old(pairs) + {p}
    {
      var e := MakeEntry(p);
      KeyInRange(p);
      KeyIsNew(container.es, container.Contents(), pairs, p);
      ghost var before := container.Contents();
      var _ := container.Insert(e, level, newId);
      StoresWith(before, pairs, p);
      pairs := pairs + {p};
    }

    method DeleteEntry(p: Pair)
      requires Valid() && IsPair(p) && p.value.Integer? == integer
      modifies this, container
      ensures Valid() && pairs == old(pairs) - {p} && container.nodes.Keys <= old(container.nodes.Keys)
    {
      var e := MakeEntry(p);
      KeyInRange(p);
      ghost var before := container.Contents();
      var _ := container.Remove(e.key);
      StoresWithout(before, pairs, p);
      pairs := pairs - {p};
    }

    method UpdateEntry(old_: Pair, new_: Pair, level: int, newId: SkipListChain.PageId)
      requires Valid() && IsPair(old_) && IsPair(new_) && old_.value.Integer? == integer && new_.value.Integer? == integer
      requires (new_ !in pairs || new_ == old_) && Need(KeyEntry(new_)) <= LIMIT
      requires 1 <= level <= SkipListChain.LEVELS && newId !in container.nodes
      modifies this, container
      ensures Valid() && pairs == old(pairs) - {old_} + {new_}
    {
      DeleteEntry(old_);
      InsertEntry(new_, level, newId);
    }

    /** The pairs with their value between the bounds, in value order. */
    method GetRangeScanIterator(lo: Option<ColumnValue>, hi: Option<ColumnValue>)
      returns (itr: SkipListIterator, ghost found: seq<Pair>)
      requires Valid() && BoundOk(lo, integer) && BoundOk(hi, integer)
      ensures fresh(itr) && itr.curEntryIdx == 0
      ensures Presents(itr.entryList, found) && Complete(pairs, lo, hi, integer, found)
    {
      var lower, upper := Unbounded, Unbounded;
      if lo.Some? {
        var e := MakeEntry(Pair(lo.value, LEAST_RID));
        KeyInRange(Pair(lo.value, LEAST_RID));
        lower := At(e.key);
      }
      if hi.Some? {
        var e := MakeEntry(Pair(hi.value, GREATEST_RID));
        upper := At(e.key);
      }
      itr := new SkipListIterator(container, lower, upper);
      found := SnapshotPresents(container.es, container.Contents(), pairs, integer, lo, hi, itr.entryList);
    }

    static method CollectRids(itr: SkipListIterator, ghost found: seq<Pair>) returns (rids: seq<RID>)
      requires itr.curEntryIdx == 0 && CarriesRids(itr.entryList, found)
      modifies itr`curEntryIdx
      ensures |rids| == |found| && forall i :: 0 <= i < |rids| ==> rids[i] == found[i].rid
    {
      rids := [];
      var done, entry := itr.Next();
      while !done
        invariant itr.curEntryIdx <= |found| && |rids| == itr.curEntryIdx - (if done then 0 else 1)
        invariant !done ==> entry == itr.entryList[itr.curEntryIdx - 1]
        invariant done ==> itr.curEntryIdx == |found|
        invariant forall i :: 0 <= i < |rids| ==> rids[i] == found[i].rid
        decreases |found| - |rids|, done
      {
        rids := rids + [UnpackRid(entry.value)];
        done, entry := itr.Next();
      }
    }

    /** The record ids stored under a value, each once. */
    method ScanKey(v: ColumnValue) returns (rids: seq<RID>)
      requires Valid() && IsColumnValue(v) && v.Integer? == integer
      ensures forall rid :: rid in rids <==> Pair(v, rid) in pairs
      ensures forall i, j :: 0 <= i < j < |rids| ==> rids[i] != rids[j]
    {
      var itr, found := GetRangeScanIterator(Some(v), Some(v));
      EntryRids(itr.entryList, found);
      rids := CollectRids(itr, found);
      ScannedRids(pairs, v, integer, found, rids);
    }
  }

  ghost predicate CarriesRids(list: seq<Entry>, found: seq<Pair>) {
    && |list| == |found|
    && forall i :: 0 <= i < |list| ==> list[i].value >= 0 && UnpackRid(list[i].value) == found[i].rid
  }

  lemma EntryRids(list: seq<Entry>, found: seq<Pair>)
    requires Presents(list, found)
    ensures CarriesRids(list, found)
  {
    forall i | 0 <= i < |list| ensures list[i].value >= 0 && UnpackRid(list[i].value) == found[i].rid {
      PackRoundTrip(found[i].rid);
    }
  }

  lemma StoresWith(es: set<Entry>, ps: set<Pair>, p: Pair)
    requires Stores(es, ps) && IsPair(p)
    ensures Stores(es + {KeyEntry(p)}, ps + {p})
  {
    forall e | e in es ensures HasPair(ps + {p}, e) { assert HasPair(ps, e); }
    assert HasPair(ps + {p}, KeyEntry(p));
  }

  lemma ScannedRids(ps: set<Pair>, v: ColumnValue, integer: bool, found: seq<Pair>, rids: seq<RID>)
    requires IsColumnValue(v) && v.Integer? == integer && Complete(ps, Some(v), Some(v), integer, found)
    requires |rids| == |found| && forall i :: 0 <= i < |rids| ==> rids[i] == found[i].rid
    requires forall i, j :: 0 <= i < j < |found| ==> found[i] != found[j]
    ensures forall rid :: rid in rids <==> Pair(v, rid) in ps
    ensures forall i, j :: 0 <= i < j < |rids| ==> rids[i] != rids[j]
  {
    forall i | 0 <= i < |found| ensures found[i] == Pair(v, rids[i]) {
      assert found[i] in found;
      OnlyItself(v, found[i].value);
    }
    forall rid ensures rid in rids <==> Pair(v, rid) in ps {
      if rid in rids { var i :| 0 <= i < |rids| && rids[i] == rid; assert found[i] in found; }
      if Pair(v, rid) in ps {
        assert Pair(v, rid) in found;
        var i :| 0 <= i < |found| && found[i] == Pair(v, rid);
        assert rids[i] == rid;
      }
    }
  }

  lemma OnlyItself(v: ColumnValue, w: ColumnValue)
    requires SameType(v, w) && ValueAtMost(v, w) && ValueAtMost(w, v)
    ensures w == v
  {
    if v.Varchar? { StringsAreOrdered(v.s, w.s); }
  }

  lemma KeyIsNew(es: C.Blocks, contents: set<Entry>, ps: set<Pair>, p: Pair)
    requires C.Ordered(es) && contents == (set e | e in C.All(es) && INF_MIN < e.key < INF_MAX)
    requires Stores(contents, ps) && IsPair(p) && p !in ps && forall q :: q in ps ==> SameType(q.value, p.value)
    ensures !C.HasKey(es, KeyEntry(p).key)
  {
    KeyInRange(p);
    forall e | C.Has(es, e) ensures e.key != KeyEntry(p).key {
      if e.key == KeyEntry(p).key {
        assert e in contents && HasPair(ps, e);
        var q :| q in ps && IsPair(q) && KeyEntry(q) == e;
        KeyDetermines(q, p);
      }
    }
  }

  lemma StoresWithout(es: set<Entry>, ps: set<Pair>, p: Pair)
    requires Stores(es, ps) && IsPair(p) && forall q :: q in ps ==> SameType(q.value, p.value)
    ensures Stores((set e | e in es && e.key != KeyEntry(p).key), ps - {p})
  {
    forall q | q in ps && KeyEntry(q).key == KeyEntry(p).key ensures q == p { KeyDetermines(q, p); }
  }
}
