/** The range iterator: a snapshot of the entries between two keys, taken along chain 0. */
module SkipListIterator {
  import opened SkipListNode
  import opened SkipListChain
  import opened SkipListContents
  import opened SkipListLinks
  import opened SkipList

  datatype Bound = Unbounded | At(key: real)

  predicate AboveBound(lo: Bound, key: real) { lo.At? ==> lo.key <= key }
  predicate BelowBound(hi: Bound, key: real) { hi.At? ==> key <= hi.key }

  /** The scan stands behind slot `slot` of node `p`: what it has passed is at most `b`, what
    * lies ahead is greater. */
  ghost predicate Stands(es: Blocks, p: nat, slot: int, b: real)
    requires Ordered(es)
  {
    && p < |es| - 1 && -1 <= slot < |es[p]|
    && (if slot >= 0 then es[p][slot].key <= b else p > 0 && es[p - 1][|es[p - 1]| - 1].key <= b)
    && b < (if slot + 1 < |es[p]| then es[p][slot + 1].key else es[p + 1][0].key)
  }

  /** The entry the scan meets next. */
  ghost function Ahead(es: Blocks, p: nat, slot: int): Entry
    requires Ordered(es) && p < |es| - 1 && -1 <= slot < |es[p]|
  {
    if slot + 1 < |es[p]| then es[p][slot + 1] else es[p + 1][0]
  }

  /** Nothing lies between. */
  lemma NothingBetween(es: Blocks, p: nat, slot: int, b: real, x: Entry)
    requires Ordered(es) && Stands(es, p, slot, b) && Has(es, x)
    ensures x.key <= b || x.key >= Ahead(es, p, slot).key
    ensures x.key == Ahead(es, p, slot).key ==> x == Ahead(es, p, slot)
  {
    var q :| 0 <= q < |es| && x in es[q];
    var i :| 0 <= i < |es[q]| && es[q][i] == x;
    if q < p || (q == p && i <= slot) { Passed(es, p, slot, b, q, i); } else { Coming(es, p, slot, q, i); }
    AheadHeld(es, p, slot);
    if x.key == Ahead(es, p, slot).key { KeysAreUnique(es, x, Ahead(es, p, slot)); }
  }

  lemma Passed(es: Blocks, p: nat, slot: int, b: real, q: nat, i: nat)
    requires Ordered(es) && Stands(es, p, slot, b) && q <= p && i < |es[q]| && (q == p ==> i <= slot)
    ensures es[q][i].key <= b
  {
    assert BlockOk(es[p]) && BlockOk(es[q]);
    EarlierPrecede(es, p);
    if slot < 0 && q < p - 1 { EarlierPrecede(es, p - 1); BlockEnds(es[p - 1], 0); assert BlockOk(es[p - 1]); }
    if q == p - 1 { BlockEnds(es[q], i); }
  }

  lemma Coming(es: Blocks, p: nat, slot: int, q: nat, i: nat)
    requires Ordered(es) && p < |es| - 1 && -1 <= slot < |es[p]|
    requires p <= q < |es| && i < |es[q]| && (q == p ==> i > slot)
    ensures es[q][i].key >= Ahead(es, p, slot).key
  {
    assert BlockOk(es[p]) && BlockOk(es[q]);
    BlockEnds(es[q], i);
    if q > p { assert Precedes(es[p], es[q]); }
    if q > p + 1 { assert Precedes(es[p + 1], es[q]); }
  }

  lemma BlockEnds(b: seq<Entry>, i: nat)
    requires BlockOk(b) && i < |b|
    ensures b[0].key <= b[i].key <= b[|b| - 1].key
  {
  }

  lemma AheadHeld(es: Blocks, p: nat, slot: int)
    requires Ordered(es) && p < |es| - 1 && -1 <= slot < |es[p]|
    ensures Has(es, Ahead(es, p, slot))
  {
    if slot + 1 < |es[p]| { assert es[p][slot + 1] in es[p]; } else { assert es[p + 1][0] in es[p + 1]; }
  }

  /** What has been collected: the entries from the lower bound up to `b`, in order. */
  ghost predicate Collected(es: Blocks, lo: Bound, b: real, out: seq<Entry>) {
    && Sorted(out)
    && (forall x :: x in out <==> Has(es, x) && INF_MIN < x.key <= b && AboveBound(lo, x.key))
  }

  lemma CollectNext(es: Blocks, lo: Bound, hi: Bound, p: nat, slot: int, b: real, out: seq<Entry>)
    requires Ordered(es) && Stands(es, p, slot, b) && Collected(es, lo, b, out)
    requires AboveBound(lo, Ahead(es, p, slot).key) && INF_MIN <= b
    ensures Collected(es, lo, Ahead(es, p, slot).key, out + [Ahead(es, p, slot)])
  {
    var e := Ahead(es, p, slot);
    AheadHeld(es, p, slot);
    assert forall i :: 0 <= i < |out| ==> out[i] in out;
    forall x ensures x in out + [e] <==> Has(es, x) && INF_MIN < x.key <= e.key && AboveBound(lo, x.key) {
      if Has(es, x) { NothingBetween(es, p, slot, b, x); }
    }
  }

  /** Chain 0 leads to the next node. */
  lemma Successor(ns: Nodes, order: seq<PageId>, hs: seq<int>, p: nat)
    requires Shape(ns, order, hs) && p < |order| - 1
    ensures ns[order[p]].forward[0] == order[p + 1]
  {
    var n := NextOf(ns, order, hs, 0, p);
    assert hs[p + 1] >= 1;
  }

  /** What a finished scan has collected. */
  ghost predicate Snapshot(es: Blocks, lo: Bound, hi: Bound, out: seq<Entry>) {
    && Sorted(out)
    && forall x :: x in out <==> Has(es, x) && INF_MIN < x.key < INF_MAX && AboveBound(lo, x.key) && BelowBound(hi, x.key)
  }

  /** The loop invariant of the scan. */
  ghost predicate Scanning(es: Blocks, lo: Bound, hi: Bound, p: nat, slot: int, b: real, out: seq<Entry>)
    requires Ordered(es)
  {
    && Stands(es, p, slot, b) && Collected(es, lo, b, out) && b >= INF_MIN
    && AboveBound(lo, Ahead(es, p, slot).key)
    && forall x :: x in out ==> BelowBound(hi, x.key)
  }

  lemma ScanNext(es: Blocks, lo: Bound, hi: Bound, p0: nat, slot0: int, p: nat, slot: nat, b: real, out: seq<Entry>)
    requires Ordered(es) && Scanning(es, lo, hi, p0, slot0, b, out)
    requires p < |es| - 1 && slot < |es[p]| && Stands(es, p, slot - 1, b)
    requires Ahead(es, p, slot - 1) == Ahead(es, p0, slot0) && BelowBound(hi, es[p][slot].key)
    ensures Scanning(es, lo, hi, p, slot, es[p][slot].key, out + [es[p][slot]])
  {
    CollectNext(es, lo, hi, p, slot - 1, b, out);
    StandsOn(es, p, slot);
  }

  lemma SnapshotAtEnd(es: Blocks, lo: Bound, hi: Bound, p: nat, slot: int, b: real, out: seq<Entry>)
    requires Ordered(es) && Scanning(es, lo, hi, p, slot, b, out)
    requires Ahead(es, p, slot).key == INF_MAX || !BelowBound(hi, Ahead(es, p, slot).key)
    ensures Snapshot(es, lo, hi, out)
  {
    AheadHeld(es, p, slot);
    AheadBound(es, p, slot);
    forall x ensures x in out <==> Has(es, x) && INF_MIN < x.key < INF_MAX && AboveBound(lo, x.key) && BelowBound(hi, x.key) {
      if Has(es, x) { NothingBetween(es, p, slot, b, x); }
    }
  }

  lemma AheadBound(es: Blocks, p: nat, slot: int)
    requires Ordered(es) && p < |es| - 1 && -1 <= slot < |es[p]|
    ensures Ahead(es, p, slot).key <= INF_MAX
    ensures Ahead(es, p, slot).key == INF_MAX <==> slot + 1 >= |es[p]| && p + 1 == |es| - 1
  {
    EarlierPrecede(es, |es| - 1);
    assert BlockOk(es[p]) && BlockOk(es[p + 1]);
  }

  /** A key strictly between the markers, or no bound. */
  predicate IsBound(b: Bound) { b.At? ==> INF_MIN < b.key < INF_MAX }

  class SkipListIterator {
    var entryList: seq<Entry>
    var curEntryIdx: nat

    constructor (sl: SkipList, lo: Bound, hi: Bound)
      requires sl.Valid() && IsBound(lo)
      ensures Snapshot(sl.es, lo, hi, entryList) && curEntryIdx == 0
    {
      entryList, curEntryIdx := [], 0;
      new;
      InitRIDList(sl, lo, hi);
    }

    /** Where the scan starts: in front of the lower bound, or behind the start marker. */
    static method StartPosition(sl: SkipList, lo: Bound) returns (node: PageId, slot: int, ghost p: nat, ghost b: real)
      requires sl.Valid() && IsBound(lo)
      ensures Stands(sl.es, p, slot, b) && sl.order[p] == node && b >= INF_MIN
      ensures if lo.At? then b < lo.key <= Ahead(sl.es, p, slot).key else b == INF_MIN
    {
      assert BlockOk(sl.es[0]);
      if lo.Unbounded? {
        EarlierPrecede(sl.es, 1);
        node, slot, p, b := sl.start, 0, 0, INF_MIN;
        assert BlockOk(sl.es[1]);
      } else {
        var preds, corners;
        node, preds, corners, p := sl.FindNode(lo.key, false);
        assert BlockOk(sl.es[p]);
        var found, index := FindEntryByKey(sl.nodes[node].entries, lo.key);
        slot := if found then index - 1 else index;
        b := StartBound(sl.es, p, slot, lo.key);
      }
    }

    method InitRIDList(sl: SkipList, lo: Bound, hi: Bound)
      requires sl.Valid() && IsBound(lo)
      modifies this`entryList
      ensures Snapshot(sl.es, lo, hi, entryList)
    {
      var list := Collect(sl, lo, hi);
      entryList := list;
    }

    static method Collect(sl: SkipList, lo: Bound, hi: Bound) returns (list: seq<Entry>)
      requires sl.Valid() && IsBound(lo)
      ensures Snapshot(sl.es, lo, hi, list)
    {
      ghost var p, b;
      var curNode, slot;
      curNode, slot, p, b := StartPosition(sl, lo);
      list := [];
      while true
        invariant Scanning(sl.es, lo, hi, p, slot, b, list) && sl.order[p] == curNode
        decreases |sl.es| - p, (if p < |sl.es| then |sl.es[p]| else 0) - slot
      {
        var atEnd;
        ghost var p0, slot0 := p, slot;
        atEnd, curNode, slot, p := NextSlot(sl, curNode, slot, p, b);
        var entry := sl.nodes[curNode].entries[slot];
        if atEnd || (hi.At? && entry.key > hi.key) {
          SnapshotAtEnd(sl.es, lo, hi, p0, slot0, b, list);
          break;
        }
        ScanNext(sl.es, lo, hi, p0, slot0, p, slot, b, list);
        list := list + [entry];
        b := entry.key;
      }
    }

    /** The slot behind `slot`, in this node or the next; `atEnd` at the end marker. */
    static method NextSlot(sl: SkipList, node: PageId, slot: int, ghost p: nat, ghost b: real)
      returns (atEnd: bool, node': PageId, slot': nat, ghost p': nat)
      requires sl.Valid() && Stands(sl.es, p, slot, b) && sl.order[p] == node
      ensures p' < |sl.es| && slot' < |sl.es[p']| && sl.order[p'] == node'
      ensures sl.es[p'][slot'] == Ahead(sl.es, p, slot) && (atEnd <==> Ahead(sl.es, p, slot).key == INF_MAX)
      ensures !atEnd ==> p' < |sl.es| - 1 && Stands(sl.es, p', slot' - 1, b) && Ahead(sl.es, p', slot' - 1) == Ahead(sl.es, p, slot)
      ensures p' > p || (p' == p && slot' == slot + 1)
    {
      AheadBound(sl.es, p, slot);
      atEnd, node', p' := false, node, p;
      if slot + 1 >= |sl.nodes[node].entries| {
        Successor(sl.nodes, sl.order, sl.hs, p);
        node', slot', p' := sl.nodes[node].forward[0], 0, p + 1;
        atEnd := sl.nodes[node'].entries[0].key == INF_MAX;
        if !atEnd { StepOver(sl.es, p, slot, b); }
      } else {
        slot' := slot + 1;
      }
    }

    /** The snapshot, entry by entry. */
    method Next() returns (done: bool, entry: Entry)
      modifies this`curEntryIdx
      ensures done <==> old(curEntryIdx) >= |entryList|
      ensures !done ==> entry == entryList[old(curEntryIdx)] && curEntryIdx == old(curEntryIdx) + 1
      ensures done ==> curEntryIdx == old(curEntryIdx)
    {
      if curEntryIdx < |entryList| {
        entry := entryList[curEntryIdx];
        curEntryIdx := curEntryIdx + 1;
        done := false;
      } else {
        done, entry := true, Entry(INF_MAX, 0, 0);
      }
    }
  }

  lemma StepOver(es: Blocks, p: nat, slot: int, b: real)
    requires Ordered(es) && Stands(es, p, slot, b) && slot + 1 >= |es[p]| && p + 1 < |es| - 1
    ensures Stands(es, p + 1, -1, b) && Ahead(es, p + 1, -1) == Ahead(es, p, slot)
  {
  }

  lemma StandsOn(es: Blocks, p: nat, slot: nat)
    requires Ordered(es) && p < |es| - 1 && slot < |es[p]|
    ensures Stands(es, p, slot, es[p][slot].key)
  {
    assert BlockOk(es[p]);
    EarlierPrecede(es, p + 1);
  }

  lemma StartBound(es: Blocks, p: nat, slot: int, key: real) returns (b: real)
    requires Ordered(es) && IsHome(es, key, p) && INF_MIN < key && -1 <= slot < |es[p]|
    requires Neighbour(es[p], key, slot) || (slot + 1 < |es[p]| && es[p][slot + 1].key == key)
    ensures Stands(es, p, slot, b) && INF_MIN <= b < key <= Ahead(es, p, slot).key
  {
    assert BlockOk(es[p]);
    if slot >= 0 {
      b := es[p][slot].key;
      EarlierPrecede(es, p);
    } else {
      b := es[p - 1][|es[p - 1]| - 1].key;
      EarlierPrecede(es, p);
      assert BlockOk(es[p - 1]);
      EarlierPrecede(es, p - 1);
    }
  }
}
