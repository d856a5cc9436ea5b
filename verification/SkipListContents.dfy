/** What the nodes of a skip list hold, node by node in level-0 order. */
module SkipListContents {
  import opened SkipListNode
  import opened SkipListChain

  type Blocks = seq<seq<Entry>>

  /** All keys of a node lie below the smallest key of every later node. */
  ghost predicate Separated(es: Blocks) {
    forall p, q {:trigger Precedes(es[p], es[q])} :: 0 <= p < q < |es| ==> Precedes(es[p], es[q])
  }

  ghost predicate Precedes(a: seq<Entry>, b: seq<Entry>) {
    b != [] && forall i :: 0 <= i < |a| ==> a[i].key < b[0].key
  }

  ghost predicate BlockOk(b: seq<Entry>) {
    b != [] && Sorted(b) && Small(b) && Used(b) <= CAPACITY
  }

  ghost predicate Ordered(es: Blocks) {
    && |es| >= 2
    && (forall p :: 0 <= p < |es| ==> es[p] != [])
    && (forall p {:trigger BlockOk(es[p])} :: 0 <= p < |es| ==> BlockOk(es[p]))
    && Separated(es)
    && es[0][0].key == INF_MIN
    && |es[|es| - 1]| == 1 && es[|es| - 1][0].key == INF_MAX
  }

  ghost predicate Has(es: Blocks, e: Entry) {
    exists p :: 0 <= p < |es| && e in es[p]
  }

  ghost function All(es: Blocks): (r: set<Entry>)
    ensures forall e :: e in r <==> Has(es, e)
  {
    set p, e | 0 <= p < |es| && e in es[p] :: e
  }

  /** Node `p` is the one whose key range covers `key`. */
  ghost predicate IsHome(es: Blocks, key: real, p: int)
    requires Ordered(es)
  {
    0 <= p < |es| - 1 && es[p][0].key <= key < es[p + 1][0].key
  }

  lemma {:induction false} HomeBelow(es: Blocks, key: real, n: nat) returns (p: nat)
    requires Ordered(es) && n < |es| && key < es[n][0].key && INF_MIN < key
    ensures p < n && IsHome(es, key, p)
  {
    if es[n - 1][0].key <= key { p := n - 1; } else { p := HomeBelow(es, key, n - 1); }
  }

  lemma HomeExists(es: Blocks, key: real) returns (p: nat)
    requires Ordered(es) && INF_MIN < key < INF_MAX
    ensures IsHome(es, key, p)
  {
    p := HomeBelow(es, key, |es| - 1);
  }

  /** A node starts at or below the key exactly when it is not behind the key's home. */
  lemma HomeSplitsNodes(es: Blocks, key: real, p: nat, q: nat)
    requires Ordered(es) && IsHome(es, key, p) && q < |es|
    ensures es[q][0].key <= key <==> q <= p
    ensures es[q][0].key == key ==> q == p
  {
    if q < p { assert Precedes(es[q], es[p]); }
    if p + 1 < q { assert Precedes(es[p + 1], es[q]); }
  }

  /** An entry is found nowhere but in its key's home. */
  lemma FoundAtHome(es: Blocks, p: nat, q: nat, i: nat)
    requires Ordered(es) && q < |es| && i < |es[q]| && IsHome(es, es[q][i].key, p)
    ensures q == p
  {
    assert BlockOk(es[q]);
    HomeSplitsNodes(es, es[q][i].key, p, q);
    EarlierPrecede(es, p);
  }

  lemma EarlierPrecede(es: Blocks, p: nat)
    requires Separated(es) && p < |es|
    ensures forall q :: 0 <= q < p ==> Precedes(es[q], es[p])
  {
  }

  ghost predicate HasKey(es: Blocks, key: real) {
    exists e :: Has(es, e) && e.key == key
  }

  lemma HasKeyAtHome(es: Blocks, key: real, p: nat)
    requires Ordered(es) && IsHome(es, key, p)
    ensures HasKey(es, key) <==> exists i :: 0 <= i < |es[p]| && es[p][i].key == key
  {
    if HasKey(es, key) {
      var e :| Has(es, e) && e.key == key;
      var q :| 0 <= q < |es| && e in es[q];
      var i :| 0 <= i < |es[q]| && es[q][i] == e;
      FoundAtHome(es, p, q, i);
    }
    if i :| 0 <= i < |es[p]| && es[p][i].key == key {
      assert es[p][i] in es[p];
      assert Has(es, es[p][i]);
    }
  }

  // ---- a new entry ----

  lemma InsertedIn(es: seq<Entry>, idx: int, e: Entry)
    requires -1 <= idx < |es|
    ensures forall x :: x in InsertAfter(es, idx, e) <==> x in es || x == e
  {
    assert es == es[..idx + 1] + es[idx + 1..];
  }

  lemma InsertKeepsBlock(b: seq<Entry>, idx: int, e: Entry)
    requires BlockOk(b) && Neighbour(b, e.key, idx) && Need(e) <= LIMIT && Used(b) + Need(e) <= CAPACITY
    ensures BlockOk(InsertAfter(b, idx, e))
    ensures idx >= 0 ==> InsertAfter(b, idx, e)[0] == b[0]
  {
    InsertKeepsSorted(b, idx, e);
    UsedInsert(b, idx, e);
    InsertedIn(b, idx, e);
    forall i | 0 <= i < |InsertAfter(b, idx, e)| ensures Need(InsertAfter(b, idx, e)[i]) <= LIMIT {
      InsertedAt(b, idx, e, i);
    }
  }

  lemma InsertKeepsSeparated(es: Blocks, p: nat, idx: nat, e: Entry)
    requires Ordered(es) && p < |es| - 1 && IsHome(es, e.key, p) && idx < |es[p]|
    ensures Separated(es[p := InsertAfter(es[p], idx, e)])
  {
    var b := InsertAfter(es[p], idx, e);
    var es': Blocks := es[p := b];
    assert b[0] == es[p][0];
    forall r: nat, q: nat | 0 <= r < q < |es'| ensures Precedes(es'[r], es'[q]) {
      assert Precedes(es[r], es[q]);
      assert es'[q][0] == es[q][0];
      if r == p {
        HomeSplitsNodes(es, e.key, p, q);
        InsertedIn(es[p], idx, e);
        forall i | 0 <= i < |b| ensures b[i].key < es[q][0].key { assert b[i] in b; }
      }
    }
  }

  lemma InsertKeepsOrdered(es: Blocks, p: nat, idx: nat, e: Entry)
    requires Ordered(es) && p < |es| - 1 && IsHome(es, e.key, p) && Neighbour(es[p], e.key, idx)
    requires Need(e) <= LIMIT && Used(es[p]) + Need(e) <= CAPACITY
    ensures Ordered(es[p := InsertAfter(es[p], idx, e)])
    ensures All(es[p := InsertAfter(es[p], idx, e)]) == All(es) + {e}
  {
    var b := InsertAfter(es[p], idx, e);
    var es': Blocks := es[p := b];
    assert BlockOk(es[p]);
    InsertKeepsBlock(es[p], idx, e);
    assert b[0] == es[p][0];
    InsertKeepsSeparated(es, p, idx, e);
    InsertAll(es, p, idx, e);
    ReplaceKeepsOrdered(es, p, b);
  }

  lemma ReplaceKeepsOrdered(es: Blocks, p: nat, b: seq<Entry>)
    requires Ordered(es) && p < |es| - 1 && BlockOk(b) && Separated(es[p := b])
    requires p == 0 ==> b[0].key == INF_MIN
    ensures Ordered(es[p := b])
  {
    var es': Blocks := es[p := b];
    forall q | 0 <= q < |es'| ensures BlockOk(es'[q]) { assert q != p ==> BlockOk(es[q]); }
  }

  lemma InsertAll(es: Blocks, p: nat, idx: nat, e: Entry)
    requires p < |es| && idx < |es[p]|
    ensures All(es[p := InsertAfter(es[p], idx, e)]) == All(es) + {e}
  {
    var b := InsertAfter(es[p], idx, e);
    var es': Blocks := es[p := b];
    InsertedIn(es[p], idx, e);
    forall x ensures Has(es', x) <==> Has(es, x) || x == e {
      if x == e || x in es[p] { assert x in es'[p]; }
      if Has(es', x) { var q :| 0 <= q < |es'| && x in es'[q]; assert q != p ==> x in es[q]; }
      if Has(es, x) { var q :| 0 <= q < |es| && x in es[q]; assert x in es'[q]; }
    }
  }

  // ---- splitting a node ----

  function SplitBlocks(es: Blocks, p: nat, idx: nat): Blocks
    requires p < |es| && idx < |es[p]|
  {
    Inserted(es[p := es[p][..idx + 1]], p, es[p][idx + 1..])
  }

  lemma PartOfBlock(b: seq<Entry>, a: nat, z: nat)
    requires BlockOk(b) && a < z <= |b|
    ensures BlockOk(b[a..z])
  {
    assert b == b[..a] + b[a..z] + b[z..];
    UsedSplit(b[..a] + b[a..z], b[z..]);
    UsedSplit(b[..a], b[a..z]);
  }

  lemma SplitKeepsOrdered(es: Blocks, p: nat, idx: nat)
    requires Ordered(es) && p < |es| - 1 && idx + 1 < |es[p]|
    ensures Ordered(SplitBlocks(es, p, idx)) && All(SplitBlocks(es, p, idx)) == All(es)
  {
    var b: seq<Entry>, es': Blocks := es[p], SplitBlocks(es, p, idx);
    assert BlockOk(b);
    PartOfBlock(b, 0, idx + 1);
    PartOfBlock(b, idx + 1, |b|);
    assert b[0..idx + 1] == b[..idx + 1] && b[idx + 1..|b|] == b[idx + 1..];
    SplitSeparated(es, p, idx);
    SplitAll(es, p, idx);
    forall q | 0 <= q < |es'| ensures BlockOk(es'[q]) { if q < p { assert BlockOk(es[q]); } else if q > p + 1 { assert BlockOk(es[q - 1]); } }
  }

  lemma SplitSeparated(es: Blocks, p: nat, idx: nat)
    requires Ordered(es) && p < |es| - 1 && idx + 1 < |es[p]|
    ensures Separated(SplitBlocks(es, p, idx))
  {
    var b: seq<Entry>, es': Blocks := es[p], SplitBlocks(es, p, idx);
    assert BlockOk(b);
    forall r: nat, q: nat | 0 <= r < q < |es'| ensures Precedes(es'[r], es'[q]) {
      if q == p + 1 {
        if r < p { assert Precedes(es[r], b); }
      } else {
        assert Precedes(es[if r <= p then r else r - 1], es[if q <= p then q else q - 1]);
      }
    }
  }

  lemma SplitAll(es: Blocks, p: nat, idx: nat)
    requires p < |es| && idx < |es[p]|
    ensures All(SplitBlocks(es, p, idx)) == All(es)
  {
    var b: seq<Entry>, es': Blocks := es[p], SplitBlocks(es, p, idx);
    assert b == b[..idx + 1] + b[idx + 1..];
    forall x ensures Has(es', x) <==> Has(es, x) {
      if Has(es', x) {
        var q :| 0 <= q < |es'| && x in es'[q];
        var q0 := if q <= p then q else q - 1;
        assert x in es[q0];
      }
      if Has(es, x) {
        var q :| 0 <= q < |es| && x in es[q];
        if q == p {
          assert x in es'[p] || x in es'[p + 1];
        } else {
          assert x in es'[if q < p then q else q + 1];
        }
      }
    }
  }

  // ---- an entry gone ----

  lemma RemoveKeepsBlock(b: seq<Entry>, idx: nat)
    requires BlockOk(b) && idx < |b| && |b| > 1
    ensures BlockOk(RemoveAt(b, idx))
    ensures forall x :: x in RemoveAt(b, idx) <==> x in b && x != b[idx]
    ensures RemoveAt(b, idx)[0].key >= b[0].key
  {
    var r := RemoveAt(b, idx);
    UsedRemove(b, idx);
    assert forall i :: 0 <= i < |r| ==> r[i] == b[if i < idx then i else i + 1];
    forall x ensures x in r <==> x in b && x != b[idx] {
      if x in r {
        var i :| 0 <= i < |r| && r[i] == x;
        assert b[if i < idx then i else i + 1] == x;
      }
      if x in b && x != b[idx] {
        var i :| 0 <= i < |b| && b[i] == x;
        assert r[if i < idx then i else i - 1] == x;
      }
    }
  }

  lemma RemoveKeepsOrdered(es: Blocks, p: nat, idx: nat)
    requires Ordered(es) && p < |es| - 1 && idx < |es[p]| && |es[p]| > 1 && es[p][idx].key != INF_MIN
    ensures Ordered(es[p := RemoveAt(es[p], idx)])
    ensures All(es[p := RemoveAt(es[p], idx)]) == All(es) - {es[p][idx]}
  {
    var b := RemoveAt(es[p], idx);
    var es': Blocks := es[p := b];
    assert BlockOk(es[p]);
    RemoveKeepsBlock(es[p], idx);
    RemoveSeparated(es, p, idx);
    forall q, x | 0 <= q < |es| && q != p && x in es[q] ensures x != es[p][idx] { OnlyOnce(es, p, idx, q, x); }
    RemoveAll(es, p, b, es[p][idx]);
    ReplaceKeepsOrdered(es, p, b);
  }

  lemma RemoveAll(es: Blocks, p: nat, b: seq<Entry>, e: Entry)
    requires p < |es| && e in es[p] && forall x :: x in b <==> x in es[p] && x != e
    requires forall q, x :: 0 <= q < |es| && q != p && x in es[q] ==> x != e
    ensures All(es[p := b]) == All(es) - {e}
  {
    var es': Blocks := es[p := b];
    forall x ensures Has(es', x) <==> Has(es, x) && x != e {
      if Has(es', x) { var q :| 0 <= q < |es'| && x in es'[q]; assert x in es[q]; }
      if Has(es, x) && x != e { var q :| 0 <= q < |es| && x in es[q]; assert x in es'[q]; }
    }
  }

  lemma OnlyOnce(es: Blocks, p: nat, idx: nat, q: nat, x: Entry)
    requires Ordered(es) && p < |es| && q < |es| && p != q && idx < |es[p]| && x in es[q]
    ensures x.key != es[p][idx].key
  {
    var i :| 0 <= i < |es[q]| && es[q][i] == x;
    assert BlockOk(es[p]) && BlockOk(es[q]);
    if p < q { assert Precedes(es[p], es[q]); } else { assert Precedes(es[q], es[p]); }
  }

  lemma RemoveSeparated(es: Blocks, p: nat, idx: nat)
    requires Ordered(es) && p < |es| - 1 && idx < |es[p]| && |es[p]| > 1
    ensures Separated(es[p := RemoveAt(es[p], idx)])
  {
    var b := RemoveAt(es[p], idx);
    var es': Blocks := es[p := b];
    assert BlockOk(es[p]);
    RemoveKeepsBlock(es[p], idx);
    forall r: nat, q: nat | 0 <= r < q < |es'| ensures Precedes(es'[r], es'[q]) {
      assert Precedes(es[r], es[q]);
      if r == p {
        forall i | 0 <= i < |b| ensures b[i].key < es[q][0].key { assert b[i] in b; }
      }
    }
  }

  lemma UnlinkKeepsOrdered(es: Blocks, t: nat)
    requires Ordered(es) && 0 < t < |es| - 1 && |es[t]| == 1
    ensures Ordered(Removed(es, t)) && All(Removed(es, t)) == All(es) - {es[t][0]}
  {
    var es': Blocks := Removed(es, t);
    forall r: nat, q: nat | 0 <= r < q < |es'| ensures Precedes(es'[r], es'[q]) {
      assert Precedes(es[if r < t then r else r + 1], es[if q < t then q else q + 1]);
    }
    forall q | 0 <= q < |es'| ensures BlockOk(es'[q]) { assert BlockOk(es[if q < t then q else q + 1]); }
    forall q, x | 0 <= q < |es| && q != t && x in es[q] ensures x != es[t][0] { OnlyOnce(es, t, 0, q, x); }
    UnlinkAll(es, t);
  }

  lemma UnlinkAll(es: Blocks, t: nat)
    requires t < |es| && |es[t]| == 1
    requires forall q, x :: 0 <= q < |es| && q != t && x in es[q] ==> x != es[t][0]
    ensures All(Removed(es, t)) == All(es) - {es[t][0]}
  {
    var es': Blocks := Removed(es, t);
    forall x ensures Has(es', x) <==> Has(es, x) && x != es[t][0] {
      if Has(es', x) {
        var q :| 0 <= q < |es'| && x in es'[q];
        assert x in es[if q < t then q else q + 1];
      }
      if Has(es, x) && x != es[t][0] {
        var q :| 0 <= q < |es| && x in es[q];
        assert x in es'[if q < t then q else q - 1];
      }
    }
  }

  /** No two entries share a key. */
  lemma KeysAreUnique(es: Blocks, x: Entry, y: Entry)
    requires Ordered(es) && Has(es, x) && Has(es, y) && x.key == y.key
    ensures x == y
  {
    var p :| 0 <= p < |es| && x in es[p];
    var i :| 0 <= i < |es[p]| && es[p][i] == x;
    var q :| 0 <= q < |es| && y in es[q];
    var j :| 0 <= j < |es[q]| && es[q][j] == y;
    assert BlockOk(es[p]);
    if p != q { OnlyOnce(es, p, i, q, y); }
  }
}
