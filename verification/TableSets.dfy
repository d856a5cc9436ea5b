/** Sets of table names as strings: sorted and joined by commas, and split again. */
module TableSets {
  import opened Bytes
  import opened KeyOrder

  type Name = seq<byte>
  const COMMA: byte := 44

  ghost predicate CommaFree(n: Name) { COMMA !in n }

  function Join(names: seq<Name>): seq<byte> {
    if names == [] then [] else if |names| == 1 then names[0] else names[0] + [COMMA] + Join(names[1..])
  }

  /** `strings.Split(s, ",")`. */
  function Split(s: seq<byte>): (r: seq<Name>)
    ensures r != []
  {
    if s == [] then [[]]
    else
      var r := Split(s[1..]);
      if s[0] == COMMA then [[]] + r else [[s[0]] + r[0]] + r[1..]
  }

  lemma {:induction false} SplitName(n: Name)
    requires CommaFree(n)
    ensures Split(n) == [n]
  {
    if n != [] {
      assert CommaFree(n[1..]);
      SplitName(n[1..]);
      assert n == [n[0]] + n[1..];
    }
  }

  lemma {:induction false} SplitFirst(n: Name, rest: seq<byte>)
    requires CommaFree(n)
    ensures Split(n + [COMMA] + rest) == [n] + Split(rest)
  {
    var s := n + [COMMA] + rest;
    if n == [] {
      assert s[1..] == rest;
    } else {
      assert CommaFree(n[1..]);
      SplitFirst(n[1..], rest);
      assert s[1..] == n[1..] + [COMMA] + rest;
      assert n == [n[0]] + n[1..];
    }
  }

  /** Splitting undoes joining. */
  lemma {:induction false} SplitJoin(names: seq<Name>)
    requires names != [] && forall i :: 0 <= i < |names| ==> CommaFree(names[i])
    ensures Split(Join(names)) == names
  {
    if |names| == 1 {
      SplitName(names[0]);
    } else {
      SplitJoin(names[1..]);
      SplitFirst(names[0], Join(names[1..]));
    }
  }

  // ---- sorted lists ----

  ghost predicate Ascending(l: seq<Name>) {
    forall i, j :: 0 <= i < j < |l| ==> Fraction(l[i]) < Fraction(l[j])
  }

  /** There is one ascending list of a set. */
  lemma {:induction false} AscendingIsUnique(a: seq<Name>, b: seq<Name>)
    requires Ascending(a) && Ascending(b) && forall x :: x in a <==> x in b
    ensures a == b
  {
    BothEmpty(a, b);
    if a != [] {
      SameHead(a, b);
      assert a == [a[0]] + a[1..] && b == [b[0]] + b[1..];
      forall x ensures x in a[1..] <==> x in b[1..] {
        assert x in a <==> x == a[0] || x in a[1..];
        assert x in b <==> x == b[0] || x in b[1..];
      }
      AscendingIsUnique(a[1..], b[1..]);
    }
  }

  lemma BothEmpty(a: seq<Name>, b: seq<Name>)
    requires forall x :: x in a <==> x in b
    ensures a == [] <==> b == []
  {
    assert a != [] ==> a[0] in b;
    assert b != [] ==> b[0] in a;
  }

  lemma {:induction false} SameHead(a: seq<Name>, b: seq<Name>)
    requires Ascending(a) && Ascending(b) && a != [] && b != [] && forall x :: x in a <==> x in b
    ensures a[0] == b[0]
    ensures a[0] !in a[1..] && b[0] !in b[1..]
  {
    assert a[0] in b && b[0] in a;
    var i :| 0 <= i < |b| && b[i] == a[0];
    var j :| 0 <= j < |a| && a[j] == b[0];
    FractionOrder(a[0], b[0]);
  }

  lemma {:induction false} Least(s: set<Name>) returns (m: Name)
    requires s != {}
    ensures m in s && forall x :: x in s && x != m ==> Fraction(m) < Fraction(x)
  {
    var y :| y in s;
    if s == {y} {
      m := y;
    } else {
      var z := Least(s - {y});
      FractionOrder(y, z);
      FractionOrder(z, y);
      m := if Fraction(y) < Fraction(z) then y else z;
    }
  }

  ghost predicate ListsSet(l: seq<Name>, s: set<Name>) {
    Ascending(l) && forall x :: x in l <==> x in s
  }

  lemma {:induction false} SortedExists(s: set<Name>)
    ensures exists l :: ListsSet(l, s)
    decreases |s|
  {
    if s == {} {
      assert ListsSet([], s);
    } else {
      var m := Least(s);
      SortedExists(s - {m});
      var l :| ListsSet(l, s - {m});
      assert forall i :: 0 <= i < |l| ==> l[i] in l;
      assert ListsSet([m] + l, s);
    }
  }

  /** The names of the set in ascending order. */
  ghost function Sorted(s: set<Name>): (l: seq<Name>)
    ensures ListsSet(l, s)
  {
    SortedExists(s);
    var l :| ListsSet(l, s);
    l
  }

  /** `StrSetToString`: listed in any order, sorted, joined. */
  ghost function KeyOf(s: set<Name>): seq<byte> { Join(Sorted(s)) }

  /** `StringToMapset`. */
  function TablesOf(key: seq<byte>): set<Name> { set n | n in Split(key) }

  /** A set of names is recovered from its key, so distinct sets have distinct keys. */
  lemma KeyRoundTrip(s: set<Name>)
    requires s != {} && forall n :: n in s ==> CommaFree(n)
    ensures TablesOf(KeyOf(s)) == s
  {
    var l := Sorted(s);
    var x :| x in s;
    assert x in l && l != [];
    forall i | 0 <= i < |l| ensures CommaFree(l[i]) { assert l[i] in l; }
    SplitJoin(l);
  }

  /** However the set was listed, sorting and joining it gives its key. */
  lemma KeyIsCanonical(s: set<Name>, l: seq<Name>)
    requires ListsSet(l, s)
    ensures Join(l) == KeyOf(s)
  {
    AscendingIsUnique(l, Sorted(s));
  }

  // ---- sorting ----

  function InsertSorted(l: seq<Name>, x: Name): seq<Name> {
    if l == [] || Less(x, l[0]) then [x] + l else [l[0]] + InsertSorted(l[1..], x)
  }

  lemma {:induction false} InsertSortedLists(l: seq<Name>, s: set<Name>, x: Name)
    requires ListsSet(l, s) && x !in s
    ensures ListsSet(InsertSorted(l, x), s + {x})
  {
    InsertSortedMembers(l, x);
    InsertSortedAscends(l, x);
  }

  lemma {:induction false} InsertSortedMembers(l: seq<Name>, x: Name)
    ensures forall y :: y in InsertSorted(l, x) <==> y in l || y == x
  {
    if l != [] {
      InsertSortedMembers(l[1..], x);
      assert l == [l[0]] + l[1..];
    }
  }

  lemma {:induction false} InsertSortedAscends(l: seq<Name>, x: Name)
    requires Ascending(l) && x !in l
    ensures Ascending(InsertSorted(l, x))
  {
    if l != [] {
      FractionOrder(x, l[0]);
      FractionOrder(l[0], x);
      if Less(x, l[0]) {
        var r := [x] + l;
        forall i, j | 0 <= i < j < |r| ensures Fraction(r[i]) < Fraction(r[j]) {
          assert j > 1 ==> Fraction(l[0]) < Fraction(l[j - 1]);
        }
      } else {
        InsertSortedAscends(l[1..], x);
        InsertSortedMembers(l[1..], x);
        var t := InsertSorted(l[1..], x);
        forall j | 0 <= j < |t| ensures Fraction(l[0]) < Fraction(t[j]) {
          assert t[j] in t;
          if t[j] != x { var k :| 0 <= k < |l[1..]| && l[1..][k] == t[j]; }
        }
      }
    }
  }

  /** The key of a set: its names listed in any order, sorted, joined. */
  method StrSetToString(s: set<Name>) returns (key: seq<byte>)
    ensures key == KeyOf(s)
  {
    var rest, l := s, [];
    while rest != {}
      invariant rest <= s && ListsSet(l, s - rest)
      decreases |rest|
    {
      var x :| x in rest;
      InsertSortedLists(l, s - rest, x);
      l := InsertSorted(l, x);
      assert s - (rest - {x}) == s - rest + {x};
      rest := rest - {x};
    }
    assert s - rest == s;
    KeyIsCanonical(s, l);
    key := Join(l);
  }
}
