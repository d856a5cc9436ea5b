/** The join-order search: dynamic programming over sets of tables, best plan per set.  Plans,
  * the best join of two of them, and costs are left open. */
module Selinger {
  import opened Bytes
  import opened TableSets

  type Key = seq<byte>

  datatype CostAndPlan<P> = CostAndPlan(cost: nat, plan: P)

  /** The tables, what `findBestJoinInner` makes of two plans, and the cost of a plan. */
  datatype Query<!P> = Query(tables: set<Name>, join: (P, P) -> P, cost: P -> nat)

  ghost predicate IsQuery<P>(q: Query<P>) {
    q.tables != {} && forall n :: n in q.tables ==> CommaFree(n)
  }

  /** A set of tables the search deals with. */
  predicate Part<P>(q: Query<P>, s: set<Name>) { s != {} && s <= q.tables }

  /** An ordered split of a set of tables in two. */
  predicate Splits<P>(q: Query<P>, a: set<Name>, b: set<Name>) {
    Part(q, a) && Part(q, b) && a !! b
  }

  lemma KeyOfPart<P>(q: Query<P>, s: set<Name>)
    requires IsQuery(q) && Part(q, s)
    ensures TablesOf(KeyOf(s)) == s
  {
    KeyRoundTrip(s);
  }

  /** The table of plans holds only keys of sets of at most `k` tables. */
  ghost predicate KeysOk<P>(q: Query<P>, plans: map<Key, CostAndPlan<P>>, k: int) {
    forall key :: key in plans ==> IsKey(q, key) && |TablesOf(key)| <= k
  }

  ghost predicate IsKey<P>(q: Query<P>, key: Key) {
    Part(q, TablesOf(key)) && KeyOf(TablesOf(key)) == key
  }

  ghost function JoinOf<P>(q: Query<P>, plans: map<Key, CostAndPlan<P>>, a: set<Name>, b: set<Name>): P
    requires KeyOf(a) in plans && KeyOf(b) in plans
  {
    q.join(plans[KeyOf(a)].plan, plans[KeyOf(b)].plan)
  }

  /** `e` is a join of the best plans of two halves of `s`. */
  ghost predicate Attained<P>(q: Query<P>, plans: map<Key, CostAndPlan<P>>, s: set<Name>, e: CostAndPlan<P>) {
    exists a, b :: Splits(q, a, b) && a + b == s && KeyOf(a) in plans && KeyOf(b) in plans &&
                   e.plan == JoinOf(q, plans, a, b) && e.cost == q.cost(e.plan)
  }

  /** No join of the best plans of two halves is cheaper than what is stored for the whole. */
  ghost predicate NoCheaper<P>(q: Query<P>, plans: map<Key, CostAndPlan<P>>, now: map<Key, CostAndPlan<P>>, a: set<Name>, b: set<Name>) {
    && KeyOf(a) in plans && KeyOf(b) in plans && KeyOf(a + b) in now
    && now[KeyOf(a + b)].cost <= q.cost(JoinOf(q, plans, a, b))
  }

  /** For every set of two to `k` tables the stored plan is a cheapest join over all ordered
    * splits of the set, the plans of the halves being cheapest themselves. */
  ghost predicate Solved<P>(q: Query<P>, scans: map<Key, CostAndPlan<P>>, plans: map<Key, CostAndPlan<P>>, k: int) {
    && Covers(q, plans, k)
    && (forall s :: Part(q, s) && |s| == 1 ==> KeyOf(s) in plans && KeyOf(s) in scans && plans[KeyOf(s)] == scans[KeyOf(s)])
    && (forall s :: Part(q, s) && 1 < |s| <= k ==> KeyOf(s) in plans && Attained(q, plans, s, plans[KeyOf(s)]))
    && (forall a, b :: Splits(q, a, b) && |a| + |b| <= k ==> NoCheaper(q, plans, plans, a, b))
  }

  /** One scan plan per table. */
  ghost predicate ScansOk<P>(q: Query<P>, scans: map<Key, CostAndPlan<P>>) {
    && KeysOk(q, scans, 1)
    && forall s :: Part(q, s) && |s| == 1 ==> KeyOf(s) in scans
  }

  /** An order in which a loop may visit the keys of the table: every key there could be is in
    * it; a key that is not in the table when its turn comes is passed over. */
  ghost predicate Visits<P>(q: Query<P>, order: seq<Key>) {
    forall s :: Part(q, s) ==> KeyOf(s) in order
  }

  ghost predicate Covers<P>(q: Query<P>, plans: map<Key, CostAndPlan<P>>, k: int) {
    forall s :: Part(q, s) && |s| <= k ==> KeyOf(s) in plans
  }

  // ---- one round: sets of z tables, from the plans of smaller sets ----

  /** A pair of bases already looked at. */
  ghost predicate Seen(outer: seq<Key>, cur: Key, inner: seq<Key>, a: set<Name>, b: set<Name>) {
    KeyOf(a) in outer || (KeyOf(a) == cur && KeyOf(b) in inner)
  }

  ghost predicate Partial<P>(q: Query<P>, before: map<Key, CostAndPlan<P>>, plans: map<Key, CostAndPlan<P>>, z: int,
                             outer: seq<Key>, cur: Key, inner: seq<Key>) {
    && EntriesOk(q, before, plans, z)
    && (forall a, b :: Splits(q, a, b) && |a| + |b| == z && Seen(outer, cur, inner, a, b) ==>
          NoCheaper(q, before, plans, a, b))
  }

  lemma SizesAdd(a: set<Name>, b: set<Name>)
    requires a !! b
    ensures |a + b| == |a| + |b|
  {
  }

  /** What joining two entries of the table does to it. */
  function Better<P>(q: Query<P>, plans: map<Key, CostAndPlan<P>>, key: Key, p: P): map<Key, CostAndPlan<P>> {
    if key !in plans then plans[key := CostAndPlan(q.cost(p), p)]
    else if q.cost(p) < plans[key].cost then plans[key := CostAndPlan(q.cost(p), p)]
    else plans
  }

  /** A pair whose sizes add up to `z` is joined. */
  lemma JoinKeepsPartial<P>(q: Query<P>, before: map<Key, CostAndPlan<P>>, plans: map<Key, CostAndPlan<P>>, z: int,
                            outer: seq<Key>, cur: Key, inner: seq<Key>, a: set<Name>, b: set<Name>)
    requires IsQuery(q) && KeysOk(q, before, z - 1) && Partial(q, before, plans, z, outer, cur, inner)
    requires Splits(q, a, b) && |a| + |b| == z && KeyOf(a) == cur && KeyOf(a) in before && KeyOf(b) in before
    ensures Partial(q, before, Better(q, plans, KeyOf(a + b), JoinOf(q, before, a, b)), z, outer, cur, inner + [KeyOf(b)])
  {
    var s, p := a + b, JoinOf(q, before, a, b);
    var plans' := Better(q, plans, KeyOf(s), p);
    SizesAdd(a, b);
    KeyOfPart(q, s);
    assert Attained(q, before, s, CostAndPlan(q.cost(p), p));
    NewIsAttained(q, before, plans, z, s, p);
    forall c, d | Splits(q, c, d) && |c| + |d| == z && Seen(outer, cur, inner + [KeyOf(b)], c, d)
      ensures NoCheaper(q, before, plans', c, d)
    {
      SeenOrNow(q, outer, cur, inner, a, b, c, d);
      if Seen(outer, cur, inner, c, d) { StaysNoCheaper(q, before, plans, KeyOf(s), p, c, d); }
    }
  }

  lemma StaysNoCheaper<P>(q: Query<P>, before: map<Key, CostAndPlan<P>>, plans: map<Key, CostAndPlan<P>>, key: Key, p: P,
                          c: set<Name>, d: set<Name>)
    requires NoCheaper(q, before, plans, c, d)
    ensures NoCheaper(q, before, Better(q, plans, key, p), c, d)
  {
  }

  lemma SeenOrNow<P>(q: Query<P>, outer: seq<Key>, cur: Key, inner: seq<Key>, a: set<Name>, b: set<Name>, c: set<Name>, d: set<Name>)
    requires IsQuery(q) && Splits(q, a, b) && Splits(q, c, d) && KeyOf(a) == cur
    requires Seen(outer, cur, inner + [KeyOf(b)], c, d)
    ensures Seen(outer, cur, inner, c, d) || (c == a && d == b)
  {
    KeyOfPart(q, a);
    KeyOfPart(q, b);
    KeyOfPart(q, c);
    KeyOfPart(q, d);
  }

  ghost predicate EntriesOk<P>(q: Query<P>, before: map<Key, CostAndPlan<P>>, plans: map<Key, CostAndPlan<P>>, z: int) {
    && (forall key :: key in before ==> key in plans && plans[key] == before[key])
    && (forall key {:trigger EntryOk(q, before, z, key, plans[key])} :: key in plans && key !in before ==>
          EntryOk(q, before, z, key, plans[key]))
  }

  ghost predicate EntryOk<P>(q: Query<P>, before: map<Key, CostAndPlan<P>>, z: int, key: Key, e: CostAndPlan<P>) {
    IsKey(q, key) && |TablesOf(key)| == z && Attained(q, before, TablesOf(key), e)
  }

  lemma NewIsAttained<P>(q: Query<P>, before: map<Key, CostAndPlan<P>>, plans: map<Key, CostAndPlan<P>>, z: int, s: set<Name>, p: P)
    requires KeysOk(q, before, z - 1) && EntriesOk(q, before, plans, z)
    requires Part(q, s) && |s| == z && TablesOf(KeyOf(s)) == s && Attained(q, before, s, CostAndPlan(q.cost(p), p))
    ensures EntriesOk(q, before, Better(q, plans, KeyOf(s), p), z)
  {
    NewEntryOk(q, before, z, s, CostAndPlan(q.cost(p), p));
    BetterIsOk(q, before, plans, z, KeyOf(s), p);
  }

  lemma NewEntryOk<P>(q: Query<P>, before: map<Key, CostAndPlan<P>>, z: int, s: set<Name>, e: CostAndPlan<P>)
    requires KeysOk(q, before, z - 1)
    requires Part(q, s) && |s| == z && TablesOf(KeyOf(s)) == s && Attained(q, before, s, e)
    ensures KeyOf(s) !in before && EntryOk(q, before, z, KeyOf(s), e)
  {
  }

  lemma BetterIsOk<P>(q: Query<P>, before: map<Key, CostAndPlan<P>>, plans: map<Key, CostAndPlan<P>>, z: int, k: Key, p: P)
    requires EntriesOk(q, before, plans, z) && k !in before && EntryOk(q, before, z, k, CostAndPlan(q.cost(p), p))
    ensures EntriesOk(q, before, Better(q, plans, k, p), z)
  {
    var plans', e := Better(q, plans, k, p), CostAndPlan(q.cost(p), p);
    forall key | key in plans' && key !in before ensures EntryOk(q, before, z, key, plans'[key]) {
      if key in plans && plans'[key] == plans[key] {
        assert EntryOk(q, before, z, key, plans[key]);
      } else {
        assert key == k && plans'[key] == e;
      }
    }
  }

  /** A pair that does not fit is passed over. */
  lemma SkipKeepsPartial<P>(q: Query<P>, before: map<Key, CostAndPlan<P>>, plans: map<Key, CostAndPlan<P>>, z: int,
                            outer: seq<Key>, cur: Key, inner: seq<Key>, jk: Key)
    requires IsQuery(q) && Partial(q, before, plans, z, outer, cur, inner)
    requires TablesOf(cur) !! TablesOf(jk) ==> |TablesOf(cur)| + |TablesOf(jk)| != z
    ensures Partial(q, before, plans, z, outer, cur, inner + [jk])
  {
    forall c, d | Splits(q, c, d) && |c| + |d| == z && Seen(outer, cur, inner + [jk], c, d)
      ensures NoCheaper(q, before, plans, c, d)
    {
      KeyOfPart(q, c);
      KeyOfPart(q, d);
      assert Seen(outer, cur, inner, c, d);
    }
  }

  // ---- a finished round ----

  lemma AttainedLater<P>(q: Query<P>, before: map<Key, CostAndPlan<P>>, plans: map<Key, CostAndPlan<P>>, s: set<Name>, e: CostAndPlan<P>)
    requires Attained(q, before, s, e) && forall key :: key in before ==> key in plans && plans[key] == before[key]
    ensures Attained(q, plans, s, e)
  {
    var a, b :| Splits(q, a, b) && a + b == s && KeyOf(a) in before && KeyOf(b) in before &&
                e.plan == JoinOf(q, before, a, b) && e.cost == q.cost(e.plan);
    assert JoinOf(q, plans, a, b) == JoinOf(q, before, a, b);
  }

  /** A set of two or more tables can be split. */
  lemma SplitExists<P>(q: Query<P>, s: set<Name>) returns (a: set<Name>, b: set<Name>)
    requires Part(q, s) && |s| > 1
    ensures Splits(q, a, b) && a + b == s && |a| + |b| == |s|
  {
    var x :| x in s;
    a, b := {x}, s - {x};
    assert a + b == s;
    SizesAdd(a, b);
    assert b != {};
  }

  lemma RoundCovers<P>(q: Query<P>, before: map<Key, CostAndPlan<P>>, plans: map<Key, CostAndPlan<P>>, z: int, outer: seq<Key>, s: set<Name>)
    requires Visits(q, outer) && Partial(q, before, plans, z, outer, [], []) && Part(q, s) && 1 < |s| == z
    ensures KeyOf(s) in plans
  {
    var a, b := SplitExists(q, s);
    assert Seen(outer, [], [], a, b);
    assert NoCheaper(q, before, plans, a, b);
  }

  lemma RoundAttains<P>(q: Query<P>, scans: map<Key, CostAndPlan<P>>, before: map<Key, CostAndPlan<P>>, plans: map<Key, CostAndPlan<P>>,
                        z: int, s: set<Name>)
    requires IsQuery(q) && KeysOk(q, before, z - 1) && Solved(q, scans, before, z - 1) && EntriesOk(q, before, plans, z)
    requires Part(q, s) && 1 < |s| <= z && KeyOf(s) in plans
    ensures Attained(q, plans, s, plans[KeyOf(s)])
  {
    KeyOfPart(q, s);
    var e := plans[KeyOf(s)];
    if KeyOf(s) in before {
      assert Attained(q, before, s, before[KeyOf(s)]);
    } else {
      assert EntryOk(q, before, z, KeyOf(s), plans[KeyOf(s)]);
    }
    AttainedLater(q, before, plans, s, e);
  }

  lemma RoundIsCheapest<P>(q: Query<P>, scans: map<Key, CostAndPlan<P>>, before: map<Key, CostAndPlan<P>>, plans: map<Key, CostAndPlan<P>>,
                           z: int, outer: seq<Key>, a: set<Name>, b: set<Name>)
    requires Visits(q, outer) && Solved(q, scans, before, z - 1) && Partial(q, before, plans, z, outer, [], [])
    requires Splits(q, a, b) && |a| + |b| <= z
    ensures NoCheaper(q, plans, plans, a, b)
  {
    if |a| + |b| < z {
      assert NoCheaper(q, before, before, a, b);
    } else {
      assert Seen(outer, [], [], a, b);
      assert NoCheaper(q, before, plans, a, b);
    }
  }

  lemma RoundSolves<P>(q: Query<P>, scans: map<Key, CostAndPlan<P>>, before: map<Key, CostAndPlan<P>>, plans: map<Key, CostAndPlan<P>>,
                       z: int, outer: seq<Key>)
    requires IsQuery(q) && z > 1 && Visits(q, outer) && KeysOk(q, before, z - 1)
    requires Solved(q, scans, before, z - 1) && Partial(q, before, plans, z, outer, [], [])
    ensures Solved(q, scans, plans, z) && KeysOk(q, plans, z)
  {
    forall s | Part(q, s) && |s| <= z ensures KeyOf(s) in plans {
      if |s| == z { RoundCovers(q, before, plans, z, outer, s); }
    }
    forall s | Part(q, s) && 1 < |s| <= z ensures Attained(q, plans, s, plans[KeyOf(s)]) {
      RoundAttains(q, scans, before, plans, z, s);
    }
    forall a, b | Splits(q, a, b) && |a| + |b| <= z ensures NoCheaper(q, plans, plans, a, b) {
      RoundIsCheapest(q, scans, before, plans, z, outer, a, b);
    }
    forall key | key in plans ensures IsKey(q, key) && |TablesOf(key)| <= z {
      if key !in before { assert EntryOk(q, before, z, key, plans[key]); }
    }
  }

  lemma NothingSeen<P>(q: Query<P>, before: map<Key, CostAndPlan<P>>, z: int)
    ensures Partial(q, before, before, z, [], [], [])
  {
  }

  /** The inner loop is over: the base key is done with. */
  lemma InnerDone<P>(q: Query<P>, before: map<Key, CostAndPlan<P>>, plans: map<Key, CostAndPlan<P>>, z: int,
                     outer: seq<Key>, cur: Key, inner: seq<Key>)
    requires Partial(q, before, plans, z, outer, cur, inner) && Visits(q, inner)
    ensures Partial(q, before, plans, z, outer + [cur], [], [])
  {
    forall a, b | Splits(q, a, b) && |a| + |b| == z && Seen(outer + [cur], [], [], a, b)
      ensures NoCheaper(q, before, plans, a, b)
    {
      assert Seen(outer, cur, inner, a, b);
    }
  }

  /** A base key that is not in the table, or too big: no pair with it fits. */
  lemma BaseSkipped<P>(q: Query<P>, before: map<Key, CostAndPlan<P>>, plans: map<Key, CostAndPlan<P>>,
                       z: int, outer: seq<Key>, cur: Key)
    requires IsQuery(q) && Partial(q, before, plans, z, outer, [], []) && cur !in before && Covers(q, before, z - 1)
    ensures Partial(q, before, plans, z, outer + [cur], [], [])
  {
    forall a, b | Splits(q, a, b) && |a| + |b| == z && Seen(outer + [cur], [], [], a, b)
      ensures NoCheaper(q, before, plans, a, b)
    {
      assert KeyOf(a) != cur;
      assert Seen(outer, [], [], a, b);
    }
  }

  /** A join key that is not in the table: it is no key of a smaller set. */
  lemma AbsentKey<P>(q: Query<P>, before: map<Key, CostAndPlan<P>>, plans: map<Key, CostAndPlan<P>>,
                     z: int, outer: seq<Key>, cur: Key, inner: seq<Key>, jk: Key)
    requires Partial(q, before, plans, z, outer, cur, inner) && Covers(q, before, z - 1) && jk !in plans
    ensures Partial(q, before, plans, z, outer, cur, inner + [jk])
  {
    forall a, b | Splits(q, a, b) && |a| + |b| == z && Seen(outer, cur, inner + [jk], a, b)
      ensures NoCheaper(q, before, plans, a, b)
    {
      assert KeyOf(b) in before;
      assert Seen(outer, cur, inner, a, b);
    }
  }

  // ---- the loops ----

  /** The innermost body: the pair is joined if its halves are disjoint and of the right size. */
  method Consider<P>(q: Query<P>, ghost before: map<Key, CostAndPlan<P>>, plans: map<Key, CostAndPlan<P>>, z: int,
                     baseKey: Key, base: CostAndPlan<P>, joinKey: Key, ghost outer: seq<Key>, ghost inner: seq<Key>)
    returns (plans': map<Key, CostAndPlan<P>>)
    requires IsQuery(q) && KeysOk(q, before, z - 1) && Partial(q, before, plans, z, outer, baseKey, inner)
    requires baseKey in before && base == before[baseKey] && joinKey in plans
    ensures Partial(q, before, plans', z, outer, baseKey, inner + [joinKey])
  {
    var baseTables, joinTables := TablesOf(baseKey), TablesOf(joinKey);
    if !(baseTables !! joinTables) || |baseTables| + |joinTables| != z {
      SkipKeepsPartial(q, before, plans, z, outer, baseKey, inner, joinKey);
      return plans;
    }
    JoinKeyFits(q, before, plans, z, outer, baseKey, inner, joinKey);
    JoinKeepsPartial(q, before, plans, z, outer, baseKey, inner, baseTables, joinTables);
    var bestJoinPlan := q.join(base.plan, plans[joinKey].plan);
    var key := StrSetToString(baseTables + joinTables);
    plans' := Better(q, plans, key, bestJoinPlan);
  }

  lemma EntryAge<P>(q: Query<P>, before: map<Key, CostAndPlan<P>>, plans: map<Key, CostAndPlan<P>>, z: int, key: Key)
    requires EntriesOk(q, before, plans, z) && key in plans
    ensures key in before || (IsKey(q, key) && |TablesOf(key)| == z)
  {
    if key !in before { assert EntryOk(q, before, z, key, plans[key]); }
  }

  lemma JoinKeyFits<P>(q: Query<P>, before: map<Key, CostAndPlan<P>>, plans: map<Key, CostAndPlan<P>>, z: int,
                       outer: seq<Key>, cur: Key, inner: seq<Key>, jk: Key)
    requires IsQuery(q) && KeysOk(q, before, z - 1) && Partial(q, before, plans, z, outer, cur, inner)
    requires cur in before && jk in plans && TablesOf(cur) !! TablesOf(jk) && |TablesOf(cur)| + |TablesOf(jk)| == z
    ensures jk in before && Splits(q, TablesOf(cur), TablesOf(jk))
    ensures KeyOf(TablesOf(cur)) == cur && KeyOf(TablesOf(jk)) == jk
  {
    assert IsKey(q, cur);
    assert |TablesOf(cur)| > 0;
    EntryAge(q, before, plans, z, jk);
  }

  method Visit<P>(q: Query<P>, ghost before: map<Key, CostAndPlan<P>>, plans: map<Key, CostAndPlan<P>>, z: int,
                  baseKey: Key, base: CostAndPlan<P>, joinKey: Key, ghost outer: seq<Key>, ghost inner: seq<Key>)
    returns (plans': map<Key, CostAndPlan<P>>)
    requires IsQuery(q) && KeysOk(q, before, z - 1) && Partial(q, before, plans, z, outer, baseKey, inner)
    requires baseKey in before && base == before[baseKey] && Covers(q, before, z - 1)
    ensures Partial(q, before, plans', z, outer, baseKey, inner + [joinKey])
  {
    if joinKey in plans {
      plans' := Consider(q, before, plans, z, baseKey, base, joinKey, outer, inner);
    } else {
      AbsentKey(q, before, plans, z, outer, baseKey, inner, joinKey);
      plans' := plans;
    }
  }

  /** All keys as join partners of one base, in the order `order`. */
  method InnerLoop<P>(q: Query<P>, ghost before: map<Key, CostAndPlan<P>>, plans0: map<Key, CostAndPlan<P>>, z: int,
                      baseKey: Key, base: CostAndPlan<P>, order: seq<Key>, ghost outer: seq<Key>)
    returns (plans: map<Key, CostAndPlan<P>>)
    requires IsQuery(q) && KeysOk(q, before, z - 1) && Partial(q, before, plans0, z, outer, baseKey, [])
    requires baseKey in before && base == before[baseKey] && Covers(q, before, z - 1)
    ensures Partial(q, before, plans, z, outer, baseKey, order)
  {
    plans := plans0;
    assert order[..0] == [];
    for j := 0 to |order|
      invariant Partial(q, before, plans, z, outer, baseKey, order[..j])
    {
      assert order[..j + 1] == order[..j] + [order[j]];
      plans := Visit(q, before, plans, z, baseKey, base, order[j], outer, order[..j]);
    }
    assert order[..|order|] == order;
  }

  /** One round: every pair of table entries, bases in the order `outer`, partners of a base in
    * the order `inner` gives for it. */
  method Round<P>(q: Query<P>, ghost scans: map<Key, CostAndPlan<P>>, before: map<Key, CostAndPlan<P>>, z: int,
                  outer: seq<Key>, inner: Key -> seq<Key>)
    returns (plans: map<Key, CostAndPlan<P>>)
    requires IsQuery(q) && z > 1 && KeysOk(q, before, z - 1) && Solved(q, scans, before, z - 1)
    requires Visits(q, outer) && forall k :: Visits(q, inner(k))
    ensures Solved(q, scans, plans, z) && KeysOk(q, plans, z)
  {
    plans := before;
    NothingSeen(q, before, z);
    assert outer[..0] == [];
    for i := 0 to |outer|
      invariant Partial(q, before, plans, z, outer[..i], [], [])
    {
      var baseKey := outer[i];
      assert outer[..i + 1] == outer[..i] + [baseKey];
      if baseKey in plans && |TablesOf(baseKey)| < z {
        BaseIsSmall(q, before, plans, z, outer[..i], baseKey);
        NewBase(q, before, plans, z, outer[..i], baseKey);
        plans := InnerLoop(q, before, plans, z, baseKey, plans[baseKey], inner(baseKey), outer[..i]);
        InnerDone(q, before, plans, z, outer[..i], baseKey, inner(baseKey));
      } else {
        BaseSkipped(q, before, plans, z, outer[..i], baseKey);
      }
    }
    assert outer[..|outer|] == outer;
    RoundSolves(q, scans, before, plans, z, outer);
  }

  lemma BaseIsSmall<P>(q: Query<P>, before: map<Key, CostAndPlan<P>>, plans: map<Key, CostAndPlan<P>>, z: int, outer: seq<Key>, key: Key)
    requires Partial(q, before, plans, z, outer, [], []) && key in plans && |TablesOf(key)| < z
    ensures key in before && plans[key] == before[key]
  {
    EntryAge(q, before, plans, z, key);
  }

  lemma NewBase<P>(q: Query<P>, before: map<Key, CostAndPlan<P>>, plans: map<Key, CostAndPlan<P>>, z: int, outer: seq<Key>, cur: Key)
    requires Partial(q, before, plans, z, outer, [], [])
    ensures Partial(q, before, plans, z, outer, cur, [])
  {
    forall a, b | Splits(q, a, b) && |a| + |b| == z && Seen(outer, cur, [], a, b) ensures NoCheaper(q, before, plans, a, b) {
      assert Seen(outer, [], [], a, b);
    }
  }

  /** `findBestJoin`: whatever the orders in which the loops visit the table, the plan found for
    * all tables is a cheapest one, and it is always found. */
  method FindBestJoin<P>(q: Query<P>, scans: map<Key, CostAndPlan<P>>, outer: nat -> seq<Key>, inner: (nat, Key) -> seq<Key>)
    returns (plans: map<Key, CostAndPlan<P>>, best: P)
    requires IsQuery(q) && ScansOk(q, scans)
    requires forall i :: Visits(q, outer(i))
    requires forall i, k :: Visits(q, inner(i, k))
    ensures Solved(q, scans, plans, |q.tables|) && KeyOf(q.tables) in plans && best == plans[KeyOf(q.tables)].plan
  {
    plans := scans;
    ScansSolveOne(q, scans);
    var x :| x in q.tables;
    assert {x} <= q.tables && |{x}| == 1;
    SubsetSize({x}, q.tables);
    for i := 1 to |q.tables|
      invariant Solved(q, scans, plans, i) && KeysOk(q, plans, i)
    {
      plans := Round(q, scans, plans, i + 1, outer(i), k => inner(i, k));
    }
    assert Part(q, q.tables);
    var key := StrSetToString(q.tables);
    best := plans[key].plan;
  }

  lemma SubsetSize(a: set<Name>, b: set<Name>)
    requires a <= b
    ensures |a| <= |b|
  {
    assert b == a + (b - a);
  }

  lemma ScansSolveOne<P>(q: Query<P>, scans: map<Key, CostAndPlan<P>>)
    requires IsQuery(q) && ScansOk(q, scans)
    ensures Solved(q, scans, scans, 1)
  {
    forall a, b | Splits(q, a, b) ensures |a| + |b| > 1 {}
  }
}
