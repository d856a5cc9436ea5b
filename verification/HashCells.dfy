/** The cells of a linear-probe hash table: cyclic positions, reachability, the values stored. */
module HashCells {

  const BLOCK_ARRAY_SIZE := 252

  /** A cell is free, live (occupied and readable) or a tombstone (occupied only). */
  datatype Cell = Cell(occupied: bool, readable: bool, key: nat, value: nat)

  predicate Live(c: Cell) { c.occupied && c.readable }

  // ---- cyclic positions ----

  /** The position `d` steps behind `home` on a ring of `n`. */
  function At(home: nat, d: nat, n: nat): (p: nat)
    requires home < n && d < n
    ensures p < n
  {
    if home + d < n then home + d else home + d - n
  }

  /** The ring is the arithmetic modulo its length. */
  lemma {:induction false} AtIsCyclic(home: nat, d: nat, n: nat)
    requires home < n && d < n
    ensures At(home, d, n) == (home + d) % n
  {
    var x := home + d;
    if x >= n {
      assert x == n * 1 + (x - n);
      QuotientIs(x, n, 1, x - n);
    } else {
      QuotientIs(x, n, 0, x);
    }
  }

  lemma {:induction false} QuotientIs(x: nat, n: nat, q: nat, r: nat)
    requires r < n && x == n * q + r
    ensures x % n == r
  {
    var d := x / n - q;
    assert n * (x / n) + x % n == x;
    assert n * d == r - x % n;
  }

  /** How many steps lead from `home` to `p`. */
  function Dist(home: nat, p: nat, n: nat): (d: nat)
    requires home < n && p < n
    ensures d < n && At(home, d, n) == p
  {
    if p >= home then p - home else p + n - home
  }

  /** Block and place in the block are chosen independently. */
  function Home(key: nat, blocks: nat): (h: nat)
    requires blocks > 0
    ensures h < blocks * BLOCK_ARRAY_SIZE
  {
    HomeBelow(key % blocks, key % BLOCK_ARRAY_SIZE, blocks);
    key % blocks * BLOCK_ARRAY_SIZE + key % BLOCK_ARRAY_SIZE
  }

  lemma HomeOf(key: nat, blocks: nat)
    requires blocks > 0
    ensures Home(key, blocks) == key % blocks * BLOCK_ARRAY_SIZE + key % BLOCK_ARRAY_SIZE
  {
  }

  lemma {:induction false} HomeBelow(bucket: nat, offset: nat, blocks: nat)
    requires bucket < blocks && offset < BLOCK_ARRAY_SIZE
    ensures bucket * BLOCK_ARRAY_SIZE + offset < blocks * BLOCK_ARRAY_SIZE
  {
  }

  // ---- the invariant ----

  /** From its home to where it lies, an entry is preceded by occupied cells only. */
  ghost predicate Reachable(cells: seq<Cell>, blocks: nat)
    requires blocks > 0 && |cells| == blocks * BLOCK_ARRAY_SIZE
  {
    forall p, d :: 0 <= p < |cells| && Live(cells[p]) && 0 <= d <= Dist(Home(cells[p].key, blocks), p, |cells|) ==>
      cells[At(Home(cells[p].key, blocks), d, |cells|)].occupied
  }

  // ---- what the table holds ----

  function LiveValues(cells: seq<Cell>, key: nat, i: nat, j: nat): multiset<nat>
    requires i <= j <= |cells|
    decreases j - i
  {
    if i == j then multiset{} else LiveValues(cells, key, i, j - 1) + ValueIn(cells[j - 1], key)
  }

  function ValueIn(c: Cell, key: nat): multiset<nat> {
    if Live(c) && c.key == key then multiset{c.value} else multiset{}
  }

  /** The values stored under `key`. */
  function Values(cells: seq<Cell>, key: nat): multiset<nat> {
    LiveValues(cells, key, 0, |cells|)
  }

  lemma {:induction false} LiveValuesSplit(cells: seq<Cell>, key: nat, i: nat, m: nat, j: nat)
    requires i <= m <= j <= |cells|
    ensures LiveValues(cells, key, i, j) == LiveValues(cells, key, i, m) + LiveValues(cells, key, m, j)
    decreases j
  {
    if m < j { LiveValuesSplit(cells, key, i, m, j - 1); }
  }

  lemma {:induction false} NoLiveValues(cells: seq<Cell>, key: nat, i: nat, j: nat)
    requires i <= j <= |cells| && forall p :: i <= p < j ==> !(Live(cells[p]) && cells[p].key == key)
    ensures LiveValues(cells, key, i, j) == multiset{}
    decreases j
  {
    if i < j { NoLiveValues(cells, key, i, j - 1); }
  }

  lemma {:induction false} LiveValuesFrame(cells: seq<Cell>, cells': seq<Cell>, key: nat, i: nat, j: nat)
    requires i <= j <= |cells| == |cells'|
    requires forall p :: i <= p < j ==>
               (Live(cells'[p]) && cells'[p].key == key <==> Live(cells[p]) && cells[p].key == key) &&
               (Live(cells[p]) && cells[p].key == key ==> cells'[p].value == cells[p].value)
    ensures LiveValues(cells', key, i, j) == LiveValues(cells, key, i, j)
    decreases j
  {
    if i < j { LiveValuesFrame(cells, cells', key, i, j - 1); }
  }

  /** What the first `d` probes from `home` see. */
  ghost function Probed(cells: seq<Cell>, key: nat, home: nat, d: nat): multiset<nat>
    requires home < |cells| && d <= |cells|
  {
    if home + d <= |cells| then LiveValues(cells, key, home, home + d)
    else LiveValues(cells, key, home, |cells|) + LiveValues(cells, key, 0, home + d - |cells|)
  }

  lemma {:induction false} ProbedNext(cells: seq<Cell>, key: nat, home: nat, d: nat)
    requires home < |cells| && d < |cells|
    ensures var c := cells[At(home, d, |cells|)];
            Probed(cells, key, home, d + 1) ==
            Probed(cells, key, home, d) + ValueIn(c, key)
  {
  }

  /** Once the probe has gone round, or has met a free cell, it has seen all values of the key. */
  lemma {:induction false} ProbedAll(cells: seq<Cell>, blocks: nat, key: nat, d: nat)
    requires blocks > 0 && |cells| == blocks * BLOCK_ARRAY_SIZE && Reachable(cells, blocks)
    requires d <= |cells| && (d == |cells| || !cells[At(Home(key, blocks), d, |cells|)].occupied)
    ensures Probed(cells, key, Home(key, blocks), d) == Values(cells, key)
  {
    var home, n := Home(key, blocks), |cells|;
    forall p | 0 <= p < n && d <= Dist(home, p, n) ensures !(Live(cells[p]) && cells[p].key == key) {
      NoneBeyond(cells, blocks, key, d, p);
    }
    SeenInTwoParts(cells, key, home, d);
  }

  lemma {:induction false} NoneBeyond(cells: seq<Cell>, blocks: nat, key: nat, d: nat, p: nat)
    requires blocks > 0 && |cells| == blocks * BLOCK_ARRAY_SIZE && Reachable(cells, blocks)
    requires d <= |cells| && (d == |cells| || !cells[At(Home(key, blocks), d, |cells|)].occupied)
    requires p < |cells| && d <= Dist(Home(key, blocks), p, |cells|)
    ensures !(Live(cells[p]) && cells[p].key == key)
  {
  }

  lemma {:induction false} SeenInTwoParts(cells: seq<Cell>, key: nat, home: nat, d: nat)
    requires home < |cells| && d <= |cells|
    requires forall p :: 0 <= p < |cells| && d <= (if p >= home then p - home else p + |cells| - home) ==>
               !(Live(cells[p]) && cells[p].key == key)
    ensures Probed(cells, key, home, d) == Values(cells, key)
  {
    if home + d <= |cells| { SeenInOnePart(cells, key, home, d); } else { SeenAroundTheEnd(cells, key, home, d); }
  }

  lemma {:induction false} SeenInOnePart(cells: seq<Cell>, key: nat, home: nat, d: nat)
    requires home < |cells| && home + d <= |cells|
    requires forall p :: 0 <= p < |cells| && d <= (if p >= home then p - home else p + |cells| - home) ==>
               !(Live(cells[p]) && cells[p].key == key)
    ensures LiveValues(cells, key, home, home + d) == Values(cells, key)
  {
    OnlyMiddle(cells, key, home, home + d);
  }

  lemma {:induction false} OnlyMiddle(cells: seq<Cell>, key: nat, i: nat, j: nat)
    requires i <= j <= |cells|
    requires forall p :: 0 <= p < i || j <= p < |cells| ==> !(Live(cells[p]) && cells[p].key == key)
    ensures LiveValues(cells, key, i, j) == Values(cells, key)
  {
    LiveValuesSplit(cells, key, 0, i, |cells|);
    LiveValuesSplit(cells, key, i, j, |cells|);
    NoLiveValues(cells, key, j, |cells|);
    NoLiveValues(cells, key, 0, i);
  }

  lemma {:induction false} SeenAroundTheEnd(cells: seq<Cell>, key: nat, home: nat, d: nat)
    requires home < |cells| < home + d && d <= |cells|
    requires forall p :: 0 <= p < |cells| && d <= (if p >= home then p - home else p + |cells| - home) ==>
               !(Live(cells[p]) && cells[p].key == key)
    ensures LiveValues(cells, key, home, |cells|) + LiveValues(cells, key, 0, home + d - |cells|) == Values(cells, key)
  {
    LiveValuesSplit(cells, key, 0, home, |cells|);
    LiveValuesSplit(cells, key, 0, home + d - |cells|, home);
    NoLiveValues(cells, key, home + d - |cells|, home);
  }

  // ---- the effect of each operation ----

  /** A live entry written to a cell that was free or a tombstone, all cells between home and it
    * being occupied. */
  lemma {:induction false} PutKeepsReachable(cells: seq<Cell>, blocks: nat, key: nat, value: nat, d: nat)
    requires blocks > 0 && |cells| == blocks * BLOCK_ARRAY_SIZE && Reachable(cells, blocks) && d < |cells|
    requires forall e :: 0 <= e < d ==> cells[At(Home(key, blocks), e, |cells|)].occupied
    ensures Reachable(cells[At(Home(key, blocks), d, |cells|) := Cell(true, true, key, value)], blocks)
  {
  }

  lemma {:induction false} PutAddsValue(cells: seq<Cell>, p: nat, key: nat, value: nat, k: nat)
    requires p < |cells| && !Live(cells[p])
    ensures Values(cells[p := Cell(true, true, key, value)], k) ==
            Values(cells, k) + (if k == key then multiset{value} else multiset{})
  {
    var cells' := cells[p := Cell(true, true, key, value)];
    LiveValuesFrame(cells, cells', k, 0, p);
    LiveValuesFrame(cells, cells', k, p + 1, |cells|);
    LiveValuesSplit(cells, k, 0, p, |cells|);
    LiveValuesSplit(cells, k, p, p + 1, |cells|);
    LiveValuesSplit(cells', k, 0, p, |cells|);
    LiveValuesSplit(cells', k, p, p + 1, |cells|);
    assert LiveValues(cells, k, p, p) == multiset{} == LiveValues(cells', k, p, p);
  }

  predicate Matches(c: Cell, key: nat, value: nat) { c.occupied && c.key == key && c.value == value }

  /** Every entry equal to the pair becomes a tombstone. */
  ghost predicate Cleared(cells: seq<Cell>, cells': seq<Cell>, key: nat, value: nat) {
    && |cells'| == |cells|
    && forall p :: 0 <= p < |cells| ==>
         cells'[p] == if Live(cells[p]) && Matches(cells[p], key, value) then cells[p].(readable := false) else cells[p]
  }

  lemma {:induction false} ClearedKeepsReachable(cells: seq<Cell>, cells': seq<Cell>, blocks: nat, key: nat, value: nat)
    requires blocks > 0 && |cells| == blocks * BLOCK_ARRAY_SIZE && Reachable(cells, blocks) && Cleared(cells, cells', key, value)
    ensures Reachable(cells', blocks)
  {
  }

  lemma {:induction false} ClearedValues(cells: seq<Cell>, cells': seq<Cell>, key: nat, value: nat, k: nat, i: nat)
    requires Cleared(cells, cells', key, value) && i <= |cells|
    ensures LiveValues(cells', k, 0, i) ==
            if k == key then LiveValues(cells, k, 0, i)[value := 0] else LiveValues(cells, k, 0, i)
  {
    if i > 0 {
      ClearedValues(cells, cells', key, value, k, i - 1);
      ClearedCell(cells[i - 1], cells'[i - 1], key, value, k);
      WithoutAdded(LiveValues(cells, k, 0, i - 1), ValueIn(cells[i - 1], k), value);
    }
  }

  lemma {:induction false} ClearedCell(c: Cell, c': Cell, key: nat, value: nat, k: nat)
    requires c' == if Live(c) && Matches(c, key, value) then c.(readable := false) else c
    ensures ValueIn(c', k) == if k == key then ValueIn(c, k)[value := 0] else ValueIn(c, k)
  {
  }

  lemma {:induction false} WithoutAdded(m: multiset<nat>, more: multiset<nat>, value: nat)
    ensures (m + more)[value := 0] == m[value := 0] + more[value := 0]
  {
  }

  /** The cells less than `d` steps behind `home` have been dealt with. */
  ghost predicate ClearedBelow(cells: seq<Cell>, cells': seq<Cell>, key: nat, value: nat, home: nat, d: nat)
    requires home < |cells|
  {
    && |cells'| == |cells|
    && forall p :: 0 <= p < |cells| ==>
         cells'[p] == if Dist(home, p, |cells|) < d && Live(cells[p]) && Matches(cells[p], key, value)
                      then cells[p].(readable := false) else cells[p]
  }

  /** One more cell dealt with; the cell itself is as it was. */
  lemma {:induction false} ClearedNext(cells: seq<Cell>, cells': seq<Cell>, key: nat, value: nat, home: nat, d: nat)
    requires home < |cells| && d < |cells| && ClearedBelow(cells, cells', key, value, home, d)
    ensures var p := At(home, d, |cells|);
            && cells'[p] == cells[p]
            && ClearedBelow(cells, if Live(cells[p]) && Matches(cells[p], key, value)
                                   then cells'[p := cells[p].(readable := false)] else cells', key, value, home, d + 1)
  {
    var p := At(home, d, |cells|);
    assert Dist(home, p, |cells|) == d;
    forall q | 0 <= q < |cells| && Dist(home, q, |cells|) == d ensures q == p {
      assert q == At(home, Dist(home, q, |cells|), |cells|);
    }
  }

  lemma {:induction false} ClearedAll(cells: seq<Cell>, cells': seq<Cell>, blocks: nat, key: nat, value: nat, d: nat)
    requires blocks > 0 && |cells| == blocks * BLOCK_ARRAY_SIZE && Reachable(cells, blocks)
    requires ClearedBelow(cells, cells', key, value, Home(key, blocks), d)
    requires d <= |cells| && (d == |cells| || !cells'[At(Home(key, blocks), d, |cells|)].occupied)
    ensures Cleared(cells, cells', key, value)
  {
    forall p | 0 <= p < |cells| && Dist(Home(key, blocks), p, |cells|) >= d
      ensures !(Live(cells[p]) && cells[p].key == key)
    {
      NoneBeyond(cells, blocks, key, d, p);
    }
  }

  // ---- the table ----

  /** The value of an occupied cell, if it is readable and has the key. */
  function FoundIn(c: Cell, key: nat): (r: seq<nat>)
    ensures c.occupied ==> multiset(r) == ValueIn(c, key)
  {
    if c.readable && c.key == key then [c.value] else []
  }

  /** The values of the key among the first `d` cells from `start`, in the order met. */
  function Met(cells: seq<Cell>, key: nat, start: nat, d: nat): seq<nat>
    requires start < |cells| && d <= |cells|
  {
    if d == 0 then [] else Met(cells, key, start, d - 1) + FoundIn(cells[At(start, d - 1, |cells|)], key)
  }

  ghost predicate OccupiedUpTo(cells: seq<Cell>, start: nat, d: nat)
    requires start < |cells| && d <= |cells|
  {
    forall e :: 0 <= e < d ==> cells[At(start, e, |cells|)].occupied
  }

  /** One occupied cell more has been passed. */
  lemma {:induction false} PassesOne(cells: seq<Cell>, key: nat, start: nat, d: nat)
    requires start < |cells| && d < |cells| && OccupiedUpTo(cells, start, d) && cells[At(start, d, |cells|)].occupied
    ensures OccupiedUpTo(cells, start, d + 1)
    ensures Met(cells, key, start, d + 1) == Met(cells, key, start, d) + FoundIn(cells[At(start, d, |cells|)], key)
  {
  }

  /** Probing from `start` passes `d` occupied cells and then stops, at a cell never used or after a round. */
  ghost predicate StopsAfter(cells: seq<Cell>, start: nat, d: nat) {
    && start < |cells| && d <= |cells| && OccupiedUpTo(cells, start, d)
    && (d < |cells| ==> !cells[At(start, d, |cells|)].occupied)
  }

  lemma {:induction false} MetNext(cells: seq<Cell>, key: nat, start: nat, d: nat, result: seq<nat>)
    requires start < |cells| && d < |cells| && cells[At(start, d, |cells|)].occupied
    requires multiset(result) == Probed(cells, key, start, d)
    ensures multiset(result + FoundIn(cells[At(start, d, |cells|)], key)) == Probed(cells, key, start, d + 1)
  {
    ProbedNext(cells, key, start, d);
  }

  ghost predicate HasLive(cells: seq<Cell>, value: nat) {
    exists p :: 0 <= p < |cells| && Live(cells[p]) && cells[p].value == value
  }

  ghost predicate AllLive(cells: seq<Cell>) {
    forall p :: 0 <= p < |cells| ==> Live(cells[p])
  }

  lemma RoundIsAll(cells: seq<Cell>, home: nat, d: nat)
    requires home < |cells| == d && forall e :: 0 <= e < d ==> Live(cells[At(home, e, |cells|)])
    ensures AllLive(cells)
  {
    forall p | 0 <= p < |cells| ensures Live(cells[p]) { assert p == At(home, Dist(home, p, |cells|), |cells|); }
  }
}
