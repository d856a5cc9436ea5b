/** The two lock tables, and what each request does to them.  Locking never
  * waits: a request is granted at once or refused. */
module LockTable {

  datatype RID = RID(page: int, slot: nat)
  type TxnId = int

  datatype Tables = Tables(shared: map<RID, seq<TxnId>>, exclusive: map<RID, TxnId>)
  /** The lock lists a transaction keeps for itself. */
  datatype Held = Held(shared: seq<RID>, exclusive: seq<RID>)
  datatype Grant = Grant(ok: bool, tables: Tables, held: Held)

  function SharedHolders(tb: Tables, rid: RID): seq<TxnId> {
    if rid in tb.shared then tb.shared[rid] else []
  }

  function GrantShared(tb: Tables, held: Held, t: TxnId, rid: RID): Grant {
    if rid in tb.exclusive then
      Grant(tb.exclusive[rid] == t, tb, held)
    else if t in SharedHolders(tb, rid) then
      Grant(true, tb, held)
    else
      Grant(true,
            tb.(shared := tb.shared[rid := SharedHolders(tb, rid) + [t]]),
            held.(shared := held.shared + [rid]))
  }

  function GrantExclusive(tb: Tables, held: Held, t: TxnId, rid: RID): Grant {
    if rid in tb.exclusive then
      Grant(tb.exclusive[rid] == t, tb, held)
    else if SharedHolders(tb, rid) != [] && SharedHolders(tb, rid) != [t] then
      Grant(false, tb, held)
    else
      TakeExclusive(tb, held, t, rid)
  }

  function TakeExclusive(tb: Tables, held: Held, t: TxnId, rid: RID): Grant {
    Grant(true,
          tb.(exclusive := tb.exclusive[rid := t]),
          held.(exclusive := held.exclusive + [rid]))
  }

  /** Only the number of shared holders is looked at, not who they are. */
  function GrantUpgrade(tb: Tables, held: Held, t: TxnId, rid: RID): Grant {
    if rid in tb.exclusive then
      Grant(tb.exclusive[rid] == t, tb, held)
    else if |SharedHolders(tb, rid)| != 1 then
      Grant(false, tb, held)
    else
      TakeExclusive(tb, held, t, rid)
  }

  /** What the page writers do before touching a tuple. */
  function GrantWrite(tb: Tables, held: Held, t: TxnId, rid: RID): Grant {
    if rid in held.shared then GrantUpgrade(tb, held, t, rid)
    else if rid in held.exclusive then Grant(true, tb, held)
    else GrantExclusive(tb, held, t, rid)
  }

  /** What the page reader does before touching a tuple. */
  function GrantRead(tb: Tables, held: Held, t: TxnId, rid: RID): Grant {
    if rid in held.shared || rid in held.exclusive then Grant(true, tb, held)
    else GrantShared(tb, held, t, rid)
  }

  /** First occurrence of `t` dropped. */
  function DropFirst(ts: seq<TxnId>, t: TxnId): seq<TxnId> {
    if ts == [] then []
    else if ts[0] == t then ts[1..]
    else [ts[0]] + DropFirst(ts[1..], t)
  }

  function ReleaseOne(tb: Tables, t: TxnId, rid: RID): Tables {
    Tables(if rid in tb.shared && t in tb.shared[rid]
           then tb.shared[rid := DropFirst(tb.shared[rid], t)] else tb.shared,
           if rid in tb.exclusive && tb.exclusive[rid] == t
           then tb.exclusive - {rid} else tb.exclusive)
  }

  function Release(tb: Tables, t: TxnId, rids: seq<RID>): Tables {
    if rids == [] then tb else ReleaseOne(Release(tb, t, rids[..|rids| - 1]), t, rids[|rids| - 1])
  }

  // ---- the invariant every request keeps ----

  predicate NoDup(ts: seq<TxnId>) {
    forall i, j :: 0 <= i < j < |ts| ==> ts[i] != ts[j]
  }

  predicate HoldsShared(tb: Tables, rid: RID, u: TxnId) {
    u in SharedHolders(tb, rid)
  }

  predicate HoldsExclusive(tb: Tables, rid: RID, u: TxnId) {
    rid in tb.exclusive && tb.exclusive[rid] == u
  }

  /** The table entry, as a holder. */
  lemma EntryHolds(tb: Tables, rid: RID)
    ensures rid in tb.exclusive ==> HoldsExclusive(tb, rid, tb.exclusive[rid])
  {
  }

  /** An exclusive holder is the only possible shared holder, and nobody is listed twice. */
  ghost predicate Exclusion(tb: Tables) {
    && (forall rid, u, w :: HoldsExclusive(tb, rid, u) && HoldsShared(tb, rid, w) ==> u == w)
    && (forall rid :: NoDup(SharedHolders(tb, rid)))
  }

  /** The transaction's own lists say exactly which table entries are its. */
  ghost predicate Agrees(tb: Tables, held: Held, t: TxnId) {
    && (forall rid :: rid in held.shared <==> HoldsShared(tb, rid, t))
    && (forall rid :: rid in held.exclusive <==> HoldsExclusive(tb, rid, t))
  }

  /** A request by `t` leaves everybody else's entries alone. */
  ghost predicate OthersKept(tb: Tables, tb': Tables, t: TxnId) {
    && (forall rid, u :: u != t ==> (HoldsShared(tb, rid, u) <==> HoldsShared(tb', rid, u)))
    && (forall rid, u :: u != t ==> (HoldsExclusive(tb, rid, u) <==> HoldsExclusive(tb', rid, u)))
  }

  ghost predicate CanRead(held: Held, rid: RID) {
    rid in held.shared || rid in held.exclusive
  }

  ghost predicate HeldByOther(tb: Tables, t: TxnId, rid: RID) {
    exists u :: u != t && (HoldsExclusive(tb, rid, u) || HoldsShared(tb, rid, u))
  }

  ghost predicate ReadGrantOk(tb: Tables, held: Held, t: TxnId, rid: RID, g: Grant) {
    && Exclusion(g.tables) && Agrees(g.tables, g.held, t) && OthersKept(tb, g.tables, t)
    && g.held.exclusive == held.exclusive && g.tables.exclusive == tb.exclusive
    && (forall r :: r in g.held.shared ==> r in held.shared || r == rid)
    && (forall r :: r in held.shared ==> r in g.held.shared)
    && (g.ok ==> CanRead(g.held, rid))
    && (!g.ok ==> g.tables == tb && g.held == held)
  }

  ghost predicate WriteGrantOk(tb: Tables, held: Held, t: TxnId, rid: RID, g: Grant) {
    && Exclusion(g.tables) && Agrees(g.tables, g.held, t) && OthersKept(tb, g.tables, t)
    && g.held.shared == held.shared && g.tables.shared == tb.shared
    && (g.ok ==> rid in g.held.exclusive)
    && (forall r :: r in g.held.exclusive <==> r in held.exclusive || (g.ok && r == rid))
    && (!g.ok ==> g.tables == tb && g.held == held)
  }

  /** A read lock is refused exactly when another transaction holds the RID exclusively. */
  lemma GrantReadSound(tb: Tables, held: Held, t: TxnId, rid: RID)
    requires Exclusion(tb) && Agrees(tb, held, t)
    ensures var g := GrantRead(tb, held, t, rid);
            && ReadGrantOk(tb, held, t, rid, g)
            && (!g.ok <==> exists u :: u != t && HoldsExclusive(tb, rid, u))
  {
    var g := GrantRead(tb, held, t, rid);
    if rid in tb.exclusive { assert HoldsExclusive(tb, rid, tb.exclusive[rid]); }
    assert rid in held.shared <==> HoldsShared(tb, rid, t);
    if g.tables != tb {
      var was := SharedHolders(tb, rid);
      assert NoDup(was + [t]) by { assert NoDup(was); assert !HoldsShared(tb, rid, t); }
      assert forall r :: SharedHolders(g.tables, r) == if r == rid then was + [t] else SharedHolders(tb, r);
      forall r, u ensures HoldsShared(g.tables, r, u) <==> HoldsShared(tb, r, u) || (r == rid && u == t) {
        assert u in was + [t] <==> u in was || u == t;
      }
      assert forall r, u :: HoldsExclusive(g.tables, r, u) <==> HoldsExclusive(tb, r, u);
    }
  }

  /** Taking the exclusive entry is sound when nobody else is on the RID. */
  lemma TakeExclusiveSound(tb: Tables, held: Held, t: TxnId, rid: RID)
    requires Exclusion(tb) && Agrees(tb, held, t)
    requires rid !in tb.exclusive && !HeldByOther(tb, t, rid)
    ensures WriteGrantOk(tb, held, t, rid, TakeExclusive(tb, held, t, rid))
  {
    var g := TakeExclusive(tb, held, t, rid);
    assert forall r :: SharedHolders(g.tables, r) == SharedHolders(tb, r);
    assert forall r, u :: HoldsShared(g.tables, r, u) <==> HoldsShared(tb, r, u);
    assert forall r, u :: HoldsExclusive(g.tables, r, u) <==> HoldsExclusive(tb, r, u) || (r == rid && u == t);
    assert !HoldsExclusive(tb, rid, t);
  }

  /** Who is on a RID, read off the shared list: the tests the manager makes are exact. */
  lemma LoneHolder(tb: Tables, t: TxnId, rid: RID)
    requires Exclusion(tb) && rid !in tb.exclusive
    ensures HeldByOther(tb, t, rid) <==> !(SharedHolders(tb, rid) == [] || SharedHolders(tb, rid) == [t])
  {
    var was := SharedHolders(tb, rid);
    if was != [] && was != [t] {
      if |was| == 1 {
        assert HoldsShared(tb, rid, was[0]) && was[0] != t;
      } else {
        assert NoDup(was);
        assert was[0] != was[1];
        assert HoldsShared(tb, rid, was[0]) && HoldsShared(tb, rid, was[1]);
      }
    } else {
      assert forall u :: HoldsShared(tb, rid, u) ==> u == t;
    }
  }

  lemma GrantExclusiveSound(tb: Tables, held: Held, t: TxnId, rid: RID)
    requires Exclusion(tb) && Agrees(tb, held, t)
    ensures var g := GrantExclusive(tb, held, t, rid);
            && WriteGrantOk(tb, held, t, rid, g)
            && (!g.ok <==> HeldByOther(tb, t, rid))
  {
    if rid in tb.exclusive {
      assert HoldsExclusive(tb, rid, tb.exclusive[rid]);
      assert held.exclusive == held.exclusive && (rid in held.exclusive <==> HoldsExclusive(tb, rid, t));
    } else {
      LoneHolder(tb, t, rid);
      if !HeldByOther(tb, t, rid) { TakeExclusiveSound(tb, held, t, rid); }
    }
  }

  /** A write lock is refused exactly when some other transaction holds any lock on the RID;
    * in particular counting the shared holders is enough to decide an upgrade. */
  lemma GrantWriteSound(tb: Tables, held: Held, t: TxnId, rid: RID)
    requires Exclusion(tb) && Agrees(tb, held, t)
    ensures var g := GrantWrite(tb, held, t, rid);
            && WriteGrantOk(tb, held, t, rid, g)
            && (!g.ok <==> HeldByOther(tb, t, rid))
  {
    assert rid in held.shared <==> HoldsShared(tb, rid, t);
    assert rid in held.exclusive <==> HoldsExclusive(tb, rid, t);
    if rid in tb.exclusive {
      assert HoldsExclusive(tb, rid, tb.exclusive[rid]);
    } else {
      LoneHolder(tb, t, rid);
      var was := SharedHolders(tb, rid);
      if rid in held.shared && |was| == 1 { assert t in was; assert was == [t]; }
      if !HeldByOther(tb, t, rid) { TakeExclusiveSound(tb, held, t, rid); }
    }
  }

  lemma {:induction false} WithoutMembers(ts: seq<TxnId>, t: TxnId)
    requires NoDup(ts)
    ensures NoDup(DropFirst(ts, t))
    ensures forall u :: u in DropFirst(ts, t) <==> u in ts && u != t
  {
    if ts != [] {
      assert ts == [ts[0]] + ts[1..];
      assert ts[0] !in ts[1..];
      if ts[0] != t { WithoutMembers(ts[1..], t); }
    }
  }

  lemma {:induction false} ReleaseOneSound(tb: Tables, t: TxnId, rid: RID)
    requires Exclusion(tb)
    ensures var tb' := ReleaseOne(tb, t, rid);
            && Exclusion(tb') && OthersKept(tb, tb', t)
            && (forall r :: HoldsShared(tb', r, t) <==> HoldsShared(tb, r, t) && r != rid)
            && (forall r :: HoldsExclusive(tb', r, t) <==> HoldsExclusive(tb, r, t) && r != rid)
  {
    var tb' := ReleaseOne(tb, t, rid);
    assert NoDup(SharedHolders(tb, rid));
    WithoutMembers(SharedHolders(tb, rid), t);
    assert forall r :: r != rid ==> SharedHolders(tb', r) == SharedHolders(tb, r);
    assert forall r, u :: HoldsShared(tb', r, u) <==> HoldsShared(tb, r, u) && !(r == rid && u == t);
    assert forall r, u :: HoldsExclusive(tb', r, u) <==> HoldsExclusive(tb, r, u) && !(r == rid && u == t);
  }

  lemma {:induction false} ReleaseSound(tb: Tables, t: TxnId, rids: seq<RID>)
    requires Exclusion(tb)
    ensures var tb' := Release(tb, t, rids);
            && Exclusion(tb') && OthersKept(tb, tb', t)
            && (forall r :: HoldsShared(tb', r, t) <==> HoldsShared(tb, r, t) && r !in rids)
            && (forall r :: HoldsExclusive(tb', r, t) <==> HoldsExclusive(tb, r, t) && r !in rids)
  {
    if rids != [] {
      var n := |rids| - 1;
      ReleaseSound(tb, t, rids[..n]);
      ReleaseOneSound(Release(tb, t, rids[..n]), t, rids[n]);
      assert forall r :: r in rids <==> r in rids[..n] || r == rids[n];
    }
  }

  /** Releasing both lock lists leaves the transaction with no entry in either table. */
  lemma ReleaseAllLeavesNothing(tb: Tables, held: Held, t: TxnId)
    requires Exclusion(tb) && Agrees(tb, held, t)
    ensures var tb' := Release(tb, t, held.exclusive + held.shared);
            && Exclusion(tb') && OthersKept(tb, tb', t)
            && (forall r :: !HoldsShared(tb', r, t) && !HoldsExclusive(tb', r, t))
  {
    ReleaseSound(tb, t, held.exclusive + held.shared);
  }
}

/** The lock manager and the lock lists of a transaction as mutable objects. */
module LockManager {
  import opened LockTable

  class Transaction {
    const txnId: TxnId
    var sharedLockSet: seq<RID>
    var exclusiveLockSet: seq<RID>
    var aborted: bool

    ghost function Locks(): Held
      reads this
    {
      Held(sharedLockSet, exclusiveLockSet)
    }

    constructor (t: TxnId)
      ensures txnId == t && Locks() == Held([], []) && !aborted
    {
      txnId := t;
      sharedLockSet, exclusiveLockSet, aborted := [], [], false;
    }

    method IsSharedLocked(rid: RID) returns (r: bool)
      ensures r <==> rid in Locks().shared
    {
      r := ContainsRID(sharedLockSet, rid);
    }

    method IsExclusiveLocked(rid: RID) returns (r: bool)
      ensures r <==> rid in Locks().exclusive
    {
      r := ContainsRID(exclusiveLockSet, rid);
    }
  }

  method ContainsRID(list: seq<RID>, rid: RID) returns (found: bool)
    ensures found <==> rid in list
  {
    for i := 0 to |list|
      invariant rid !in list[..i]
    {
      if list[i] == rid { return true; }
    }
    return false;
  }

  method ContainsTxnID(list: seq<TxnId>, t: TxnId) returns (found: bool)
    ensures found <==> t in list
  {
    for i := 0 to |list|
      invariant t !in list[..i]
    {
      if list[i] == t { return true; }
    }
    return false;
  }

  lemma {:induction false} WithoutAbsent(list: seq<TxnId>, t: TxnId)
    requires t !in list
    ensures DropFirst(list, t) == list
  {
    if list != [] { WithoutAbsent(list[1..], t); }
  }

  lemma {:induction false} WithoutAtIndex(list: seq<TxnId>, i: nat)
    requires i < |list| && list[i] !in list[..i]
    ensures DropFirst(list, list[i]) == list[..i] + list[i + 1..]
  {
    if i > 0 {
      var rest := list[1..];
      assert rest[..i - 1] == list[1..i];
      assert list[0] == list[..i][0];
      WithoutAtIndex(rest, i - 1);
      assert list[..i] + list[i + 1..] == [list[0]] + (rest[..i - 1] + rest[i..]);
    } else {
      assert list[..0] + list[1..] == list[1..];
    }
  }

  method RemoveTxnID(list: seq<TxnId>, t: TxnId) returns (r: seq<TxnId>)
    ensures r == DropFirst(list, t)
  {
    r := list;
    for i := 0 to |list|
      invariant t !in list[..i] && r == list
    {
      if list[i] == t {
        WithoutAtIndex(list, i);
        return list[..i] + list[i + 1..];
      }
    }
    WithoutAbsent(list, t);
  }

  class LockManager {
    var sharedLockTable: map<RID, seq<TxnId>>
    var exclusiveLockTable: map<RID, TxnId>

    ghost function State(): Tables
      reads this
    {
      Tables(sharedLockTable, exclusiveLockTable)
    }

    constructor ()
      ensures State() == Tables(map[], map[]) && Exclusion(State())
    {
      sharedLockTable, exclusiveLockTable := map[], map[];
    }

    method LockShared(txn: Transaction, rid: RID) returns (ok: bool)
      modifies this`sharedLockTable, txn`sharedLockSet
      ensures Grant(ok, State(), txn.Locks()) == old(GrantShared(State(), txn.Locks(), txn.txnId, rid))
    {
      if rid in exclusiveLockTable {
        return exclusiveLockTable[rid] == txn.txnId;
      }
      if rid in sharedLockTable {
        var present := ContainsTxnID(sharedLockTable[rid], txn.txnId);
        if present { return true; }
        sharedLockTable := sharedLockTable[rid := sharedLockTable[rid] + [txn.txnId]];
      } else {
        sharedLockTable := sharedLockTable[rid := [txn.txnId]];
        assert [txn.txnId] == [] + [txn.txnId];
      }
      txn.sharedLockSet := txn.sharedLockSet + [rid];
      return true;
    }

    method LockExclusive(txn: Transaction, rid: RID) returns (ok: bool)
      modifies this`exclusiveLockTable, txn`exclusiveLockSet
      ensures Grant(ok, State(), txn.Locks()) == old(GrantExclusive(State(), txn.Locks(), txn.txnId, rid))
    {
      if rid in exclusiveLockTable {
        return exclusiveLockTable[rid] == txn.txnId;
      }
      if rid in sharedLockTable {
        var arr := sharedLockTable[rid];
        if !(|arr| == 0 || (|arr| == 1 && arr[0] == txn.txnId)) { return false; }
      }
      exclusiveLockTable := exclusiveLockTable[rid := txn.txnId];
      txn.exclusiveLockSet := txn.exclusiveLockSet + [rid];
      return true;
    }

    /** The source panics when the RID is not share-locked by the caller. */
    method LockUpgrade(txn: Transaction, rid: RID) returns (ok: bool)
      requires rid in txn.Locks().shared
      modifies this`exclusiveLockTable, txn`exclusiveLockSet
      ensures Grant(ok, State(), txn.Locks()) == old(GrantUpgrade(State(), txn.Locks(), txn.txnId, rid))
    {
      if rid in exclusiveLockTable {
        return exclusiveLockTable[rid] == txn.txnId;
      }
      var txnIds := if rid in sharedLockTable then sharedLockTable[rid] else [];
      if |txnIds| != 1 { return false; }
      exclusiveLockTable := exclusiveLockTable[rid := txn.txnId];
      txn.exclusiveLockSet := txn.exclusiveLockSet + [rid];
      return true;
    }

    method Unlock(txn: Transaction, rids: seq<RID>)
      modifies this
      ensures State() == Release(old(State()), txn.txnId, rids)
    {
      ghost var was := State();
      for i := 0 to |rids|
        invariant State() == Release(was, txn.txnId, rids[..i])
      {
        var rid := rids[i];
        assert rids[..i + 1][..i] == rids[..i];
        if rid in exclusiveLockTable && exclusiveLockTable[rid] == txn.txnId {
          exclusiveLockTable := exclusiveLockTable - {rid};
        }
        if rid in sharedLockTable {
          var present := ContainsTxnID(sharedLockTable[rid], txn.txnId);
          if present {
            var rest := RemoveTxnID(sharedLockTable[rid], txn.txnId);
            sharedLockTable := sharedLockTable[rid := rest];
          }
        }
      }
      assert rids[..|rids|] == rids;
    }

    /** The lock step of the page writers: upgrade a shared lock, keep an exclusive one, or ask for it. */
    method LockForWrite(txn: Transaction, rid: RID) returns (ok: bool)
      modifies this`exclusiveLockTable, txn`exclusiveLockSet
      ensures Grant(ok, State(), txn.Locks()) == old(GrantWrite(State(), txn.Locks(), txn.txnId, rid))
    {
      var shared := txn.IsSharedLocked(rid);
      if shared {
        ok := LockUpgrade(txn, rid);
      } else {
        ok := txn.IsExclusiveLocked(rid);
        if !ok { ok := LockExclusive(txn, rid); }
      }
    }

    /** The lock step of the page reader. */
    method LockForRead(txn: Transaction, rid: RID) returns (ok: bool)
      modifies this`sharedLockTable, txn`sharedLockSet
      ensures Grant(ok, State(), txn.Locks()) == old(GrantRead(State(), txn.Locks(), txn.txnId, rid))
    {
      ok := txn.IsSharedLocked(rid);
      if !ok { ok := txn.IsExclusiveLocked(rid); }
      if !ok { ok := LockShared(txn, rid); }
    }
  }
}
