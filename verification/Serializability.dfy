/** What the history of a run amounts to: replaying the committed transactions one after
  * another, in commit order, on the initial pages gives every one of their reads the value
  * it saw in the interleaved run and ends in the same slots.  Aborted ones leave no trace. */
module Serializability {
  import opened Wrappers
  import opened Bytes
  import opened SlottedPage
  import opened LockTable
  import opened Transactions
  import opened TransactionSafety

  // ---- the serial history ----

  function OpsOf(h: seq<Action>, t: TxnId): seq<Op> {
    if h == [] then []
    else
      var n := |h| - 1;
      if h[n].Access? && h[n].txn == t then OpsOf(h[..n], t) + [h[n].op] else OpsOf(h[..n], t)
  }

  /** The operations of the committed transactions, transaction by transaction in commit order. */
  function Serial(h: seq<Action>): seq<Op> {
    if h == [] then []
    else
      var n := |h| - 1;
      if h[n].Commit? then Serial(h[..n]) + OpsOf(h[..n], h[n].txn) else Serial(h[..n])
  }

  /** The operations of a transaction are what the history says it accessed. */
  lemma {:induction false} OpsAreAccesses(h: seq<Action>, t: TxnId, op: Op)
    ensures op in OpsOf(h, t) <==> Access(t, op) in h
  {
    if h != [] {
      var n := |h| - 1;
      OpsAreAccesses(h[..n], t, op);
      assert h == h[..n] + [h[n]];
    }
  }

  /** The serial execution has a place for every commit, with all the transaction had done by then. */
  lemma {:induction false} SerialIsComplete(h: seq<Action>, i: nat) returns (before: seq<Op>, after: seq<Op>)
    requires i < |h| && h[i].Commit?
    ensures Serial(h) == before + OpsOf(h[..i], h[i].txn) + after
  {
    var n := |h| - 1;
    if i == n {
      before, after := Serial(h[..n]), [];
    } else {
      before, after := SerialIsComplete(h[..n], i);
      assert h[..n][..i] == h[..i];
      if h[n].Commit? { after := after + OpsOf(h[..n], h[n].txn); }
    }
  }

  function LastWrite(ops: seq<Op>, rid: RID): Option<Slot> {
    if ops == [] then None
    else
      var n := |ops| - 1;
      if ops[n].Write? && ops[n].rid == rid then Some(ops[n].val) else LastWrite(ops[..n], rid)
  }

  function Or(v: Option<Slot>, d: Slot): Slot {
    if v.Some? then v.value else d
  }

  /** The slot found under `rid` after running `ops` on pages `ps`. */
  function Replay(ops: seq<Op>, ps: Pages, rid: RID): Slot {
    Or(LastWrite(ops, rid), Val(ps, rid))
  }

  /** Every read sees what a serial execution of the operations before it leaves there. */
  ghost predicate ReadsAgree(ops: seq<Op>, ps: Pages) {
    forall i :: 0 <= i < |ops| && ops[i].Read? ==> ops[i].val == Replay(ops[..i], ps, ops[i].rid)
  }

  /** The slot with the effects of unfinished transactions taken away. */
  function Durable(s: State, rid: RID): Slot {
    if rid in s.tables.exclusive then
      var t := s.tables.exclusive[rid];
      if t in s.txns && s.txns[t].phase != Committed && rid in s.txns[t].before
      then s.txns[t].before[rid] else Val(s.pages, rid)
    else Val(s.pages, rid)
  }

  // ---- the invariant ----

  predicate Open(x: Txn) { Live(x) && x.phase != Committed }

  ghost predicate ReadsHold(s: State, t: TxnId)
    requires t in s.txns
  {
    var ops := OpsOf(s.history, t);
    forall i :: 0 <= i < |ops| && ops[i].Read? ==>
      && CanRead(s.txns[t].held, ops[i].rid)
      && ops[i].val == Or(LastWrite(ops[..i], ops[i].rid), Durable(s, ops[i].rid))
  }

  ghost predicate WritesHold(s: State, t: TxnId)
    requires t in s.txns
  {
    var ops := OpsOf(s.history, t);
    forall rid ::
      && (LastWrite(ops, rid).Some? ==> rid in s.txns[t].held.exclusive)
      && (rid in s.txns[t].held.exclusive && rid in s.txns[t].before ==>
            Val(s.pages, rid) == Or(LastWrite(ops, rid), s.txns[t].before[rid]))
  }

  ghost predicate SerialOk(ps: Pages, s: State) {
    && (forall rid :: Replay(Serial(s.history), ps, rid) == Durable(s, rid))
    && ReadsAgree(Serial(s.history), ps)
    && (forall t :: t in s.txns && Open(s.txns[t]) ==> ReadsHold(s, t) && WritesHold(s, t))
    && (forall t :: t !in s.txns ==> OpsOf(s.history, t) == [])
  }

  // ---- facts about the definitions ----

  lemma OpsOfAppend(h: seq<Action>, a: Action, t: TxnId)
    ensures OpsOf(h + [a], t) == if a.Access? && a.txn == t then OpsOf(h, t) + [a.op] else OpsOf(h, t)
    ensures Serial(h + [a]) == if a.Commit? then Serial(h) + OpsOf(h, a.txn) else Serial(h)
  {
    assert (h + [a])[..|h|] == h;
  }

  lemma {:induction false} LastWriteConcat(xs: seq<Op>, ys: seq<Op>, rid: RID)
    ensures LastWrite(xs + ys, rid) ==
            if LastWrite(ys, rid).Some? then LastWrite(ys, rid) else LastWrite(xs, rid)
  {
    if ys == [] {
      assert xs + ys == xs;
    } else {
      var n := |ys| - 1;
      LastWriteConcat(xs, ys[..n], rid);
      assert (xs + ys)[..|xs + ys| - 1] == xs + ys[..n];
    }
  }

  /** Whoever holds a RID for writing and is still open decides what is durable there. */
  lemma DurableOfHolder(s: State, t: TxnId, rid: RID)
    requires Safe(s) && t in s.txns && Live(s.txns[t])
    ensures rid in s.txns[t].held.exclusive ==>
              rid in s.txns[t].before &&
              Durable(s, rid) == if s.txns[t].phase == Committed then Val(s.pages, rid) else s.txns[t].before[rid]
    ensures CanRead(s.txns[t].held, rid) && rid !in s.txns[t].held.exclusive ==> Durable(s, rid) == Val(s.pages, rid)
  {
    assert TxnOk(s.pages, s.txns[t]);
    assert Agrees(s.tables, s.txns[t].held, t);
    EntryHolds(s.tables, rid);
  }

  // ---- how the pieces keep it ----

  /** Nothing of transaction `u` is disturbed when what it holds and sees stays put. */
  lemma {:induction false} FrameTxn(s: State, s': State, u: TxnId)
    requires u in s.txns && u in s'.txns && Open(s.txns[u]) && ReadsHold(s, u) && WritesHold(s, u)
    requires OpsOf(s'.history, u) == OpsOf(s.history, u)
    requires s'.txns[u].held == s.txns[u].held && s'.txns[u].before == s.txns[u].before
    requires forall r :: r in s.txns[u].held.exclusive ==> Val(s'.pages, r) == Val(s.pages, r)
    requires forall r :: CanRead(s.txns[u].held, r) ==> Durable(s', r) == Durable(s, r)
    ensures ReadsHold(s', u) && WritesHold(s', u)
  {
  }

  /** Bookkeeping that is not a commit. */
  lemma {:induction false} QuietKeepsSerial(ps: Pages, s: State, s': State, t: TxnId)
    requires SerialOk(ps, s) && t in s'.txns
    requires s'.pages == s.pages && s'.tables == s.tables && s'.history == s.history && s'.txns == s.txns[t := s'.txns[t]]
    requires t in s.txns ==> s'.txns[t].held == s.txns[t].held && s'.txns[t].before == s.txns[t].before
    requires t in s.txns ==> Open(s.txns[t]) && Open(s'.txns[t])
    requires t !in s.txns ==> s'.txns[t].held == Held([], []) && s'.txns[t].before == map[] && Open(s'.txns[t])
    ensures SerialOk(ps, s')
  {
    forall rid ensures Durable(s', rid) == Durable(s, rid) {}
    forall u | u in s'.txns && Open(s'.txns[u]) ensures ReadsHold(s', u) && WritesHold(s', u) {
      if u in s.txns {
        FrameTxn(s, s', u);
      } else {
        assert OpsOf(s'.history, u) == [];
      }
    }
  }

  lemma {:induction false} GrantKeepsSerial(ps: Pages, s: State, t: TxnId, rid: RID, g: Grant)
    requires Safe(s) && SerialOk(ps, s) && t in s.txns && Open(s.txns[t]) && GrantOk(s, t, rid, g)
    ensures SerialOk(ps, WithGrant(s, t, rid, g))
  {
    var s' := WithGrant(s, t, rid, g);
    GrantKeepsSafe(s, t, rid, g);
    assert TxnOk(s.pages, s.txns[t]);
    forall r ensures Durable(s', r) == Durable(s, r) {
      EntryHolds(s.tables, r);
      EntryHolds(s'.tables, r);
      if HoldsExclusive(s'.tables, r, t) {
        DurableOfHolder(s', t, r);
        DurableOfHolder(s, t, r);
      }
    }
    forall u | u in s'.txns && Open(s'.txns[u]) ensures ReadsHold(s', u) && WritesHold(s', u) {
      if u != t { FrameTxn(s, s', u); } else {
        assert forall r :: CanRead(s.txns[t].held, r) ==> CanRead(s'.txns[t].held, r);
        assert ReadsHold(s, t) && WritesHold(s, t);
      }
    }
  }

  lemma {:induction false} SawKeepsSerial(ps: Pages, s: State, t: TxnId, rid: RID)
    requires Safe(s) && SerialOk(ps, s) && t in s.txns && Open(s.txns[t]) && CanRead(s.txns[t].held, rid)
    ensures SerialOk(ps, Saw(s, t, rid))
  {
    var s' := Saw(s, t, rid);
    var a := Access(t, Read(rid, Val(s.pages, rid)));
    forall r ensures Durable(s', r) == Durable(s, r) {}
    OpsOfAppend(s.history, a, t);
    forall u ensures u != t ==> OpsOf(s'.history, u) == OpsOf(s.history, u) { OpsOfAppend(s.history, a, u); }
    forall u | u in s'.txns && Open(s'.txns[u]) ensures ReadsHold(s', u) && WritesHold(s', u) {
      if u != t {
        FrameTxn(s, s', u);
      } else {
        DurableOfHolder(s, t, rid);
        var ops := OpsOf(s.history, t);
        AppendOp(ops, a.op);
        assert ReadsHold(s, t) && WritesHold(s, t);
      }
    }
  }

  lemma AppendOp(ops: seq<Op>, op: Op)
    ensures forall i :: 0 <= i <= |ops| ==> (ops + [op])[..i] == ops[..i]
    ensures forall rid :: LastWrite(ops + [op], rid) ==
                          if op.Write? && op.rid == rid then Some(op.val) else LastWrite(ops, rid)
  {
    assert (ops + [op])[..|ops|] == ops;
  }

  lemma {:induction false} WroteKeepsSerial(ps: Pages, s: State, t: TxnId, rid: RID, slot: Slot, body: LogBody, x: Txn)
    requires Safe(s) && SerialOk(ps, s) && t in s.txns && Open(s.txns[t])
    requires rid in s.txns[t].held.exclusive && Addressable(s.pages, rid)
    requires x.held == s.txns[t].held && x.before == s.txns[t].before && Open(x)
    ensures SerialOk(ps, Wrote(s, t, rid, slot, body, x))
  {
    var s' := Wrote(s, t, rid, slot, body, x);
    var a := Access(t, Write(rid, slot));
    WroteKeepsDurable(s, t, rid, slot, body, x);
    forall u ensures OpsOf(s'.history, u) == OpsOf(s.history, u) + if u == t then [a.op] else [] { OpsOfAppend(s.history, a, u); }
    OpsOfAppend(s.history, a, t);
    forall u | u in s'.txns && Open(s'.txns[u]) ensures ReadsHold(s', u) && WritesHold(s', u) {
      if u != t { OtherStillHolds(s, t, rid, slot, body, x, u); } else { WriterStillHolds(s, s', t, rid, slot); }
    }
  }

  lemma {:induction false} WroteKeepsDurable(s: State, t: TxnId, rid: RID, slot: Slot, body: LogBody, x: Txn)
    requires Safe(s) && t in s.txns && Open(s.txns[t])
    requires rid in s.txns[t].held.exclusive && Addressable(s.pages, rid)
    requires x.held == s.txns[t].held && x.before == s.txns[t].before && Open(x)
    ensures forall r :: Durable(Wrote(s, t, rid, slot, body, x), r) == Durable(s, r)
  {
    assert HoldsExclusive(s.tables, rid, t);
    DurableOfHolder(s, t, rid);
  }

  lemma {:induction false} OtherStillHolds(s: State, t: TxnId, rid: RID, slot: Slot, body: LogBody, x: Txn, u: TxnId)
    requires Safe(s) && t in s.txns && Open(s.txns[t]) && u in s.txns && u != t && Open(s.txns[u])
    requires rid in s.txns[t].held.exclusive && Addressable(s.pages, rid)
    requires x.held == s.txns[t].held && x.before == s.txns[t].before && Open(x)
    requires ReadsHold(s, u) && WritesHold(s, u)
    ensures ReadsHold(Wrote(s, t, rid, slot, body, x), u) && WritesHold(Wrote(s, t, rid, slot, body, x), u)
  {
    WroteKeepsDurable(s, t, rid, slot, body, x);
    OpsOfAppend(s.history, Access(t, Write(rid, slot)), u);
    if rid in s.txns[u].held.exclusive { LocksExclude(s, t, u, rid); }
    FrameTxn(s, Wrote(s, t, rid, slot, body, x), u);
  }

  lemma {:induction false} WriterStillHolds(s: State, s': State, t: TxnId, rid: RID, slot: Slot)
    requires t in s.txns && t in s'.txns && ReadsHold(s, t) && WritesHold(s, t)
    requires OpsOf(s'.history, t) == OpsOf(s.history, t) + [Write(rid, slot)]
    requires s'.txns[t].held == s.txns[t].held && s'.txns[t].before == s.txns[t].before
    requires rid in s.txns[t].held.exclusive
    requires forall r :: Val(s'.pages, r) == if r == rid then slot else Val(s.pages, r)
    requires forall r :: Durable(s', r) == Durable(s, r)
    ensures ReadsHold(s', t) && WritesHold(s', t)
  {
    AppendOp(OpsOf(s.history, t), Write(rid, slot));
  }

  /** A transaction's own operations can be appended to the serial history when it commits. */
  lemma {:induction false} AppendCommitted(ps: Pages, s: State, t: TxnId)
    requires Safe(s) && SerialOk(ps, s) && t in s.txns && Open(s.txns[t])
    ensures ReadsAgree(Serial(s.history) + OpsOf(s.history, t), ps)
    ensures forall rid :: Replay(Serial(s.history) + OpsOf(s.history, t), ps, rid) ==
                          if rid in s.txns[t].held.exclusive then Val(s.pages, rid) else Durable(s, rid)
  {
    var xs, ys := Serial(s.history), OpsOf(s.history, t);
    assert ReadsHold(s, t) && WritesHold(s, t);
    var zs: seq<Op> := xs + ys;
    forall i: nat | i < |zs| && zs[i].Read? ensures zs[i].val == Replay(zs[..i], ps, zs[i].rid) {
      if i < |xs| {
        assert zs[..i] == xs[..i] && zs[i] == xs[i];
      } else {
        OwnReadAgrees(ps, s, t, i - |xs|);
        assert zs[..i] == xs + ys[..i - |xs|];
      }
    }
    forall rid
      ensures Replay(xs + ys, ps, rid) ==
              if rid in s.txns[t].held.exclusive then Val(s.pages, rid) else Durable(s, rid)
    {
      OwnWritesReplay(ps, s, t, rid);
    }
  }

  lemma {:induction false} OwnReadAgrees(ps: Pages, s: State, t: TxnId, j: nat)
    requires Safe(s) && SerialOk(ps, s) && t in s.txns && Open(s.txns[t])
    requires j < |OpsOf(s.history, t)| && OpsOf(s.history, t)[j].Read?
    ensures var op := OpsOf(s.history, t)[j];
            op.val == Replay(Serial(s.history) + OpsOf(s.history, t)[..j], ps, op.rid)
  {
    var xs, ys := Serial(s.history), OpsOf(s.history, t);
    assert ReadsHold(s, t) && WritesHold(s, t);
    LastWriteConcat(xs, ys[..j], ys[j].rid);
    assert Replay(xs, ps, ys[j].rid) == Durable(s, ys[j].rid);
  }

  lemma {:induction false} OwnWritesReplay(ps: Pages, s: State, t: TxnId, rid: RID)
    requires Safe(s) && SerialOk(ps, s) && t in s.txns && Open(s.txns[t])
    ensures Replay(Serial(s.history) + OpsOf(s.history, t), ps, rid) ==
            if rid in s.txns[t].held.exclusive then Val(s.pages, rid) else Durable(s, rid)
  {
    var xs := Serial(s.history);
    assert ReadsHold(s, t) && WritesHold(s, t);
    LastWriteConcat(xs, OpsOf(s.history, t), rid);
    DurableOfHolder(s, t, rid);
    assert Replay(xs, ps, rid) == Durable(s, rid);
  }

  lemma {:induction false} LogCommitKeepsSerial(ps: Pages, s: State, t: TxnId)
    requires Safe(s) && SerialOk(ps, s) && Enabled(s, LogCommit(t))
    ensures SerialOk(ps, DoLogCommit(s, t))
  {
    var s' := DoLogCommit(s, t);
    AppendCommitted(ps, s, t);
    PhaseKeepsSafe(s, LogCommit(t));
    forall u ensures OpsOf(s'.history, u) == OpsOf(s.history, u) { OpsOfAppend(s.history, Commit(t), u); }
    OpsOfAppend(s.history, Commit(t), t);
    forall rid
      ensures Durable(s', rid) == if rid in s.txns[t].held.exclusive then Val(s.pages, rid) else Durable(s, rid)
    {
      DurableOfHolder(s', t, rid);
      EntryHolds(s.tables, rid);
      assert Agrees(s.tables, s.txns[t].held, t);
    }
    forall u | u in s'.txns && Open(s'.txns[u]) ensures ReadsHold(s', u) && WritesHold(s', u) {
      assert u != t;
      forall r | CanRead(s.txns[u].held, r) ensures Durable(s', r) == Durable(s, r) {
        if r in s.txns[t].held.exclusive { LocksExclude(s, t, u, r); }
      }
      FrameTxn(s, s', u);
    }
  }

  lemma {:induction false} ReleaseKeepsSerial(ps: Pages, s: State, t: TxnId)
    requires Safe(s) && SerialOk(ps, s) && Enabled(s, ReleaseLocks(t))
    ensures SerialOk(ps, DoRelease(s, t))
  {
    var s' := DoRelease(s, t);
    var x := s.txns[t];
    ReleaseKeepsSafe(s, t);
    ReleaseAllLeavesNothing(s.tables, x.held, t);
    assert TxnOk(s.pages, x);
    forall u ensures OpsOf(s'.history, u) == OpsOf(s.history, u) { OpsOfAppend(s.history, End(t), u); }
    OpsOfAppend(s.history, End(t), t);
    forall rid ensures Durable(s', rid) == Durable(s, rid) {
      DurableOfHolder(s, t, rid);
      EntryHolds(s.tables, rid);
      EntryHolds(s'.tables, rid);
      assert Agrees(s.tables, x.held, t);
      if rid in x.held.exclusive && x.phase == Aborting {
        assert TxnChanges(x) == [];
        assert Rewinds(s.pages, x);
      }
    }
    forall u | u in s'.txns && Open(s'.txns[u]) ensures ReadsHold(s', u) && WritesHold(s', u) {
      assert u != t;
      FrameTxn(s, s', u);
    }
  }

  // ---- event by event ----

  lemma BeginKeepsSerial(ps: Pages, s: State, t: TxnId)
    requires SerialOk(ps, s) && t !in s.txns
    ensures SerialOk(ps, DoBegin(s, t))
  {
    var s' := DoBegin(s, t);
    assert OpsOf(s.history, t) == [];
    forall rid ensures Durable(s', rid) == Durable(s, rid) {}
    QuietKeepsSerial(ps, s, s', t);
  }

  lemma {:induction false} LockAndLook(ps: Pages, s: State, t: TxnId, rid: RID, g: Grant)
    requires Safe(s) && SerialOk(ps, s) && t in s.txns && Open(s.txns[t]) && GrantOk(s, t, rid, g) && g.ok
    ensures var s1 := Saw(WithGrant(s, t, rid, g), t, rid);
            Safe(s1) && SerialOk(ps, s1) && s1.pages == s.pages && Open(s1.txns[t]) && s1.txns[t].held == g.held
  {
    GrantKeepsSafe(s, t, rid, g);
    GrantKeepsSerial(ps, s, t, rid, g);
    SawKeepsSerial(ps, WithGrant(s, t, rid, g), t, rid);
  }

  lemma {:induction false} GetTupleKeepsSerial(ps: Pages, s: State, t: TxnId, rid: RID)
    requires Safe(s) && SerialOk(ps, s) && Enabled(s, GetTuple(t, rid))
    ensures SerialOk(ps, DoGetTuple(s, t, rid))
  {
    GrantReadSound(s.tables, s.txns[t].held, t, rid);
    var g := GrantRead(s.tables, s.txns[t].held, t, rid);
    if !g.ok {
      QuietKeepsSerial(ps, s, Doom(s, t), t);
    } else {
      LockAndLook(ps, s, t, rid, g);
      var s1 := Saw(WithGrant(s, t, rid, g), t, rid);
      QuietKeepsSerial(ps, s1, Doom(s1, t), t);
    }
  }

  lemma {:induction false} InsertKeepsSerial(ps: Pages, s: State, t: TxnId, page: PageId, data: seq<byte>)
    requires Safe(s) && SerialOk(ps, s) && Enabled(s, InsertTuple(t, page, data))
    ensures SerialOk(ps, DoInsert(s, t, page, data))
  {
    match InsertTarget(s, t, page, data)
    case None =>
    case Some(rid) =>
      GrantExclusiveSound(s.tables, s.txns[t].held, t, rid);
      LockAndLook(ps, s, t, rid, GrantExclusive(s.tables, s.txns[t].held, t, rid));
      var s1 := Claim(s, t, rid);
      WroteKeepsSerial(ps, s1, t, rid, Tuple(data, false), InsertRec(rid, data), Record(s1.txns[t], InsertW(rid, data)));
  }

  lemma {:induction false} MoveInsertKeepsSerial(ps: Pages, s: State, t: TxnId, page: PageId)
    requires Safe(s) && SerialOk(ps, s) && Enabled(s, MoveInsert(t, page))
    ensures SerialOk(ps, DoMoveInsert(s, t, page))
  {
    var m := s.txns[t].move.value;
    match InsertTarget(s, t, page, m.new_)
    case None =>
    case Some(rid) =>
      GrantExclusiveSound(s.tables, s.txns[t].held, t, rid);
      LockAndLook(ps, s, t, rid, GrantExclusive(s.tables, s.txns[t].held, t, rid));
      var s1 := Claim(s, t, rid);
      WroteKeepsSerial(ps, s1, t, rid, Tuple(m.new_, false), InsertRec(rid, m.new_),
                       Record(s1.txns[t], MoveW(m.rid, rid, m.old_, m.new_)).(move := None));
  }

  /** What a write-locked, looked-at slot may turn into: a slot write, a doomed transaction, or a noted move. */
  lemma {:induction false} AfterWriteLock(ps: Pages, s: State, t: TxnId, rid: RID)
    requires Safe(s) && SerialOk(ps, s) && t in s.txns && Open(s.txns[t])
    ensures var g := GrantWrite(s.tables, s.txns[t].held, t, rid);
            g.ok ==>
              var s1 := Saw(WithGrant(s, t, rid, g), t, rid);
              Safe(s1) && SerialOk(ps, s1) && s1.pages == s.pages && Open(s1.txns[t]) && rid in s1.txns[t].held.exclusive
    ensures SerialOk(ps, Doom(s, t))
  {
    GrantWriteSound(s.tables, s.txns[t].held, t, rid);
    var g := GrantWrite(s.tables, s.txns[t].held, t, rid);
    if g.ok { LockAndLook(ps, s, t, rid, g); }
    QuietKeepsSerial(ps, s, Doom(s, t), t);
  }

  lemma {:induction false} UpdateLockedKeepsSerial(ps: Pages, s: State, t: TxnId, rid: RID, data: seq<byte>)
    requires Safe(s) && SerialOk(ps, s) && t in s.txns && Open(s.txns[t])
    requires rid in s.txns[t].held.exclusive && rid.page in s.pages
    ensures SerialOk(ps, UpdateLocked(s, t, rid, data))
  {
    var s' := UpdateLocked(s, t, rid, data);
    var p := s.pages[rid.page];
    if UpdateOutcomeOf(p, rid.slot, |data|, false).Updated? {
      var old_ := p[rid.slot].data;
      WroteKeepsSerial(ps, s, t, rid, Tuple(data, false), UpdateRec(rid, old_, data),
                       Record(s.txns[t], UpdateW(rid, old_, data)));
    } else {
      QuietKeepsSerial(ps, s, s', t);
    }
  }

  lemma {:induction false} UpdateKeepsSerial(ps: Pages, s: State, t: TxnId, rid: RID, data: seq<byte>)
    requires Safe(s) && SerialOk(ps, s) && Enabled(s, UpdateTuple(t, rid, data))
    ensures SerialOk(ps, DoUpdate(s, t, rid, data))
  {
    AfterWriteLock(ps, s, t, rid);
    var g := GrantWrite(s.tables, s.txns[t].held, t, rid);
    if g.ok { UpdateLockedKeepsSerial(ps, Saw(WithGrant(s, t, rid, g), t, rid), t, rid, data); }
  }

  lemma {:induction false} MarkDeleteKeepsSerial(ps: Pages, s: State, t: TxnId, rid: RID)
    requires Safe(s) && SerialOk(ps, s) && Enabled(s, MarkDelete(t, rid))
    ensures SerialOk(ps, DoMarkDelete(s, t, rid))
  {
    AfterWriteLock(ps, s, t, rid);
    var g := GrantWrite(s.tables, s.txns[t].held, t, rid);
    if g.ok {
      var s1 := Saw(WithGrant(s, t, rid, g), t, rid);
      var slot := Val(s.pages, rid);
      if Marked(slot) {
        QuietKeepsSerial(ps, s1, Doom(s1, t), t);
      } else {
        WroteKeepsSerial(ps, s1, t, rid, Tuple(slot.data, true), MarkDeleteRec(rid),
                         Record(s1.txns[t], DeleteW(rid, slot.data)));
      }
    }
  }

  lemma {:induction false} MoveMarkKeepsSerial(ps: Pages, s: State, t: TxnId)
    requires Safe(s) && SerialOk(ps, s) && Enabled(s, MoveMark(t))
    ensures SerialOk(ps, DoMoveMark(s, t))
  {
    var m := s.txns[t].move.value;
    MoveMarkSucceeds(s, t);
    AfterWriteLock(ps, s, t, m.rid);
    var s1 := Saw(WithGrant(s, t, m.rid, GrantWrite(s.tables, s.txns[t].held, t, m.rid)), t, m.rid);
    WroteKeepsSerial(ps, s1, t, m.rid, Tuple(m.old_, true), MarkDeleteRec(m.rid),
                     s1.txns[t].(move := Some(m.(marked := true))));
  }

  lemma {:induction false} CommitStepKeepsSerial(ps: Pages, s: State, t: TxnId)
    requires Safe(s) && SerialOk(ps, s) && Enabled(s, CommitStep(t))
    ensures DoCommitStep(s, t).Next? && SerialOk(ps, DoCommitStep(s, t).state)
  {
    var x := s.txns[t];
    var w := x.writes[|x.writes| - 1];
    CommitStepKeepsSafe(s, t);
    if Deleting(w) {
      WroteKeepsSerial(ps, s, t, w.rid, Empty, ApplyDeleteRec(w.rid, Val(s.pages, w.rid).data), Popped(x));
    } else {
      QuietKeepsSerial(ps, s, DoCommitStep(s, t).state, t);
    }
  }

  lemma {:induction false} UndoStepKeepsSerial(ps: Pages, s: State, t: TxnId)
    requires Safe(s) && SerialOk(ps, s) && Enabled(s, UndoStep(t))
    ensures DoUndoStep(s, t).Next? && SerialOk(ps, DoUndoStep(s, t).state)
  {
    var c, x', body := UndoStepIsWrite(s, t);
    WroteKeepsSerial(ps, s, t, c.rid, Origin(c), body, x');
  }

  lemma {:induction false} StepKeepsSerial(ps: Pages, s: State, e: Event)
    requires Safe(s) && SerialOk(ps, s) && Enabled(s, e)
    ensures Step(s, e).Next? && SerialOk(ps, Step(s, e).state)
  {
    match e
    case Begin(t) => BeginKeepsSerial(ps, s, t);
    case GetTuple(t, rid) => GetTupleKeepsSerial(ps, s, t, rid);
    case InsertTuple(t, page, data) => InsertKeepsSerial(ps, s, t, page, data);
    case UpdateTuple(t, rid, data) => UpdateKeepsSerial(ps, s, t, rid, data);
    case MarkDelete(t, rid) => MarkDeleteKeepsSerial(ps, s, t, rid);
    case MoveMark(t) => MoveMarkKeepsSerial(ps, s, t);
    case MoveInsert(t, page) => MoveInsertKeepsSerial(ps, s, t, page);
    case StartCommit(t) => QuietKeepsSerial(ps, s, WithPhase(s, t, Committing), t);
    case CommitStep(t) => CommitStepKeepsSerial(ps, s, t);
    case LogCommit(t) => LogCommitKeepsSerial(ps, s, t);
    case StartAbort(t) => QuietKeepsSerial(ps, s, WithPhase(s, t, Aborting), t);
    case UndoStep(t) => UndoStepKeepsSerial(ps, s, t);
    case ReleaseLocks(t) => ReleaseKeepsSerial(ps, s, t);
  }

  lemma {:induction false} EveryRunIsSerial(ps: Pages, events: seq<Event>)
    requires WellFormedPages(ps) && Run(ps, events).Some?
    ensures Run(ps, events).value.Next? && SerialOk(ps, Run(ps, events).value.state)
  {
    EveryRunIsSafe(ps, events);
    if events != [] {
      var n := |events| - 1;
      EveryRunIsSafe(ps, events[..n]);
      EveryRunIsSerial(ps, events[..n]);
      StepKeepsSerial(ps, Run(ps, events[..n]).value.state, events[n]);
    }
  }

  /** Serializability, for every interleaving: executing the committed transactions one by one
    * in commit order repeats every read they made, and leaves under each RID what the run
    * leaves there once the unfinished transactions' own writes are discounted. */
  lemma CommittedRunsSerially(ps: Pages, events: seq<Event>, rid: RID)
    requires WellFormedPages(ps) && Run(ps, events).Some? && Run(ps, events).value.Next?
    ensures var s := Run(ps, events).value.state;
            && ReadsAgree(Serial(s.history), ps)
            && Replay(Serial(s.history), ps, rid) == Durable(s, rid)
            && ((forall t :: t in s.txns ==> s.txns[t].phase == Ended) ==>
                  Replay(Serial(s.history), ps, rid) == Val(s.pages, rid))
  {
    EveryRunIsSafe(ps, events);
    EveryRunIsSerial(ps, events);
    EntryHolds(Run(ps, events).value.state.tables, rid);
  }
}
