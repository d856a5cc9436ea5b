/** What every reachable state keeps, whatever the interleaving: the locks exclude each
  * other, every write set rewinds to what its owner found, and no step panics. */
module TransactionSafety {
  import opened Wrappers
  import opened Bytes
  import opened SlottedPage
  import opened LockTable
  import opened Transactions

  // ---- rewinding a write set, one RID at a time ----

  /** A single slot change: those forward operations make, and a mark taken off by a rollback. */
  datatype Change =
    | Inserted(rid: RID, data: seq<byte>)
    | Flagged(rid: RID, data: seq<byte>)
    | Replaced(rid: RID, old_: seq<byte>, new_: seq<byte>)
    | Unflagged(rid: RID, data: seq<byte>)

  function ChangesOf(w: WriteRecord): seq<Change> {
    match w
    case InsertW(rid, data) => [Inserted(rid, data)]
    case DeleteW(rid, data) => [Flagged(rid, data)]
    case UpdateW(rid, old_, new_) => [Replaced(rid, old_, new_)]
    case MoveW(rid, rid2, old_, new_) => [Flagged(rid, old_), Inserted(rid2, new_)]
  }

  function Changes(ws: seq<WriteRecord>): seq<Change> {
    if ws == [] then [] else Changes(ws[..|ws| - 1]) + ChangesOf(ws[|ws| - 1])
  }

  /** All changes of a transaction, the half-done move included. */
  function TxnChanges(x: Txn): seq<Change> {
    Changes(x.writes) +
    if x.move.Some? && x.move.value.marked then [Flagged(x.move.value.rid, x.move.value.old_)] else []
  }

  /** The slot a change leaves behind; a replacement never shrinks its tuple. */
  predicate Leaves(c: Change, v: Slot) {
    match c
    case Inserted(_, data) => v == Tuple(data, false)
    case Flagged(_, data) => v == Tuple(data, true)
    case Replaced(_, old_, new_) => v == Tuple(new_, false) && |old_| <= |new_| && old_ != []
    case Unflagged(_, data) => v == Tuple(data, false)
  }

  function Origin(c: Change): Slot {
    match c
    case Inserted(_, _) => Empty
    case Flagged(_, data) => Tuple(data, false)
    case Replaced(_, old_, _) => Tuple(old_, false)
    case Unflagged(_, data) => Tuple(data, true)
  }

  /** Undo the changes of `rid` from the last to the first, starting at `v`. */
  function Rewind(cs: seq<Change>, rid: RID, v: Slot): Option<Slot> {
    if cs == [] then Some(v)
    else
      var n := |cs| - 1;
      if cs[n].rid != rid then Rewind(cs[..n], rid, v)
      else if Leaves(cs[n], v) then Rewind(cs[..n], rid, Origin(cs[n]))
      else None
  }

  lemma {:induction false} RewindUntouched(cs: seq<Change>, rid: RID, v: Slot)
    requires forall c :: c in cs ==> c.rid != rid
    ensures Rewind(cs, rid, v) == Some(v)
  {
    if cs != [] { RewindUntouched(cs[..|cs| - 1], rid, v); }
  }

  lemma RewindLast(cs: seq<Change>, c: Change, rid: RID, v: Slot)
    ensures Rewind(cs + [c], rid, v) ==
            if c.rid != rid then Rewind(cs, rid, v)
            else if Leaves(c, v) then Rewind(cs, rid, Origin(c)) else None
  {
    assert (cs + [c])[..|cs|] == cs;
  }

  predicate Forward(cs: seq<Change>) {
    forall i :: 0 <= i < |cs| ==> !cs[i].Unflagged?
  }

  lemma {:induction false} WriteSetIsForward(ws: seq<WriteRecord>)
    ensures Forward(Changes(ws))
  {
    if ws != [] { WriteSetIsForward(ws[..|ws| - 1]); }
  }

  /** A rewindable slot that was marked by the transaction is marked still, and marking was its last change. */
  lemma {:induction false} MarkIsFinal(cs: seq<Change>, i: nat, rid: RID, v: Slot)
    requires i < |cs| && cs[i].Flagged? && cs[i].rid == rid && Rewind(cs, rid, v).Some? && Forward(cs)
    ensures v == Tuple(cs[i].data, true)
    ensures forall j :: i < j < |cs| ==> cs[j].rid != rid
  {
    var n := |cs| - 1;
    if i == n {
    } else if cs[n].rid != rid {
      MarkIsFinal(cs[..n], i, rid, v);
    } else {
      MarkIsFinal(cs[..n], i, rid, Origin(cs[n]));
    }
  }

  // ---- the invariant ----

  predicate Live(x: Txn) { x.phase != Ended }

  predicate CanRewind(x: Txn) { x.phase == Growing || x.phase == Aborted || x.phase == Aborting }

  predicate Deleting(w: WriteRecord) { w.DeleteW? || w.MoveW? }

  ghost predicate Rewinds(ps: Pages, x: Txn) {
    && (forall c :: c in TxnChanges(x) ==> c.rid in x.held.exclusive)
    && (forall rid :: rid in x.held.exclusive && rid in x.before ==>
          Rewind(TxnChanges(x), rid, Val(ps, rid)) == Some(x.before[rid]))
  }

  /** What is left of a commit can be carried out: the tuples to delete are marked and distinct. */
  ghost predicate CanFinish(ps: Pages, x: Txn) {
    && (forall i :: 0 <= i < |x.writes| && Deleting(x.writes[i]) ==>
          && x.writes[i].rid in x.held.exclusive
          && Val(ps, x.writes[i].rid).Tuple?)
    && (forall i, j :: 0 <= i < j < |x.writes| && Deleting(x.writes[i]) && Deleting(x.writes[j]) ==>
          x.writes[i].rid != x.writes[j].rid)
  }

  ghost predicate MoveOk(ps: Pages, x: Txn) {
    x.move.Some? ==>
      && x.phase == Growing && x.move.value.new_ != []
      && x.move.value.rid in x.held.exclusive
      && (!x.move.value.marked ==> Val(ps, x.move.value.rid) == Tuple(x.move.value.old_, false))
  }

  ghost predicate TxnOk(ps: Pages, x: Txn) {
    && (forall rid :: rid in x.before <==> rid in x.held.exclusive)
    && MoveOk(ps, x)
    && (CanRewind(x) ==> Rewinds(ps, x))
    && (x.phase == Committing ==> CanFinish(ps, x))
    && (x.phase == Committed ==> x.writes == [])
  }

  ghost predicate LocksOk(s: State) {
    && Exclusion(s.tables)
    && (forall t :: t in s.txns && Live(s.txns[t]) ==> Agrees(s.tables, s.txns[t].held, t))
    && (forall rid, u :: HoldsExclusive(s.tables, rid, u) || HoldsShared(s.tables, rid, u) ==>
          u in s.txns && Live(s.txns[u]))
  }

  ghost predicate Safe(s: State) {
    && WellFormedPages(s.pages)
    && LocksOk(s)
    && (forall t :: t in s.txns && Live(s.txns[t]) ==> TxnOk(s.pages, s.txns[t]))
  }

  // ---- how the pieces keep it ----

  /** Two live transactions never hold the same RID for writing, nor one for writing what the other reads. */
  lemma LocksExclude(s: State, t: TxnId, u: TxnId, rid: RID)
    requires LocksOk(s) && t in s.txns && u in s.txns && Live(s.txns[t]) && Live(s.txns[u])
    requires rid in s.txns[t].held.exclusive && CanRead(s.txns[u].held, rid)
    ensures t == u
  {
    assert HoldsExclusive(s.tables, rid, t);
    assert HoldsShared(s.tables, rid, u) || HoldsExclusive(s.tables, rid, u);
  }

  /** The transaction with its new locks; the value behind a new exclusive lock is noted. */
  ghost function Granted(ps: Pages, x: Txn, rid: RID, held': Held): Txn {
    x.(held := held',
       before := if rid in held'.exclusive && rid !in x.before then x.before[rid := Val(ps, rid)] else x.before)
  }

  ghost predicate MayAdd(x: Txn, rid: RID, held': Held) {
    && (forall r :: r in held'.exclusive ==> r in x.held.exclusive || r == rid)
    && (forall r :: r in x.held.exclusive ==> r in held'.exclusive)
  }

  lemma {:induction false} GrantKeepsRewinds(ps: Pages, x: Txn, rid: RID, held': Held)
    requires Rewinds(ps, x) && MayAdd(x, rid, held') && (rid in x.before <==> rid in x.held.exclusive)
    ensures Rewinds(ps, Granted(ps, x, rid, held'))
  {
    var x' := Granted(ps, x, rid, held');
    assert TxnChanges(x') == TxnChanges(x);
    if rid !in x.before { RewindUntouched(TxnChanges(x), rid, Val(ps, rid)); }
  }

  lemma GrantKeepsFinish(ps: Pages, x: Txn, rid: RID, held': Held)
    requires CanFinish(ps, x) && MayAdd(x, rid, held')
    ensures CanFinish(ps, Granted(ps, x, rid, held'))
  {
  }

  lemma GrantKeepsMove(ps: Pages, x: Txn, rid: RID, held': Held)
    requires MoveOk(ps, x) && MayAdd(x, rid, held')
    ensures MoveOk(ps, Granted(ps, x, rid, held'))
  {
  }

  /** A granted lock changes nothing a transaction has to rewind. */
  lemma {:induction false} GrantKeepsTxnOk(ps: Pages, x: Txn, rid: RID, held': Held)
    requires TxnOk(ps, x) && MayAdd(x, rid, held')
    ensures TxnOk(ps, Granted(ps, x, rid, held'))
  {
    GrantKeepsMove(ps, x, rid, held');
    if CanRewind(x) { GrantKeepsRewinds(ps, x, rid, held'); }
    if x.phase == Committing { GrantKeepsFinish(ps, x, rid, held'); }
  }

  ghost predicate GrantOk(s: State, t: TxnId, rid: RID, g: Grant)
    requires t in s.txns
  {
    ReadGrantOk(s.tables, s.txns[t].held, t, rid, g) || WriteGrantOk(s.tables, s.txns[t].held, t, rid, g)
  }

  lemma {:induction false} GrantKeepsSafe(s: State, t: TxnId, rid: RID, g: Grant)
    requires Safe(s) && t in s.txns && Live(s.txns[t]) && GrantOk(s, t, rid, g)
    ensures Safe(WithGrant(s, t, rid, g))
    ensures var x := WithGrant(s, t, rid, g).txns[t];
            x.phase == s.txns[t].phase && x.writes == s.txns[t].writes && x.move == s.txns[t].move && x.held == g.held
  {
    var s' := WithGrant(s, t, rid, g);
    GrantKeepsTxnOk(s.pages, s.txns[t], rid, g.held);
    forall u | u in s'.txns && Live(s'.txns[u])
      ensures Agrees(s'.tables, s'.txns[u].held, u) && TxnOk(s'.pages, s'.txns[u])
    {
      assert u in s.txns && Live(s.txns[u]);
      assert Agrees(s.tables, s.txns[u].held, u);
    }
    forall r, u | HoldsExclusive(s'.tables, r, u) || HoldsShared(s'.tables, r, u)
      ensures u in s'.txns && Live(s'.txns[u])
    {
      if u != t { assert HoldsExclusive(s.tables, r, u) || HoldsShared(s.tables, r, u); }
    }
  }

  /** A change of one transaction's own bookkeeping. */
  lemma {:induction false} BookkeepingKeepsSafe(s: State, s': State, t: TxnId)
    requires Safe(s) && t in s.txns && Live(s.txns[t])
    requires s'.pages == s.pages && s'.tables == s.tables && t in s'.txns && s'.txns == s.txns[t := s'.txns[t]]
    requires Live(s'.txns[t]) && s'.txns[t].held == s.txns[t].held && TxnOk(s.pages, s'.txns[t])
    ensures Safe(s')
  {
    forall u | u in s'.txns && Live(s'.txns[u])
      ensures Agrees(s'.tables, s'.txns[u].held, u) && TxnOk(s'.pages, s'.txns[u])
    {
      assert u in s.txns && Live(s.txns[u]);
    }
  }

  /** A slot write under the writer's exclusive lock touches nobody else's view. */
  lemma {:induction false} WriteKeepsSafe(s: State, t: TxnId, rid: RID, slot: Slot, body: LogBody, x: Txn)
    requires Safe(s) && t in s.txns && Live(s.txns[t]) && Addressable(s.pages, rid)
    requires rid in s.txns[t].held.exclusive
    requires WellFormed(Put(s.pages[rid.page], rid.slot, slot))
    requires Live(x) && x.held == s.txns[t].held && TxnOk(PutVal(s.pages, rid, slot), x)
    ensures Safe(Wrote(s, t, rid, slot, body, x))
  {
    var s' := Wrote(s, t, rid, slot, body, x);
    forall u | u in s'.txns && Live(s'.txns[u])
      ensures Agrees(s'.tables, s'.txns[u].held, u) && TxnOk(s'.pages, s'.txns[u])
    {
      if u == t {
        var x' := s'.txns[t];
        assert TxnChanges(x') == TxnChanges(x);
        assert TxnOk(s'.pages, x');
      } else {
        assert u in s.txns && Live(s.txns[u]);
        if rid in s.txns[u].held.exclusive { LocksExclude(s, t, u, rid); }
        assert forall r :: r in s.txns[u].held.exclusive ==> Val(s'.pages, r) == Val(s.pages, r);
        FrameTxnOk(s.pages, s'.pages, s.txns[u]);
      }
    }
  }

  lemma FrameTxnOk(ps: Pages, qs: Pages, x: Txn)
    requires TxnOk(ps, x)
    requires forall r :: r in x.held.exclusive ==> Val(qs, r) == Val(ps, r)
    ensures TxnOk(qs, x)
  {
  }

  /** Appending a change made by `rid`'s owner keeps the write set rewindable. */
  lemma {:induction false} ChangeKeepsRewinds(ps: Pages, x: Txn, x': Txn, c: Change)
    requires TxnOk(ps, x) && Rewinds(ps, x) && Addressable(ps, c.rid)
    requires x'.held == x.held && x'.before == x.before && TxnChanges(x') == TxnChanges(x) + [c]
    requires c.rid in x.held.exclusive && Val(ps, c.rid) == Origin(c)
    requires c.Replaced? ==> |c.old_| <= |c.new_| && c.old_ != []
    ensures Rewinds(PutVal(ps, c.rid, After(c)), x')
  {
    var qs := PutVal(ps, c.rid, After(c));
    forall rid | rid in x'.held.exclusive && rid in x'.before
      ensures Rewind(TxnChanges(x'), rid, Val(qs, rid)) == Some(x'.before[rid])
    {
      RewindLast(TxnChanges(x), c, rid, Val(qs, rid));
    }
  }

  function After(c: Change): Slot {
    match c
    case Inserted(_, data) => Tuple(data, false)
    case Flagged(_, data) => Tuple(data, true)
    case Replaced(_, _, new_) => Tuple(new_, false)
    case Unflagged(_, data) => Tuple(data, false)
  }

  /** Undoing the last change keeps the rest rewindable. */
  lemma {:induction false} UndoKeepsRewinds(ps: Pages, x: Txn, x': Txn, c: Change)
    requires Rewinds(ps, x) && (forall rid :: rid in x.before <==> rid in x.held.exclusive)
    requires x'.held == x.held && x'.before == x.before && TxnChanges(x) == TxnChanges(x') + [c]
    ensures c.rid in x.held.exclusive && Leaves(c, Val(ps, c.rid)) && Addressable(ps, c.rid)
    ensures Rewinds(PutVal(ps, c.rid, Origin(c)), x')
  {
    assert TxnChanges(x)[|TxnChanges(x')|] == c;
    RewindLast(TxnChanges(x'), c, c.rid, Val(ps, c.rid));
    var qs := PutVal(ps, c.rid, Origin(c));
    forall rid | rid in x'.held.exclusive && rid in x'.before
      ensures Rewind(TxnChanges(x'), rid, Val(qs, rid)) == Some(x'.before[rid])
    {
      RewindLast(TxnChanges(x'), c, rid, Val(ps, rid));
    }
    forall d | d in TxnChanges(x') ensures d.rid in x'.held.exclusive {
      assert d in TxnChanges(x);
    }
  }

  lemma ChangesRecord(ws: seq<WriteRecord>, w: WriteRecord)
    ensures Changes(ws + [w]) == Changes(ws) + ChangesOf(w)
  {
    assert (ws + [w])[..|ws|] == ws;
  }

  /** A deleting record contributes a mark, so its tuple is marked and no two share a RID. */
  lemma {:induction false} DeletingRecords(ws: seq<WriteRecord>, i: nat) returns (k: nat)
    requires i < |ws| && Deleting(ws[i])
    ensures k < |Changes(ws)| && Changes(ws)[k].Flagged? && Changes(ws)[k].rid == ws[i].rid
    ensures |Changes(ws[..i])| == k
  {
    var n := |ws| - 1;
    if i == n {
      k := |Changes(ws[..n])|;
      assert ChangesOf(ws[n])[0].Flagged?;
    } else {
      k := DeletingRecords(ws[..n], i);
      assert ws[..n][..i] == ws[..i];
    }
  }

  lemma {:induction false} ChangesMonotone(ws: seq<WriteRecord>, i: nat, j: nat)
    requires i < j <= |ws|
    ensures |Changes(ws[..i])| < |Changes(ws[..j])|
    decreases j
  {
    assert ws[..j][..j - 1] == ws[..j - 1];
    if i < j - 1 { ChangesMonotone(ws, i, j - 1); }
  }

  lemma {:induction false} CommitCanStart(ps: Pages, x: Txn)
    requires TxnOk(ps, x) && x.phase == Growing && x.move.None?
    ensures TxnOk(ps, x.(phase := Committing))
  {
    var ws := x.writes;
    assert TxnChanges(x) == Changes(ws);
    WriteSetIsForward(ws);
    forall i | 0 <= i < |ws| && Deleting(ws[i])
      ensures ws[i].rid in x.held.exclusive && Val(ps, ws[i].rid).Tuple?
    {
      var k := DeletingRecords(ws, i);
      assert Changes(ws)[k] in TxnChanges(x);
      MarkIsFinal(TxnChanges(x), k, ws[i].rid, Val(ps, ws[i].rid));
    }
    forall i, j | 0 <= i < j < |ws| && Deleting(ws[i]) && Deleting(ws[j])
      ensures ws[i].rid != ws[j].rid
    {
      var k := DeletingRecords(ws, i);
      var l := DeletingRecords(ws, j);
      ChangesMonotone(ws, i, j);
      assert Changes(ws)[k] in TxnChanges(x);
      MarkIsFinal(TxnChanges(x), k, ws[i].rid, Val(ps, ws[i].rid));
    }
    assert CanFinish(ps, x.(phase := Committing));
  }

  predicate SameOwner(x: Txn, x': Txn) {
    x'.held == x.held && x'.before == x.before && x'.phase == x.phase
  }

  predicate Applicable(ps: Pages, c: Change) {
    && Addressable(ps, c.rid) && Val(ps, c.rid) == Origin(c)
    && (c.Replaced? ==> |c.old_| <= |c.new_| && c.old_ != [])
    && WellFormed(Put(ps[c.rid.page], c.rid.slot, After(c)))
  }

  /** A forward change by the holder of the exclusive lock, together with its bookkeeping. */
  lemma {:induction false} ChangeKeepsSafe(s: State, t: TxnId, c: Change, body: LogBody, x': Txn)
    requires Safe(s) && t in s.txns && s.txns[t].phase == Growing && c.rid in s.txns[t].held.exclusive
    requires Applicable(s.pages, c)
    requires SameOwner(s.txns[t], x') && TxnChanges(x') == TxnChanges(s.txns[t]) + [c]
    requires x'.move.Some? ==> x'.move.value.marked && x'.move.value.new_ != [] && x'.move.value.rid in x'.held.exclusive
    ensures Safe(Wrote(s, t, c.rid, After(c), body, x'))
  {
    ChangeKeepsRewinds(s.pages, s.txns[t], x', c);
    WriteKeepsSafe(s, t, c.rid, After(c), body, x');
  }

  /** The last change of an aborting transaction taken back: what the page operation needs is
    * there, and afterwards the rest can still be rewound. */
  lemma {:induction false} UndoChangeKeepsSafe(s: State, t: TxnId, c: Change, body: LogBody, x': Txn)
    requires Safe(s) && t in s.txns && s.txns[t].phase == Aborting
    requires SameOwner(s.txns[t], x') && TxnChanges(s.txns[t]) == TxnChanges(x') + [c] && x'.move.None?
    ensures c.rid in s.txns[t].held.exclusive && Addressable(s.pages, c.rid) && Leaves(c, Val(s.pages, c.rid))
    ensures Safe(Wrote(s, t, c.rid, Origin(c), body, x'))
  {
    UndoKeepsRewinds(s.pages, s.txns[t], x', c);
    PutWellFormed(s.pages[c.rid.page], c.rid.slot, Origin(c));
    WriteKeepsSafe(s, t, c.rid, Origin(c), body, x');
  }

  // ---- event by event ----

  lemma DoomKeepsSafe(s: State, t: TxnId)
    requires Safe(s) && t in s.txns && s.txns[t].phase == Growing && s.txns[t].move.None?
    ensures Safe(Doom(s, t))
  {
    var s' := Doom(s, t);
    assert TxnChanges(s'.txns[t]) == TxnChanges(s.txns[t]);
    BookkeepingKeepsSafe(s, s', t);
  }

  lemma {:induction false} BeginKeepsSafe(s: State, t: TxnId)
    requires Safe(s) && t !in s.txns
    ensures Safe(DoBegin(s, t))
  {
    var s' := DoBegin(s, t);
    assert forall rid :: !HoldsShared(s.tables, rid, t) && !HoldsExclusive(s.tables, rid, t);
    forall u | u in s'.txns && Live(s'.txns[u])
      ensures Agrees(s'.tables, s'.txns[u].held, u) && TxnOk(s'.pages, s'.txns[u])
    {
      if u != t { assert u in s.txns && Live(s.txns[u]); }
    }
  }

  lemma GetTupleKeepsSafe(s: State, t: TxnId, rid: RID)
    requires Safe(s) && Enabled(s, GetTuple(t, rid))
    ensures Safe(DoGetTuple(s, t, rid))
  {
    GrantReadSound(s.tables, s.txns[t].held, t, rid);
    var g := GrantRead(s.tables, s.txns[t].held, t, rid);
    if !g.ok {
      DoomKeepsSafe(s, t);
    } else {
      GrantKeepsSafe(s, t, rid, g);
      var s1 := Saw(WithGrant(s, t, rid, g), t, rid);
      assert Safe(s1);
      DoomKeepsSafe(s1, t);
    }
  }

  /** The insert half shared by plain and moving inserts: the slot is locked, seen empty and filled. */
  lemma {:induction false} ClaimKeepsSafe(s: State, t: TxnId, page: PageId, data: seq<byte>, rid: RID)
    requires Safe(s) && t in s.txns && Live(s.txns[t]) && page in s.pages && data != []
    requires InsertTarget(s, t, page, data) == Some(rid)
    ensures var s1 := Claim(s, t, rid);
            && Safe(s1) && s1.pages == s.pages && rid in s1.txns[t].held.exclusive
            && s1.txns[t].phase == s.txns[t].phase && s1.txns[t].writes == s.txns[t].writes
            && s1.txns[t].move == s.txns[t].move
    ensures Addressable(s.pages, rid) && Val(s.pages, rid) == Empty
    ensures WellFormed(Put(s.pages[rid.page], rid.slot, Tuple(data, false)))
  {
    GrantExclusiveSound(s.tables, s.txns[t].held, t, rid);
    GrantKeepsSafe(s, t, rid, GrantExclusive(s.tables, s.txns[t].held, t, rid));
    InsertWellFormed(s.pages[page], data);
  }

  /** The bookkeeping of a finished insert, plain or ending a move, adds exactly one change. */
  lemma {:induction false} InsertRecorded(x: Txn, rid: RID, data: seq<byte>, w: WriteRecord)
    requires x.move.None? ==> w == InsertW(rid, data)
    requires x.move.Some? ==> x.move.value.marked && w == MoveW(x.move.value.rid, rid, x.move.value.old_, data)
    ensures TxnChanges(Record(x, w).(move := None)) == TxnChanges(x) + [Inserted(rid, data)]
  {
    ChangesRecord(x.writes, w);
  }

  lemma {:induction false} RecordedInsertKeepsSafe(s: State, t: TxnId, rid: RID, data: seq<byte>, w: WriteRecord)
    requires Safe(s) && t in s.txns && s.txns[t].phase == Growing && rid in s.txns[t].held.exclusive
    requires Addressable(s.pages, rid) && Val(s.pages, rid) == Empty
    requires WellFormed(Put(s.pages[rid.page], rid.slot, Tuple(data, false)))
    requires s.txns[t].move.None? ==> w == InsertW(rid, data)
    requires s.txns[t].move.Some? ==>
               var m := s.txns[t].move.value; m.marked && w == MoveW(m.rid, rid, m.old_, data)
    ensures Safe(Wrote(s, t, rid, Tuple(data, false), InsertRec(rid, data), Record(s.txns[t], w).(move := None)))
  {
    InsertRecorded(s.txns[t], rid, data, w);
    ChangeKeepsSafe(s, t, Inserted(rid, data), InsertRec(rid, data), Record(s.txns[t], w).(move := None));
  }

  lemma {:induction false} InsertKeepsSafe(s: State, t: TxnId, page: PageId, data: seq<byte>)
    requires Safe(s) && Enabled(s, InsertTuple(t, page, data))
    ensures Safe(DoInsert(s, t, page, data))
  {
    match InsertTarget(s, t, page, data)
    case None =>
    case Some(rid) =>
      ClaimKeepsSafe(s, t, page, data, rid);
      var s1 := Claim(s, t, rid);
      RecordedInsertKeepsSafe(s1, t, rid, data, InsertW(rid, data));
      assert Record(s1.txns[t], InsertW(rid, data)).(move := None) == Record(s1.txns[t], InsertW(rid, data));
  }

  lemma {:induction false} MoveInsertKeepsSafe(s: State, t: TxnId, page: PageId)
    requires Safe(s) && Enabled(s, MoveInsert(t, page))
    ensures Safe(DoMoveInsert(s, t, page))
  {
    var m := s.txns[t].move.value;
    assert m.new_ != [] by { assert TxnOk(s.pages, s.txns[t]); }
    match InsertTarget(s, t, page, m.new_)
    case None =>
    case Some(rid) =>
      ClaimKeepsSafe(s, t, page, m.new_, rid);
      var s1 := Claim(s, t, rid);
      RecordedInsertKeepsSafe(s1, t, rid, m.new_, MoveW(m.rid, rid, m.old_, m.new_));
  }

  /** Taking a write lock and looking at the slot. */
  lemma {:induction false} WriteLockKeepsSafe(s: State, t: TxnId, rid: RID)
    requires Safe(s) && t in s.txns && Live(s.txns[t])
    ensures var g := GrantWrite(s.tables, s.txns[t].held, t, rid);
            var s1 := Saw(WithGrant(s, t, rid, g), t, rid);
            && Safe(s1) && s1.pages == s.pages
            && s1.txns[t].phase == s.txns[t].phase && s1.txns[t].writes == s.txns[t].writes
            && s1.txns[t].move == s.txns[t].move && (g.ok ==> rid in s1.txns[t].held.exclusive)
  {
    GrantWriteSound(s.tables, s.txns[t].held, t, rid);
    GrantKeepsSafe(s, t, rid, GrantWrite(s.tables, s.txns[t].held, t, rid));
  }

  lemma {:induction false} UpdateInPlaceKeepsSafe(s: State, t: TxnId, rid: RID, data: seq<byte>)
    requires Safe(s) && t in s.txns && s.txns[t].phase == Growing && s.txns[t].move.None?
    requires rid in s.txns[t].held.exclusive && rid.page in s.pages && data != []
    requires UpdateOutcomeOf(s.pages[rid.page], rid.slot, |data|, false).Updated?
    ensures var old_ := s.pages[rid.page][rid.slot].data;
            Safe(Wrote(s, t, rid, Tuple(data, false), UpdateRec(rid, old_, data),
                       Record(s.txns[t], UpdateW(rid, old_, data))))
  {
    var x, p := s.txns[t], s.pages[rid.page];
    var old_ := p[rid.slot].data;
    var x' := Record(x, UpdateW(rid, old_, data));
    UpdateIsChange(x, rid, old_, data);
    PutWellFormed(p, rid.slot, Tuple(data, false));
    ChangeKeepsSafe(s, t, Replaced(rid, old_, data), UpdateRec(rid, old_, data), x');
  }

  lemma {:induction false} UpdateIsChange(x: Txn, rid: RID, old_: seq<byte>, new_: seq<byte>)
    requires x.move.None?
    ensures TxnChanges(Record(x, UpdateW(rid, old_, new_))) == TxnChanges(x) + [Replaced(rid, old_, new_)]
  {
    ChangesRecord(x.writes, UpdateW(rid, old_, new_));
  }

  lemma {:induction false} StartMoveKeepsSafe(s: State, t: TxnId, m: Move)
    requires Safe(s) && t in s.txns && s.txns[t].phase == Growing && s.txns[t].move.None?
    requires m.rid in s.txns[t].held.exclusive && m.new_ != [] && !m.marked && Val(s.pages, m.rid) == Tuple(m.old_, false)
    ensures Safe(s.(txns := s.txns[t := s.txns[t].(move := Some(m))]))
  {
    var s' := s.(txns := s.txns[t := s.txns[t].(move := Some(m))]);
    assert TxnChanges(s'.txns[t]) == TxnChanges(s.txns[t]);
    BookkeepingKeepsSafe(s, s', t);
  }

  lemma {:induction false} UpdateLockedKeepsSafe(s: State, t: TxnId, rid: RID, data: seq<byte>)
    requires Safe(s) && t in s.txns && s.txns[t].phase == Growing && s.txns[t].move.None?
    requires rid in s.txns[t].held.exclusive && rid.page in s.pages && data != []
    ensures Safe(UpdateLocked(s, t, rid, data))
  {
    match UpdateOutcomeOf(s.pages[rid.page], rid.slot, |data|, false)
    case Updated => UpdateInPlaceKeepsSafe(s, t, rid, data);
    case InvalidSlot => DoomKeepsSafe(s, t);
    case Deleted => DoomKeepsSafe(s, t);
    case _ => StartMoveKeepsSafe(s, t, Move(rid, s.pages[rid.page][rid.slot].data, data, false));
  }

  lemma {:induction false} UpdateKeepsSafe(s: State, t: TxnId, rid: RID, data: seq<byte>)
    requires Safe(s) && Enabled(s, UpdateTuple(t, rid, data))
    ensures Safe(DoUpdate(s, t, rid, data))
  {
    var g := GrantWrite(s.tables, s.txns[t].held, t, rid);
    if !g.ok {
      DoomKeepsSafe(s, t);
    } else {
      WriteLockKeepsSafe(s, t, rid);
      UpdateLockedKeepsSafe(Saw(WithGrant(s, t, rid, g), t, rid), t, rid, data);
    }
  }

  /** Flagging a live tuple of the transaction, as `MarkDelete` does it. */
  lemma {:induction false} FlagKeepsSafe(s: State, t: TxnId, rid: RID, x': Txn)
    requires Safe(s) && t in s.txns && s.txns[t].phase == Growing && rid in s.txns[t].held.exclusive
    requires !Marked(Val(s.pages, rid))
    requires SameOwner(s.txns[t], x')
    requires TxnChanges(x') == TxnChanges(s.txns[t]) + [Flagged(rid, Val(s.pages, rid).data)]
    requires x'.move.Some? ==> x'.move.value.marked && x'.move.value.new_ != [] && x'.move.value.rid in x'.held.exclusive
    ensures Safe(Wrote(s, t, rid, Tuple(Val(s.pages, rid).data, true), MarkDeleteRec(rid), x'))
  {
    var slot := Val(s.pages, rid);
    PutWellFormed(s.pages[rid.page], rid.slot, Tuple(slot.data, true));
    ChangeKeepsSafe(s, t, Flagged(rid, slot.data), MarkDeleteRec(rid), x');
  }

  lemma {:induction false} RecordedDeleteKeepsSafe(s: State, t: TxnId, rid: RID)
    requires Safe(s) && t in s.txns && s.txns[t].phase == Growing && s.txns[t].move.None?
    requires rid in s.txns[t].held.exclusive && !Marked(Val(s.pages, rid))
    ensures var data := Val(s.pages, rid).data;
            Safe(Wrote(s, t, rid, Tuple(data, true), MarkDeleteRec(rid), Record(s.txns[t], DeleteW(rid, data))))
  {
    var x, data := s.txns[t], Val(s.pages, rid).data;
    var x' := Record(x, DeleteW(rid, data));
    ChangesRecord(x.writes, DeleteW(rid, data));
    assert TxnChanges(x') == TxnChanges(x) + [Flagged(rid, data)];
    FlagKeepsSafe(s, t, rid, x');
  }

  lemma {:induction false} MarkDeleteKeepsSafe(s: State, t: TxnId, rid: RID)
    requires Safe(s) && Enabled(s, MarkDelete(t, rid))
    ensures Safe(DoMarkDelete(s, t, rid))
  {
    var g := GrantWrite(s.tables, s.txns[t].held, t, rid);
    if !g.ok {
      DoomKeepsSafe(s, t);
    } else {
      WriteLockKeepsSafe(s, t, rid);
      var s1 := Saw(WithGrant(s, t, rid, g), t, rid);
      if Marked(Val(s.pages, rid)) { DoomKeepsSafe(s1, t); } else { RecordedDeleteKeepsSafe(s1, t, rid); }
    }
  }

  /** The delete half of a moving update is never refused: the tuple is still its own and live. */
  lemma {:induction false} MoveMarkSucceeds(s: State, t: TxnId)
    requires Safe(s) && Enabled(s, MoveMark(t))
    ensures var m := s.txns[t].move.value;
            && GrantWrite(s.tables, s.txns[t].held, t, m.rid).ok
            && Val(s.pages, m.rid) == Tuple(m.old_, false)
    ensures Safe(DoMoveMark(s, t)) && DoMoveMark(s, t).txns[t].phase == Growing
  {
    var m := s.txns[t].move.value;
    GrantWriteSound(s.tables, s.txns[t].held, t, m.rid);
    assert HoldsExclusive(s.tables, m.rid, t);
    assert !HeldByOther(s.tables, t, m.rid);
    WriteLockKeepsSafe(s, t, m.rid);
    var g := GrantWrite(s.tables, s.txns[t].held, t, m.rid);
    var s1 := Saw(WithGrant(s, t, m.rid, g), t, m.rid);
    var x' := s1.txns[t].(move := Some(m.(marked := true)));
    assert TxnChanges(x') == TxnChanges(s1.txns[t]) + [Flagged(m.rid, m.old_)];
    FlagKeepsSafe(s1, t, m.rid, x');
  }

  lemma {:induction false} CommitDeleteKeepsSafe(s: State, t: TxnId)
    requires Safe(s) && Enabled(s, CommitStep(t)) && Deleting(s.txns[t].writes[|s.txns[t].writes| - 1])
    ensures var r := ApplyDelete(s, t, s.txns[t].writes[|s.txns[t].writes| - 1].rid, Popped(s.txns[t]));
            r.Next? && Safe(r.state)
  {
    var x := s.txns[t];
    var x' := Popped(x);
    var rid := x.writes[|x.writes| - 1].rid;
    FinishAfterDelete(s.pages, x);
    PutWellFormed(s.pages[rid.page], rid.slot, Empty);
    WriteKeepsSafe(s, t, rid, Empty, ApplyDeleteRec(rid, Val(s.pages, rid).data), x');
  }

  lemma FinishAfterPop(ps: Pages, x: Txn)
    requires CanFinish(ps, x) && x.writes != []
    ensures CanFinish(ps, Popped(x))
  {
    var x' := Popped(x);
    assert forall i :: 0 <= i < |x'.writes| ==> x'.writes[i] == x.writes[i];
  }

  lemma FinishAfterDelete(ps: Pages, x: Txn)
    requires CanFinish(ps, x) && x.writes != [] && Deleting(x.writes[|x.writes| - 1])
    ensures var rid := x.writes[|x.writes| - 1].rid;
            rid in x.held.exclusive && Val(ps, rid).Tuple? && CanFinish(PutVal(ps, rid, Empty), Popped(x))
  {
    var x' := Popped(x);
    assert forall i :: 0 <= i < |x'.writes| ==> x'.writes[i] == x.writes[i];
  }

  lemma {:induction false} CommitStepKeepsSafe(s: State, t: TxnId)
    requires Safe(s) && Enabled(s, CommitStep(t))
    ensures var r := DoCommitStep(s, t); r.Next? && Safe(r.state)
  {
    var x := s.txns[t];
    var x' := Popped(x);
    if Deleting(x.writes[|x.writes| - 1]) {
      CommitDeleteKeepsSafe(s, t);
    } else {
      FinishAfterPop(s.pages, x);
      BookkeepingKeepsSafe(s, s.(txns := s.txns[t := x']), t);
    }
  }

  ghost predicate UndoneBy(x: Txn, c: Change, x': Txn)
    requires x.writes != []
  {
    match x.writes[|x.writes| - 1]
    case InsertW(rid, data) => c == Inserted(rid, data) && x' == Popped(x)
    case DeleteW(rid, data) => c == Flagged(rid, data) && x' == Popped(x)
    case UpdateW(rid, old_, new_) => c == Replaced(rid, old_, new_) && x' == Popped(x)
    case MoveW(rid, rid2, old_, new_) => c == Inserted(rid2, new_) && x' == Record(Popped(x), DeleteW(rid, old_))
  }

  /** The bookkeeping after one undo section: the record's last change is gone. */
  lemma {:induction false} UndoneChanges(x: Txn) returns (c: Change, x': Txn)
    requires x.writes != [] && x.move.None?
    ensures SameOwner(x, x') && x'.move.None? && TxnChanges(x) == TxnChanges(x') + [c]
    ensures UndoneBy(x, c, x')
  {
    x' := Popped(x);
    match x.writes[|x.writes| - 1]
    case InsertW(rid, data) => c := Inserted(rid, data);
    case DeleteW(rid, data) => c := Flagged(rid, data);
    case UpdateW(rid, old_, new_) => c := Replaced(rid, old_, new_);
    case MoveW(rid, rid2, old_, new_) =>
      c := Inserted(rid2, new_);
      x' := Record(x', DeleteW(rid, old_));
      ChangesRecord(Popped(x).writes, DeleteW(rid, old_));
  }

  /** The record a rollback logs when it takes a change back. */
  predicate Compensates(body: LogBody, c: Change) {
    match c
    case Inserted(rid, data) => body == ApplyDeleteRec(rid, data)
    case Flagged(rid, _) => body == RollbackDeleteRec(rid)
    case Replaced(rid, old_, new_) => body == UpdateRec(rid, new_, old_)
    case Unflagged(_, _) => false
  }

  /** The step that undoes one record writes back what its last change started from. */
  lemma {:induction false} UndoStepIsWrite(s: State, t: TxnId) returns (c: Change, x': Txn, body: LogBody)
    requires Safe(s) && Enabled(s, UndoStep(t))
    ensures SameOwner(s.txns[t], x') && x'.prevLsn == s.txns[t].prevLsn
    ensures c.rid in x'.held.exclusive && Addressable(s.pages, c.rid)
    ensures var w := s.txns[t].writes[|s.txns[t].writes| - 1];
            x'.writes == Popped(s.txns[t]).writes + if w.MoveW? then [DeleteW(w.rid, w.old_)] else []
    ensures DoUndoStep(s, t) == Next(Wrote(s, t, c.rid, Origin(c), body, x'))
    ensures Compensates(body, c) && Leaves(c, Val(s.pages, c.rid))
    ensures Safe(Wrote(s, t, c.rid, Origin(c), body, x'))
  {
    assert TxnOk(s.pages, s.txns[t]);
    c, x' := UndoneChanges(s.txns[t]);
    body := match s.txns[t].writes[|s.txns[t].writes| - 1] {
      case UpdateW(rid, old_, _) => UpdateRec(rid, c.new_, old_)
      case DeleteW(rid, _) => RollbackDeleteRec(rid)
      case InsertW(rid, data) => ApplyDeleteRec(rid, data)
      case MoveW(_, rid2, _, new_) => ApplyDeleteRec(rid2, new_)
    };
    UndoKeepsRewinds(s.pages, s.txns[t], x', c);
    UndoChangeKeepsSafe(s, t, c, body, x');
    UndoWrites(s, t, c, x');
  }

  lemma {:induction false} UndoWrites(s: State, t: TxnId, c: Change, x': Txn)
    requires Safe(s) && Enabled(s, UndoStep(t)) && s.txns[t].move.None?
    requires c.rid in s.txns[t].held.exclusive && Addressable(s.pages, c.rid) && Leaves(c, Val(s.pages, c.rid))
    requires UndoneBy(s.txns[t], c, x')
    ensures var body := match s.txns[t].writes[|s.txns[t].writes| - 1] {
              case UpdateW(rid, old_, _) => UpdateRec(rid, c.new_, old_)
              case DeleteW(rid, _) => RollbackDeleteRec(rid)
              case InsertW(rid, data) => ApplyDeleteRec(rid, data)
              case MoveW(_, rid2, _, new_) => ApplyDeleteRec(rid2, new_)
            };
            DoUndoStep(s, t) == Next(Wrote(s, t, c.rid, Origin(c), body, x'))
  {
    if c.Replaced? { RollbackUpdateSucceeds(s, t, c); }
  }

  lemma {:induction false} UndoStepKeepsSafe(s: State, t: TxnId)
    requires Safe(s) && Enabled(s, UndoStep(t))
    ensures var r := DoUndoStep(s, t); r.Next? && Safe(r.state)
  {
    var c, x', body := UndoStepIsWrite(s, t);
  }

  /** The panic "rollback of normal UPDATE failed" cannot happen: the lock is still held, the
    * tuple still there, and the old bytes are no longer than the ones they replace. */
  lemma {:induction false} RollbackUpdateSucceeds(s: State, t: TxnId, c: Change)
    requires Safe(s) && t in s.txns && Live(s.txns[t]) && c.Replaced?
    requires c.rid in s.txns[t].held.exclusive && Addressable(s.pages, c.rid) && Leaves(c, Val(s.pages, c.rid))
    ensures UpdateOutcomeOf(s.pages[c.rid.page], c.rid.slot, |c.old_|, true) == Updated
    ensures var g := GrantWrite(s.tables, s.txns[t].held, t, c.rid);
            g.ok && WithGrant(s, t, c.rid, g) == s
  {
    var x := s.txns[t];
    assert HoldsExclusive(s.tables, c.rid, t);
    var g := GrantWrite(s.tables, x.held, t, c.rid);
    assert g == Grant(true, s.tables, x.held);
    assert c.rid in x.before by { assert TxnOk(s.pages, x); }
    assert WithGrant(s, t, c.rid, g).txns == s.txns;
  }

  lemma {:induction false} ReleaseKeepsSafe(s: State, t: TxnId)
    requires Safe(s) && Enabled(s, ReleaseLocks(t))
    ensures Safe(DoRelease(s, t))
  {
    var s' := DoRelease(s, t);
    ReleaseAllLeavesNothing(s.tables, s.txns[t].held, t);
    forall u | u in s'.txns && Live(s'.txns[u])
      ensures Agrees(s'.tables, s'.txns[u].held, u) && TxnOk(s'.pages, s'.txns[u])
    {
      assert u != t && u in s.txns && Live(s.txns[u]);
      assert Agrees(s.tables, s.txns[u].held, u);
    }
    forall r, u | HoldsExclusive(s'.tables, r, u) || HoldsShared(s'.tables, r, u)
      ensures u in s'.txns && Live(s'.txns[u])
    {
      assert u != t;
      assert HoldsExclusive(s.tables, r, u) || HoldsShared(s.tables, r, u);
    }
  }

  lemma {:induction false} PhaseKeepsSafe(s: State, e: Event)
    requires Safe(s) && Enabled(s, e) && (e.StartCommit? || e.StartAbort? || e.LogCommit?)
    ensures Step(s, e).Next? && Safe(Step(s, e).state)
  {
    var s' := Step(s, e).state;
    var x := s.txns[e.t];
    if e.StartCommit? { CommitCanStart(s.pages, x); }
    assert TxnChanges(s'.txns[e.t]) == TxnChanges(x);
    BookkeepingKeepsSafe(s, s', e.t);
  }

  /** No step of any transaction panics, and every step keeps the invariant. */
  lemma {:induction false} StepKeepsSafe(s: State, e: Event)
    requires Safe(s) && Enabled(s, e)
    ensures Step(s, e).Next? && Safe(Step(s, e).state)
  {
    match e
    case Begin(t) => BeginKeepsSafe(s, t);
    case GetTuple(t, rid) => GetTupleKeepsSafe(s, t, rid);
    case InsertTuple(t, page, data) => InsertKeepsSafe(s, t, page, data);
    case UpdateTuple(t, rid, data) => UpdateKeepsSafe(s, t, rid, data);
    case MarkDelete(t, rid) => MarkDeleteKeepsSafe(s, t, rid);
    case MoveMark(t) => MoveMarkSucceeds(s, t);
    case MoveInsert(t, page) => MoveInsertKeepsSafe(s, t, page);
    case CommitStep(t) => CommitStepKeepsSafe(s, t);
    case UndoStep(t) => UndoStepKeepsSafe(s, t);
    case ReleaseLocks(t) => ReleaseKeepsSafe(s, t);
    case _ => PhaseKeepsSafe(s, e);
  }

  /** Over whole runs, from any well-formed pages: no panic is reachable and the invariant holds throughout. */
  lemma {:induction false} EveryRunIsSafe(ps: Pages, events: seq<Event>)
    requires WellFormedPages(ps) && Run(ps, events).Some?
    ensures Run(ps, events).value.Next? && Safe(Run(ps, events).value.state)
  {
    if events == [] {
      assert forall rid :: SharedHolders(Initial(ps).tables, rid) == [];
    } else {
      var n := |events| - 1;
      EveryRunIsSafe(ps, events[..n]);
      StepKeepsSafe(Run(ps, events[..n]).value.state, events[n]);
    }
  }

  /** When the rollback loop of an abort has emptied its write set, every RID the transaction
    * ever locked for writing holds again exactly what the transaction found there. */
  lemma AbortRestores(ps: Pages, events: seq<Event>, t: TxnId, rid: RID)
    requires WellFormedPages(ps) && Run(ps, events).Some? && Run(ps, events).value.Next?
    requires var s := Run(ps, events).value.state;
             && t in s.txns && s.txns[t].phase == Aborting && s.txns[t].writes == []
             && rid in s.txns[t].held.exclusive
    ensures var s := Run(ps, events).value.state;
            rid in s.txns[t].before && Val(s.pages, rid) == s.txns[t].before[rid]
  {
    EveryRunIsSafe(ps, events);
    var x := Run(ps, events).value.state.txns[t];
    assert TxnChanges(x) == [];
  }
}
