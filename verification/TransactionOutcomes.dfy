/** What a caller gets from each forward operation, stated on locks, slots, log and write set: in
  * every reachable state the operation is on offer, is refused for exactly one of its reasons, and
  * otherwise stores what was asked for and notes what a rollback needs. */
module TransactionOutcomes {
  import opened Wrappers
  import opened Bytes
  import opened SlottedPage
  import opened LockTable
  import opened Transactions
  import opened TransactionSafety
  import opened Precedence
  import opened RunStates
  import opened TransactionManager

  /** A transaction that may issue its next operation. */
  predicate Ready(s: State, t: TxnId) {
    t in s.txns && s.txns[t].phase == Growing && s.txns[t].move.None?
  }

  ghost predicate WrittenByOther(tb: Tables, t: TxnId, rid: RID) {
    exists u :: u != t && HoldsExclusive(tb, rid, u)
  }

  /** Nothing is stored, logged or noted, and the transaction can only abort. */
  ghost predicate Failed(s: State, s': State, t: TxnId)
    requires t in s.txns
  {
    && t in s'.txns && s'.txns[t].phase == Aborted && s'.txns[t].writes == s.txns[t].writes
    && s'.txns[t].move == s.txns[t].move && s'.pages == s.pages && s'.log == s.log
  }

  /** One slot has been seen and now holds `slot`, every other what it held; the writer has it locked,
    * the log has the record, and the transaction has noted `writes` and `move`. */
  ghost predicate Done(s: State, s': State, t: TxnId, rid: RID, slot: Slot, body: LogBody,
                       writes: seq<WriteRecord>, move: Option<Move>)
    requires t in s.txns && Addressable(s.pages, rid)
  {
    && s'.pages == s.pages[rid.page := Put(s.pages[rid.page], rid.slot, slot)]
    && s'.log == s.log + [LogRecord(t, s.txns[t].prevLsn, body)]
    && s'.history == s.history + [Access(t, Read(rid, Val(s.pages, rid))), Access(t, Write(rid, slot))]
    && HoldsExclusive(s'.tables, rid, t)
    && t in s'.txns && s'.txns[t].phase == s.txns[t].phase
    && s'.txns[t].writes == writes && s'.txns[t].move == move && s'.txns[t].prevLsn == |s.log|
  }

  /** A read is refused exactly when another transaction writes there.  Otherwise the slot is seen; the
    * reader goes on if a tuple is there, or if the reader itself has it locked for writing. */
  lemma {:induction false} GetTupleOutcome(s: State, t: TxnId, rid: RID)
    requires Safe(s) && Ready(s, t) && rid.page in s.pages
    ensures Enabled(s, GetTuple(t, rid)) && Step(s, GetTuple(t, rid)).Next?
    ensures var s' := Step(s, GetTuple(t, rid)).state;
            var goesOn := IsLive(s.pages[rid.page], rid.slot)
                          || (rid.slot < |s.pages[rid.page]| && HoldsExclusive(s.tables, rid, t));
            && s'.pages == s.pages && s'.log == s.log && t in s'.txns
            && (WrittenByOther(s.tables, t, rid) ==> Failed(s, s', t) && s'.history == s.history && s'.tables == s.tables)
            && (!WrittenByOther(s.tables, t, rid) ==>
                  && s'.history == s.history + [Access(t, Read(rid, Val(s.pages, rid)))]
                  && CanRead(s'.txns[t].held, rid)
                  && s'.txns[t].phase == if goesOn then Growing else Aborted)
  {
    ReadLockOutcome(s, t, rid);
  }

  /** What a read lock decides, and what it leaves as it was. */
  lemma {:induction false} ReadLockOutcome(s: State, t: TxnId, rid: RID)
    requires Safe(s) && t in s.txns && Live(s.txns[t])
    ensures var g := GrantRead(s.tables, s.txns[t].held, t, rid);
            && (g.ok <==> !WrittenByOther(s.tables, t, rid))
            && (g.ok ==> CanRead(g.held, rid))
            && (rid in g.held.exclusive <==> HoldsExclusive(s.tables, rid, t))
  {
    GrantReadSound(s.tables, s.txns[t].held, t, rid);
    assert Agrees(s.tables, s.txns[t].held, t);
  }

  /** The claim of an empty slot: its lock is the only thing that can be refused. */
  lemma {:induction false} ClaimOutcome(s: State, t: TxnId, page: PageId, data: seq<byte>)
    requires Safe(s) && t in s.txns && Live(s.txns[t]) && page in s.pages && data != []
    ensures var rid := RID(page, FirstEmpty(s.pages[page]));
            && InsertTarget(s, t, page, data) ==
               (if WellFormed(s.pages[page] + [Tuple(data, false)]) && !HeldByOther(s.tables, t, rid) then Some(rid) else None)
            && (InsertTarget(s, t, page, data).Some? ==>
                  var s1 := Claim(s, t, rid);
                  && HoldsExclusive(s1.tables, rid, t) && s1.pages == s.pages && s1.log == s.log
                  && s1.history == s.history + [Access(t, Read(rid, Val(s.pages, rid)))]
                  && s1.txns[t].phase == s.txns[t].phase && s1.txns[t].writes == s.txns[t].writes
                  && s1.txns[t].move == s.txns[t].move && s1.txns[t].prevLsn == s.txns[t].prevLsn)
  {
    var rid := RID(page, FirstEmpty(s.pages[page]));
    RoomIsExact(s.pages[page], data);
    GrantExclusiveSound(s.tables, s.txns[t].held, t, rid);
  }

  /** An insert into a page goes into its first empty slot, unless the page has no room for one tuple
    * more or somebody else has that slot locked: then nothing happens at all. */
  lemma {:induction false} InsertOutcome(s: State, t: TxnId, page: PageId, data: seq<byte>)
    requires Safe(s) && Ready(s, t) && page in s.pages && data != []
    ensures Enabled(s, InsertTuple(t, page, data)) && Step(s, InsertTuple(t, page, data)).Next?
    ensures var s' := Step(s, InsertTuple(t, page, data)).state;
            var rid := RID(page, FirstEmpty(s.pages[page]));
            if WellFormed(s.pages[page] + [Tuple(data, false)]) && !HeldByOther(s.tables, t, rid)
            then Done(s, s', t, rid, Tuple(data, false), InsertRec(rid, data), s.txns[t].writes + [InsertW(rid, data)], None)
            else s' == s
  {
    ClaimOutcome(s, t, page, data);
  }

  /** What a write lock decides, and what it leaves as it was. */
  lemma {:induction false} WriteLockOutcome(s: State, t: TxnId, rid: RID)
    requires Safe(s) && t in s.txns && Live(s.txns[t])
    ensures var g := GrantWrite(s.tables, s.txns[t].held, t, rid);
            var s1 := Saw(WithGrant(s, t, rid, g), t, rid);
            && (g.ok <==> !HeldByOther(s.tables, t, rid))
            && (g.ok ==> HoldsExclusive(s1.tables, rid, t))
            && s1.pages == s.pages && s1.log == s.log
            && s1.history == s.history + [Access(t, Read(rid, Val(s.pages, rid)))]
            && s1.txns[t].phase == s.txns[t].phase && s1.txns[t].writes == s.txns[t].writes
            && s1.txns[t].move == s.txns[t].move && s1.txns[t].prevLsn == s.txns[t].prevLsn
  {
    GrantWriteSound(s.tables, s.txns[t].held, t, rid);
  }

  /** An update is refused exactly when another transaction has the slot locked or no live tuple is
    * there.  If the new tuple fits and is not shorter it is there at once; otherwise a move is
    * noted, with the tuple asked for and the bytes it replaces. */
  lemma {:induction false} UpdateOutcome(s: State, t: TxnId, rid: RID, data: seq<byte>)
    requires Safe(s) && Ready(s, t) && rid.page in s.pages && data != []
    ensures Enabled(s, UpdateTuple(t, rid, data)) && Step(s, UpdateTuple(t, rid, data)).Next?
    ensures var s' := Step(s, UpdateTuple(t, rid, data)).state;
            var p := s.pages[rid.page];
            if HeldByOther(s.tables, t, rid) || !IsLive(p, rid.slot) then Failed(s, s', t)
            else if Fits(p, rid.slot, data) && |p[rid.slot].data| <= |data| then
              Done(s, s', t, rid, Tuple(data, false), UpdateRec(rid, p[rid.slot].data, data),
                   s.txns[t].writes + [UpdateW(rid, p[rid.slot].data, data)], None)
            else MoveNoted(s, s', t, Move(rid, p[rid.slot].data, data, false))
  {
    WriteLockOutcome(s, t, rid);
    OutcomesAreExact(s.pages[rid.page], rid.slot, data, false);
  }

  ghost predicate MoveNoted(s: State, s': State, t: TxnId, m: Move)
    requires t in s.txns
  {
    && s'.pages == s.pages && s'.log == s.log && HoldsExclusive(s'.tables, m.rid, t)
    && s'.history == s.history + [Access(t, Read(m.rid, Val(s.pages, m.rid)))]
    && t in s'.txns && s'.txns[t].phase == s.txns[t].phase && s'.txns[t].writes == s.txns[t].writes
    && s'.txns[t].move == Some(m)
  }

  /** A delete is refused as an update is; otherwise the tuple keeps its bytes and carries the mark. */
  lemma {:induction false} MarkDeleteOutcome(s: State, t: TxnId, rid: RID)
    requires Safe(s) && Ready(s, t) && rid.page in s.pages
    ensures Enabled(s, MarkDelete(t, rid)) && Step(s, MarkDelete(t, rid)).Next?
    ensures var s' := Step(s, MarkDelete(t, rid)).state;
            var p := s.pages[rid.page];
            if HeldByOther(s.tables, t, rid) || !IsLive(p, rid.slot) then Failed(s, s', t)
            else Done(s, s', t, rid, Tuple(p[rid.slot].data, true), MarkDeleteRec(rid),
                      s.txns[t].writes + [DeleteW(rid, p[rid.slot].data)], None)
  {
    WriteLockOutcome(s, t, rid);
  }

  // ---- an update that has to move ----

  /** The old tuple of a noted move is still there; marking it cannot be refused. */
  lemma {:induction false} MoveMarkOutcome(s: State, t: TxnId, m: Move)
    requires Safe(s) && t in s.txns && s.txns[t].phase == Growing && s.txns[t].move == Some(m) && !m.marked
    ensures Enabled(s, MoveMark(t)) && Step(s, MoveMark(t)).Next? && Addressable(s.pages, m.rid)
    ensures Done(s, Step(s, MoveMark(t)).state, t, m.rid, Tuple(m.old_, true), MarkDeleteRec(m.rid),
                 s.txns[t].writes, Some(m.(marked := true)))
  {
    MoveMarkSucceeds(s, t);
    WriteLockOutcome(s, t, m.rid);
  }

  /** The second half of a move puts the tuple asked for into the first empty slot of a page. */
  lemma {:induction false} MoveInsertOutcome(s: State, t: TxnId, page: PageId, m: Move)
    requires Safe(s) && t in s.txns && s.txns[t].phase == Growing && s.txns[t].move == Some(m) && m.marked
    requires page in s.pages
    ensures Enabled(s, MoveInsert(t, page)) && Step(s, MoveInsert(t, page)).Next?
    ensures var s' := Step(s, MoveInsert(t, page)).state;
            var rid := RID(page, FirstEmpty(s.pages[page]));
            if WellFormed(s.pages[page] + [Tuple(m.new_, false)]) && !HeldByOther(s.tables, t, rid)
            then Done(s, s', t, rid, Tuple(m.new_, false), InsertRec(rid, m.new_),
                      s.txns[t].writes + [MoveW(m.rid, rid, m.old_, m.new_)], None)
            else s' == s
  {
    assert m.new_ != [] by { assert TxnOk(s.pages, s.txns[t]); }
    ClaimOutcome(s, t, page, m.new_);
  }

  /** Events of other transactions. */
  predicate ByOthers(es: seq<Event>, t: TxnId) {
    forall i :: 0 <= i < |es| ==> es[i].t != t
  }

  /** Whatever the others do, a transaction keeps its notes, its locks and what they protect. */
  lemma {:induction false} OthersLeave(es: seq<Event>, ss: seq<State>, t: TxnId, k: nat)
    requires Linked(es, ss) && ByOthers(es, t) && k <= |es|
    requires Safe(ss[0]) && t in ss[0].txns && Live(ss[0].txns[t])
    ensures Safe(ss[k]) && t in ss[k].txns && ss[k].txns[t] == ss[0].txns[t]
    ensures forall rid :: rid in ss[0].txns[t].held.exclusive ==> Val(ss[k].pages, rid) == Val(ss[0].pages, rid)
  {
    if k > 0 {
      OthersLeave(es, ss, t, k - 1);
      assert Leads(ss[k - 1], es[k - 1], ss[k - 1 + 1]);
      OneLeaves(ss[k - 1], es[k - 1], ss[k], t);
    }
  }

  lemma {:induction false} OneLeaves(s: State, e: Event, s': State, t: TxnId)
    requires Safe(s) && Leads(s, e, s') && e.t != t && t in s.txns && Live(s.txns[t])
    ensures Safe(s') && t in s'.txns && s'.txns[t] == s.txns[t]
    ensures forall rid :: rid in s.txns[t].held.exclusive ==> Val(s'.pages, rid) == Val(s.pages, rid)
  {
    StepIsOwn(s, e);
    StepKeepsSafe(s, e);
    forall rid | rid in s.txns[t].held.exclusive ensures Val(s'.pages, rid) == Val(s.pages, rid) {
      if Val(s'.pages, rid) != Val(s.pages, rid) {
        assert Live(s'.txns[e.t]);
        LocksExclude(s', t, e.t, rid);
      }
    }
  }

  /** The transaction has the new tuple under one RID and the old one, marked, under another, and
    * has noted both. */
  ghost predicate Moved(s: State, t: TxnId, rid: RID, rid2: RID, old_: seq<byte>, data: seq<byte>) {
    && t in s.txns && s.txns[t].writes != []
    && s.txns[t].writes[|s.txns[t].writes| - 1] == MoveW(rid, rid2, old_, data)
    && HoldsExclusive(s.tables, rid, t) && HoldsExclusive(s.tables, rid2, t)
    && Val(s.pages, rid) == Tuple(old_, true) && Val(s.pages, rid2) == Tuple(data, false)
  }

  lemma {:induction false} MarkedInBetween(es: seq<Event>, ss: seq<State>, t: TxnId, m: Move, s': State)
    requires Linked(es, ss) && ByOthers(es, t) && Leads(ss[|es|], MoveMark(t), s') && !m.marked
    requires Safe(ss[0]) && t in ss[0].txns && ss[0].txns[t].phase == Growing && ss[0].txns[t].move == Some(m)
    ensures Safe(s') && t in s'.txns && s'.txns[t].phase == Growing && s'.txns[t].move == Some(m.(marked := true))
    ensures s'.txns[t].writes == ss[0].txns[t].writes
    ensures Val(s'.pages, m.rid) == Tuple(m.old_, true) && HoldsExclusive(s'.tables, m.rid, t)
  {
    OthersLeave(es, ss, t, |es|);
    MoveMarkOutcome(ss[|es|], t, m);
    StepKeepsSafe(ss[|es|], MoveMark(t));
  }

  lemma {:induction false} InsertedInBetween(fs: seq<Event>, us: seq<State>, t: TxnId, m: Move, page: PageId, s': State)
    requires Linked(fs, us) && ByOthers(fs, t) && m.marked
    requires Safe(us[0]) && t in us[0].txns && us[0].txns[t].phase == Growing && us[0].txns[t].move == Some(m)
    requires Val(us[0].pages, m.rid) == Tuple(m.old_, true) && HoldsExclusive(us[0].tables, m.rid, t)
    requires page in us[|fs|].pages && Leads(us[|fs|], MoveInsert(t, page), s')
    requires var p := us[|fs|].pages[page];
             WellFormed(p + [Tuple(m.new_, false)]) && !HeldByOther(us[|fs|].tables, t, RID(page, FirstEmpty(p)))
    ensures var rid2 := RID(page, FirstEmpty(us[|fs|].pages[page]));
            rid2 != m.rid && Moved(s', t, m.rid, rid2, m.old_, m.new_) && Ready(s', t) && Safe(s')
  {
    var s := us[|fs|];
    OthersLeave(fs, us, t, |fs|);
    assert Agrees(us[0].tables, us[0].txns[t].held, t);
    assert Val(s.pages, m.rid) == Tuple(m.old_, true);
    MoveInsertOutcome(s, t, page, m);
    StepKeepsSafe(s, MoveInsert(t, page));
    KeepsHeld(s, MoveInsert(t, page), m.rid);
    HeldIsInTable(s', t, m.rid);
  }

  lemma KeepsHeld(s: State, e: Event, rid: RID)
    requires Safe(s) && Enabled(s, e) && e.t in s.txns && rid in s.txns[e.t].held.exclusive
    ensures Step(s, e).Next? && e.t in Step(s, e).state.txns && rid in Step(s, e).state.txns[e.t].held.exclusive
  {
    StepIsOwn(s, e);
  }

  lemma HeldIsInTable(s: State, t: TxnId, rid: RID)
    requires Safe(s) && t in s.txns
    ensures rid in s.txns[t].held.exclusive && Live(s.txns[t]) ==> HoldsExclusive(s.tables, rid, t)
  {
    if Live(s.txns[t]) { assert Agrees(s.tables, s.txns[t].held, t); }
  }

  /** What a commit removes carries the mark. */
  lemma {:induction false} CommitKeepsLive(s: State, t: TxnId)
    requires Safe(s) && Ready(s, t)
    ensures forall rid :: rid in Doomed(s.txns[t].writes) ==> Val(s.pages, rid).Tuple? && Val(s.pages, rid).deleted
  {
    var x := s.txns[t];
    assert TxnOk(s.pages, x) && TxnChanges(x) == Changes(x.writes);
    WriteSetIsForward(x.writes);
    forall rid | rid in Doomed(x.writes) ensures Val(s.pages, rid).Tuple? && Val(s.pages, rid).deleted {
      var i :| 0 <= i < |x.writes| && Deleting(x.writes[i]) && x.writes[i].rid == rid;
      var k := DeletingRecords(x.writes, i);
      assert Changes(x.writes)[k] in TxnChanges(x);
      MarkIsFinal(TxnChanges(x), k, rid, Val(s.pages, rid));
    }
  }

  /** A moving update, its three sections separated by whatever the others do: the tuple asked for is live
    * under the new RID, the old one marked.  A commit leaves the one and removes the other. */
  lemma {:induction false} MovedUpdateArrives(s: State, t: TxnId, rid: RID, data: seq<byte>, es: seq<Event>, ss: seq<State>,
                                              fs: seq<Event>, us: seq<State>, page: PageId, s': State)
    requires Safe(s) && Ready(s, t) && rid.page in s.pages && data != []
    requires !HeldByOther(s.tables, t, rid) && IsLive(s.pages[rid.page], rid.slot)
    requires !(Fits(s.pages[rid.page], rid.slot, data) && |s.pages[rid.page][rid.slot].data| <= |data|)
    requires Linked(es, ss) && ByOthers(es, t) && Leads(s, UpdateTuple(t, rid, data), ss[0])
    requires Linked(fs, us) && ByOthers(fs, t) && Leads(ss[|es|], MoveMark(t), us[0])
    requires page in us[|fs|].pages && Leads(us[|fs|], MoveInsert(t, page), s')
    requires var p := us[|fs|].pages[page];
             WellFormed(p + [Tuple(data, false)]) && !HeldByOther(us[|fs|].tables, t, RID(page, FirstEmpty(p)))
    ensures var old_ := s.pages[rid.page][rid.slot].data;
            var rid2 := RID(page, FirstEmpty(us[|fs|].pages[page]));
            && rid2 != rid && Moved(s', t, rid, rid2, old_, data) && Ready(s', t) && Safe(s')
            && (forall c: State :: CommitEffect(s', c, t) ==> Val(c.pages, rid) == Empty && Val(c.pages, rid2) == Tuple(data, false))
  {
    var m := Move(rid, s.pages[rid.page][rid.slot].data, data, false);
    StepKeepsSafe(s, UpdateTuple(t, rid, data));
    UpdateOutcome(s, t, rid, data);
    MarkedInBetween(es, ss, t, m, us[0]);
    InsertedInBetween(fs, us, t, m.(marked := true), page, s');
    CommitKeepsLive(s', t);
  }
}
