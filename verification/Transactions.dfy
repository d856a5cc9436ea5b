/** Interleaved runs of transactions over slotted pages.  One event is one section
  * that the source performs under a page latch (or inside the lock or transaction
  * manager's mutex); between two sections of one transaction any other transaction
  * may act.  Commit and abort are therefore broken into one event per write record. */
module Transactions {
  import opened Wrappers
  import opened Bytes
  import opened SlottedPage
  import opened LockTable

  type PageId = int
  type Pages = map<PageId, Page>

  function Val(ps: Pages, rid: RID): Slot {
    if rid.page in ps then At(ps[rid.page], rid.slot) else Empty
  }

  predicate Addressable(ps: Pages, rid: RID) {
    rid.page in ps && rid.slot <= |ps[rid.page]|
  }

  function PutVal(ps: Pages, rid: RID, s: Slot): (qs: Pages)
    requires Addressable(ps, rid)
    ensures qs.Keys == ps.Keys
    ensures forall r :: Val(qs, r) == if r == rid then s else Val(ps, r)
  {
    ps[rid.page := Put(ps[rid.page], rid.slot, s)]
  }

  // ---- what a transaction remembers ----

  datatype WriteRecord =
    | InsertW(rid: RID, data: seq<byte>)
    | DeleteW(rid: RID, data: seq<byte>)
    | UpdateW(rid: RID, old_: seq<byte>, new_: seq<byte>)
    | MoveW(rid: RID, rid2: RID, old_: seq<byte>, new_: seq<byte>)

  /** An update that has to leave its slot: the old tuple is marked first, then the new
    * one is inserted elsewhere, and only then is the write record made. */
  datatype Move = Move(rid: RID, old_: seq<byte>, new_: seq<byte>, marked: bool)

  datatype Phase = Growing | Aborted | Committing | Committed | Aborting | Ended

  /** `before` is a history variable: the slot found under each RID when it was locked for writing. */
  datatype Txn = Txn(phase: Phase, held: Held, writes: seq<WriteRecord>, move: Option<Move>,
                     before: map<RID, Slot>, prevLsn: int)

  datatype LogBody =
    | BeginRec | CommitRec | AbortRec
    | InsertRec(rid: RID, data: seq<byte>)
    | MarkDeleteRec(rid: RID)
    | ApplyDeleteRec(rid: RID, data: seq<byte>)
    | RollbackDeleteRec(rid: RID)
    | UpdateRec(rid: RID, old_: seq<byte>, new_: seq<byte>)

  /** The record at index `i` of the log has LSN `i`. */
  datatype LogRecord = LogRecord(txn: TxnId, prev: int, body: LogBody)

  datatype Op = Read(rid: RID, val: Slot) | Write(rid: RID, val: Slot)
  datatype Action = Access(txn: TxnId, op: Op) | Commit(txn: TxnId) | End(txn: TxnId)

  datatype State = State(pages: Pages, tables: Tables, txns: map<TxnId, Txn>,
                         log: seq<LogRecord>, history: seq<Action>)

  /** A step of the code either panics or leads to a next state. */
  datatype Result = Panic | Next(state: State)

  datatype Event =
    | Begin(t: TxnId)
    | GetTuple(t: TxnId, rid: RID)
    | InsertTuple(t: TxnId, page: PageId, data: seq<byte>)
    | UpdateTuple(t: TxnId, rid: RID, data: seq<byte>)
    | MarkDelete(t: TxnId, rid: RID)
    | MoveMark(t: TxnId)
    | MoveInsert(t: TxnId, page: PageId)
    | StartCommit(t: TxnId)
    | CommitStep(t: TxnId)
    | LogCommit(t: TxnId)
    | StartAbort(t: TxnId)
    | UndoStep(t: TxnId)
    | ReleaseLocks(t: TxnId)

  function Initial(ps: Pages): State {
    State(ps, Tables(map[], map[]), map[], [], [])
  }

  // ---- the pieces the events are made of ----

  function WithGrant(s: State, t: TxnId, rid: RID, g: Grant): State
    requires t in s.txns
  {
    var x := s.txns[t];
    var x' := x.(held := g.held,
                 before := if rid in g.held.exclusive && rid !in x.before
                           then x.before[rid := Val(s.pages, rid)] else x.before);
    s.(tables := g.tables, txns := s.txns[t := x'])
  }

  function Doom(s: State, t: TxnId): State
    requires t in s.txns
  {
    s.(txns := s.txns[t := s.txns[t].(phase := Aborted)])
  }

  function Saw(s: State, t: TxnId, rid: RID): State {
    s.(history := s.history + [Access(t, Read(rid, Val(s.pages, rid)))])
  }

  /** Slot write, its log record, and the transaction's bookkeeping `x`. */
  function Wrote(s: State, t: TxnId, rid: RID, slot: Slot, body: LogBody, x: Txn): State
    requires t in s.txns && Addressable(s.pages, rid)
  {
    s.(pages := PutVal(s.pages, rid, slot),
       history := s.history + [Access(t, Write(rid, slot))],
       log := s.log + [LogRecord(t, x.prevLsn, body)],
       txns := s.txns[t := x.(prevLsn := |s.log|)])
  }

  function Record(x: Txn, w: WriteRecord): Txn {
    x.(writes := x.writes + [w])
  }

  function Popped(x: Txn): Txn
    requires x.writes != []
  {
    x.(writes := x.writes[..|x.writes| - 1])
  }

  predicate Marked(slot: Slot) {
    slot.Empty? || slot.deleted
  }

  // ---- the events ----

  predicate Enabled(s: State, e: Event) {
    if e.Begin? then e.t !in s.txns
    else
      && e.t in s.txns
      && var x := s.txns[e.t];
      match e
      case GetTuple(_, rid) => x.phase == Growing && x.move.None? && rid.page in s.pages
      case InsertTuple(_, page, data) => x.phase == Growing && x.move.None? && page in s.pages && data != []
      case UpdateTuple(_, rid, data) => x.phase == Growing && x.move.None? && rid.page in s.pages && data != []
      case MarkDelete(_, rid) => x.phase == Growing && x.move.None? && rid.page in s.pages
      case MoveMark(_) => x.phase == Growing && x.move.Some? && !x.move.value.marked
      case MoveInsert(_, page) => x.phase == Growing && x.move.Some? && x.move.value.marked && page in s.pages
      case StartCommit(_) => x.phase == Growing && x.move.None?
      case CommitStep(_) => x.phase == Committing && x.writes != []
      case LogCommit(_) => x.phase == Committing && x.writes == []
      case StartAbort(_) => (x.phase == Growing || x.phase == Aborted) && x.move.None?
      case UndoStep(_) => x.phase == Aborting && x.writes != []
      case ReleaseLocks(_) => x.phase == Committed || (x.phase == Aborting && x.writes == [])
      case Begin(_) => true
  }

  function DoBegin(s: State, t: TxnId): State {
    s.(txns := s.txns[t := Txn(Growing, Held([], []), [], None, map[], |s.log|)],
       log := s.log + [LogRecord(t, -1, BeginRec)])
  }

  function DoGetTuple(s: State, t: TxnId, rid: RID): State
    requires t in s.txns && rid.page in s.pages
  {
    var g := GrantRead(s.tables, s.txns[t].held, t, rid);
    if !g.ok then Doom(s, t)
    else
      var s1 := Saw(WithGrant(s, t, rid, g), t, rid);
      if rid.slot >= |s.pages[rid.page]| then Doom(s1, t)
      else if Marked(Val(s.pages, rid)) && rid !in g.held.exclusive then Doom(s1, t)
      else s1
  }

  /** The page part of an insert; `None` when the page has no room or the slot's lock is refused. */
  function InsertTarget(s: State, t: TxnId, page: PageId, data: seq<byte>): Option<RID>
    requires t in s.txns && page in s.pages
  {
    var p := s.pages[page];
    if !HasRoom(p, |data|) then None
    else
      var rid := RID(page, FirstEmpty(p));
      if GrantExclusive(s.tables, s.txns[t].held, t, rid).ok then Some(rid) else None
  }

  /** Lock the chosen slot, see that it is empty. */
  function Claim(s: State, t: TxnId, rid: RID): State
    requires t in s.txns
  {
    Saw(WithGrant(s, t, rid, GrantExclusive(s.tables, s.txns[t].held, t, rid)), t, rid)
  }

  function DoInsert(s: State, t: TxnId, page: PageId, data: seq<byte>): State
    requires t in s.txns && page in s.pages
  {
    match InsertTarget(s, t, page, data)
    case None => s
    case Some(rid) =>
      var s1 := Claim(s, t, rid);
      Wrote(s1, t, rid, Tuple(data, false), InsertRec(rid, data), Record(s1.txns[t], InsertW(rid, data)))
  }

  function DoUpdate(s: State, t: TxnId, rid: RID, data: seq<byte>): State
    requires t in s.txns && rid.page in s.pages
  {
    var g := GrantWrite(s.tables, s.txns[t].held, t, rid);
    if !g.ok then Doom(s, t) else UpdateLocked(Saw(WithGrant(s, t, rid, g), t, rid), t, rid, data)
  }

  /** The update once the lock is held: in place, or by a move that has still to be made. */
  function UpdateLocked(s: State, t: TxnId, rid: RID, data: seq<byte>): State
    requires t in s.txns && rid.page in s.pages
  {
    var x := s.txns[t];
    var p := s.pages[rid.page];
    match UpdateOutcomeOf(p, rid.slot, |data|, false)
    case InvalidSlot => Doom(s, t)
    case Deleted => Doom(s, t)
    case Updated =>
      var old_ := p[rid.slot].data;
      Wrote(s, t, rid, Tuple(data, false), UpdateRec(rid, old_, data), Record(x, UpdateW(rid, old_, data)))
    case _ =>
      s.(txns := s.txns[t := x.(move := Some(Move(rid, p[rid.slot].data, data, false)))])
  }

  function DoMarkDelete(s: State, t: TxnId, rid: RID): State
    requires t in s.txns && rid.page in s.pages
  {
    var g := GrantWrite(s.tables, s.txns[t].held, t, rid);
    if !g.ok then Doom(s, t)
    else
      var s1 := Saw(WithGrant(s, t, rid, g), t, rid);
      var slot := Val(s.pages, rid);
      if Marked(slot) then Doom(s1, t)
      else Wrote(s1, t, rid, Tuple(slot.data, true), MarkDeleteRec(rid),
                 Record(s1.txns[t], DeleteW(rid, slot.data)))
  }

  /** The delete half of a moving update: same page operation, no write record yet. */
  function DoMoveMark(s: State, t: TxnId): State
    requires t in s.txns && s.txns[t].move.Some?
  {
    var m := s.txns[t].move.value;
    var g := GrantWrite(s.tables, s.txns[t].held, t, m.rid);
    if !g.ok then Doom(s, t)
    else
      var s1 := Saw(WithGrant(s, t, m.rid, g), t, m.rid);
      var slot := Val(s.pages, m.rid);
      if Marked(slot) then Doom(s1, t)
      else Wrote(s1, t, m.rid, Tuple(slot.data, true), MarkDeleteRec(m.rid),
                 s1.txns[t].(move := Some(m.(marked := true))))
  }

  function DoMoveInsert(s: State, t: TxnId, page: PageId): State
    requires t in s.txns && s.txns[t].move.Some? && page in s.pages
  {
    var m := s.txns[t].move.value;
    match InsertTarget(s, t, page, m.new_)
    case None => s
    case Some(rid) =>
      var s1 := Claim(s, t, rid);
      Wrote(s1, t, rid, Tuple(m.new_, false), InsertRec(rid, m.new_),
            Record(s1.txns[t], MoveW(m.rid, rid, m.old_, m.new_)).(move := None))
  }

  function WithPhase(s: State, t: TxnId, phase: Phase): State
    requires t in s.txns
  {
    s.(txns := s.txns[t := s.txns[t].(phase := phase)])
  }

  /** `TablePage.ApplyDelete` and its assertions. */
  function ApplyDelete(s: State, t: TxnId, rid: RID, x: Txn): Result
    requires t in s.txns
  {
    var slot := Val(s.pages, rid);
    if slot.Empty? || rid !in x.held.exclusive then Panic
    else Next(Wrote(s, t, rid, Empty, ApplyDeleteRec(rid, slot.data), x))
  }

  /** `TablePage.RollbackDelete` and its assertions. */
  function RollbackDelete(s: State, t: TxnId, rid: RID, x: Txn): Result
    requires t in s.txns
  {
    var slot := Val(s.pages, rid);
    if slot.Empty? || rid !in x.held.exclusive then Panic
    else Next(Wrote(s, t, rid, Tuple(slot.data, false), RollbackDeleteRec(rid), x))
  }

  function DoCommitStep(s: State, t: TxnId): Result
    requires t in s.txns && s.txns[t].writes != []
  {
    var x := s.txns[t];
    match x.writes[|x.writes| - 1]
    case DeleteW(rid, _) => ApplyDelete(s, t, rid, Popped(x))
    case MoveW(rid, _, _, _) => ApplyDelete(s, t, rid, Popped(x))
    case _ => Next(s.(txns := s.txns[t := Popped(x)]))
  }

  function DoLogCommit(s: State, t: TxnId): State
    requires t in s.txns
  {
    var x := s.txns[t];
    s.(log := s.log + [LogRecord(t, x.prevLsn, CommitRec)],
       history := s.history + [Commit(t)],
       txns := s.txns[t := x.(phase := Committed, prevLsn := |s.log|)])
  }

  /** One record undone.  A moved tuple takes two page sections: once the copy is gone the
    * work left is that of a plain delete record. */
  function DoUndoStep(s: State, t: TxnId): Result
    requires t in s.txns && s.txns[t].writes != []
  {
    var x := s.txns[t];
    match x.writes[|x.writes| - 1]
    case InsertW(rid, _) => ApplyDelete(s, t, rid, Popped(x))
    case DeleteW(rid, _) => RollbackDelete(s, t, rid, Popped(x))
    case MoveW(rid, rid2, old_, _) => ApplyDelete(s, t, rid2, Record(Popped(x), DeleteW(rid, old_)))
    case UpdateW(rid, old_, _) =>
      var g := GrantWrite(s.tables, x.held, t, rid);
      if rid.page !in s.pages || !g.ok || UpdateOutcomeOf(s.pages[rid.page], rid.slot, |old_|, true) != Updated
      then Panic
      else
        var s1 := WithGrant(s, t, rid, g);
        Next(Wrote(s1, t, rid, Tuple(old_, false), UpdateRec(rid, Val(s.pages, rid).data, old_),
                   Popped(s1.txns[t])))
  }

  function DoRelease(s: State, t: TxnId): State
    requires t in s.txns
  {
    var x := s.txns[t];
    var log' := if x.phase == Aborting then s.log + [LogRecord(t, x.prevLsn, AbortRec)] else s.log;
    s.(tables := Release(s.tables, t, x.held.exclusive + x.held.shared),
       history := s.history + [End(t)],
       log := log',
       txns := s.txns[t := x.(phase := Ended, prevLsn := if x.phase == Aborting then |s.log| else x.prevLsn)])
  }

  function Step(s: State, e: Event): Result
    requires Enabled(s, e)
  {
    match e
    case Begin(t) => Next(DoBegin(s, t))
    case GetTuple(t, rid) => Next(DoGetTuple(s, t, rid))
    case InsertTuple(t, page, data) => Next(DoInsert(s, t, page, data))
    case UpdateTuple(t, rid, data) => Next(DoUpdate(s, t, rid, data))
    case MarkDelete(t, rid) => Next(DoMarkDelete(s, t, rid))
    case MoveMark(t) => Next(DoMoveMark(s, t))
    case MoveInsert(t, page) => Next(DoMoveInsert(s, t, page))
    case StartCommit(t) => Next(WithPhase(s, t, Committing))
    case CommitStep(t) => DoCommitStep(s, t)
    case LogCommit(t) => Next(DoLogCommit(s, t))
    case StartAbort(t) => Next(WithPhase(s, t, Aborting))
    case UndoStep(t) => DoUndoStep(s, t)
    case ReleaseLocks(t) => Next(DoRelease(s, t))
  }

  /** A run: every event is one its transaction could issue at that point. */
  function Run(ps: Pages, events: seq<Event>): Option<Result> {
    if events == [] then Some(Next(Initial(ps)))
    else
      var n := |events| - 1;
      match Run(ps, events[..n])
      case Some(Next(s)) => if Enabled(s, events[n]) then Some(Step(s, events[n])) else None
      case _ => None
  }

  predicate WellFormedPages(ps: Pages) {
    forall id :: id in ps ==> WellFormed(ps[id])
  }
}
