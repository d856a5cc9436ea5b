/** The log of an interleaved run, in step with its pages and its transactions: redoing it repeats
  * history, and undoing a loser's chain takes back what the loser changed. */
module RecoveryTheorem {
  import opened Wrappers
  import opened Bytes
  import opened SlottedPage
  import opened LockTable
  import opened Transactions
  import opened TransactionSafety
  import opened Serializability
  import opened Precedence
  import opened Recovery

  // ---- what recovery can be asked of a log ----

  /** No record replaces a tuple by a shorter one: what was rolled back had not lengthened it. */
  ghost predicate NeverShrinks(log: seq<LogRecord>) {
    forall i :: 0 <= i < |log| && log[i].body.UpdateRec? ==> |log[i].body.old_| <= |log[i].body.new_|
  }

  ghost predicate AbortedIn(log: seq<LogRecord>, t: TxnId) {
    exists k :: 0 <= k < |log| && log[k].txn == t && log[k].body.AbortRec?
  }

  /** What a transaction wrote before it aborted nobody else has written since. */
  ghost predicate Unfollowed(log: seq<LogRecord>) {
    forall i, j :: 0 <= i < j < |log| && SameRid(log[i].body, log[j].body) && AbortedIn(log, log[i].txn) ==>
      log[j].txn == log[i].txn
  }

  predicate SameRid(a: LogBody, b: LogBody) {
    RidOf(a).Some? && RidOf(b) == RidOf(a)
  }

  /** Ended by an ABORT record: redo goes on counting such a transaction as a loser. */
  predicate GaveUp(log: seq<LogRecord>, x: Txn) {
    x.phase == Ended && 0 <= x.prevLsn < |log| && log[x.prevLsn].body.AbortRec?
  }

  predicate CommitLogged(log: seq<LogRecord>, x: Txn) {
    x.phase == Committed ==> 0 <= x.prevLsn < |log| && log[x.prevLsn].body.CommitRec?
  }

  predicate Pending(log: seq<LogRecord>, x: Txn) { Open(x) || GaveUp(log, x) }

  /** Nobody without a COMMIT has physically deleted anything. */
  ghost predicate LosersAppliedNothing(log: seq<LogRecord>) {
    forall i :: 0 <= i < |log| && log[i].body.ApplyDeleteRec? ==> log[i].txn !in ActiveAfter(log)
  }

  // ---- the log of a run, in step with its pages and its transactions ----

  /** Page operations on a transaction's chain, oldest first. */
  function ChainBodies(log: seq<LogRecord>, lsn: int): seq<LogBody>
    requires ChainsDown(log) && -1 <= lsn < |log|
    decreases lsn
  {
    if lsn == -1 then []
    else
      ChainBodies(log, log[lsn].prev) + if PageOf(log[lsn].body).Some? then [log[lsn].body] else []
  }

  predicate Describes(body: LogBody, c: Change) {
    match c
    case Inserted(rid, data) => body == InsertRec(rid, data)
    case Flagged(rid, _) => body == MarkDeleteRec(rid)
    case Replaced(rid, old_, new_) => body == UpdateRec(rid, old_, new_)
    case Unflagged(rid, _) => body == RollbackDeleteRec(rid)
  }

  ghost predicate AllDescribe(bodies: seq<LogBody>, cs: seq<Change>) {
    |bodies| == |cs| && forall i :: 0 <= i < |cs| ==> Describes(bodies[i], cs[i])
  }

  /** Undoing `cs` takes every RID the transaction locked back to what it found. */
  ghost predicate TakesBack(ps: Pages, x: Txn, cs: seq<Change>) {
    && (forall c :: c in cs ==> c.rid in x.held.exclusive)
    && (forall rid :: rid in x.held.exclusive && rid in x.before ==>
          Rewind(cs, rid, Val(ps, rid)) == Some(x.before[rid]))
  }

  ghost predicate Recoverable(ps: Pages, x: Txn, bodies: seq<LogBody>) {
    exists cs :: AllDescribe(bodies, cs) && TakesBack(ps, x, cs)
  }

  ghost predicate Applied(bodies: seq<LogBody>) {
    exists i :: 0 <= i < |bodies| && bodies[i].ApplyDeleteRec?
  }

  /** Undoing `cs` on the values the transaction found leads back to these values. */
  ghost predicate Cancels(x: Txn, cs: seq<Change>) {
    && (forall c :: c in cs ==> c.rid in x.held.exclusive)
    && (forall rid :: rid in x.held.exclusive ==>
          rid in x.before && Rewind(cs, rid, x.before[rid]) == Some(x.before[rid]))
  }

  ghost predicate Cancelled(x: Txn, bodies: seq<LogBody>) {
    exists cs :: AllDescribe(bodies, cs) && Cancels(x, cs)
  }

  ghost predicate ChainOk(ps: Pages, x: Txn, bodies: seq<LogBody>) {
    && ((x.phase == Growing || x.phase == Aborted) ==> AllDescribe(bodies, TxnChanges(x)))
    && (x.phase == Committing || x.phase == Aborting ==> Applied(bodies) || Recoverable(ps, x, bodies))
    && (x.phase == Ended ==> Applied(bodies) || Cancelled(x, bodies))
  }

  ghost predicate Repeats(ps: Pages, s: State) {
    && s.pages.Keys == ps.Keys
    && (forall id :: id in ps ==> PageAfter(ps[id], id, s.log) == Some(s.pages[id]))
    && (forall i :: 0 <= i < |s.log| && PageOf(s.log[i].body).Some? ==> PageOf(s.log[i].body).value in ps)
    && StartsWithBegin(s.log)
    && (s.txns == map[] || s.log != [])
  }

  ghost predicate ChainsOwn(log: seq<LogRecord>) {
    ChainsDown(log) && forall i :: 0 <= i < |log| && log[i].prev >= 0 ==> log[log[i].prev].txn == log[i].txn
  }

  ghost predicate Tracks(s: State) {
    && ChainsOwn(s.log)
    && (forall t :: t in s.txns ==> 0 <= s.txns[t].prevLsn < |s.log| && s.log[s.txns[t].prevLsn].txn == t)
    && ActiveIs(ActiveAfter(s.log), s.log, s.txns)
  }

  ghost predicate ActiveIs(active: map<TxnId, int>, log: seq<LogRecord>, txns: map<TxnId, Txn>) {
    && (forall t :: t in active <==> t in txns && Pending(log, txns[t]))
    && (forall t :: t in active ==> active[t] == txns[t].prevLsn)
  }

  ghost predicate RecordLocked(s: State, i: int)
    requires 0 <= i < |s.log|
  {
    var r := s.log[i];
    r.txn in s.txns && (RidOf(r.body).Some? && Live(s.txns[r.txn]) ==> RidOf(r.body).value in s.txns[r.txn].held.exclusive)
  }

  /** Page records are made under exclusive locks, kept to the end. */
  ghost predicate WritesLocked(s: State) {
    && (forall i {:trigger RecordLocked(s, i)} :: 0 <= i < |s.log| ==> RecordLocked(s, i))
    && (forall i, j :: 0 <= i < j < |s.log| && SameRid(s.log[i].body, s.log[j].body) && s.log[i].txn != s.log[j].txn ==>
          s.log[i].txn in s.txns && !Live(s.txns[s.log[i].txn]))
  }

  ghost predicate NotWrittenFrom(log: seq<LogRecord>, from: int, rid: RID) {
    forall j :: from <= j < |log| && 0 <= j ==> RidOf(log[j].body) != Some(rid)
  }

  /** What an aborted transaction found is there until somebody writes. */
  ghost predicate StillThere(s: State, t: TxnId)
    requires t in s.txns
  {
    var x := s.txns[t];
    forall rid :: rid in x.held.exclusive && NotWrittenFrom(s.log, x.prevLsn, rid) ==>
      rid in x.before && Val(s.pages, rid) == x.before[rid]
  }

  ghost predicate LogOk(ps: Pages, s: State) {
    && Repeats(ps, s)
    && Tracks(s)
    && WritesLocked(s)
    && (forall t :: t in s.txns && GaveUp(s.log, s.txns[t]) ==> StillThere(s, t))
    && (forall t :: t in s.txns ==> CommitLogged(s.log, s.txns[t]))
    && (forall t :: t in s.txns && Pending(s.log, s.txns[t]) ==>
          ChainOk(s.pages, s.txns[t], ChainBodies(s.log, s.txns[t].prevLsn)))
  }

  // ---- what one step does to the log ----

  function PrevOf(s: State, t: TxnId): int {
    if t in s.txns then s.txns[t].prevLsn else -1
  }

  /** At most one record, chained to the transaction's last, describing exactly the page change. */
  ghost predicate LogStep(s: State, s': State, t: TxnId) {
    t in s'.txns && CommitLogged(s'.log, s'.txns[t]) &&
    (GaveUp(s'.log, s'.txns[t]) ==> FoundAgain(s'.pages, s'.txns[t])) &&
    if s'.log == s.log then
      s'.pages == s.pages && t in s.txns && s'.txns[t].prevLsn == s.txns[t].prevLsn
      && (Pending(s.log, s.txns[t]) <==> Pending(s'.log, s'.txns[t]))
    else
      && s'.txns[t].prevLsn == |s.log|
      && |s'.log| == |s.log| + 1 && s'.log[..|s.log|] == s.log
      && s'.log[|s.log|].txn == t && s'.log[|s.log|].prev == PrevOf(s, t)
      && (t in s.txns ==> Open(s.txns[t]))
      && (Pending(s'.log, s'.txns[t]) <==> !s'.log[|s.log|].body.CommitRec?)
      && (t !in s.txns ==> s'.log[|s.log|].body.BeginRec?)
      && PageChange(s.pages, s'.pages, s'.log[|s.log|].body)
      && OnlyUnderLock(s, s', t, s'.log[|s.log|].body)
  }

  /** A page record is made by a live transaction with the exclusive lock, and names the one slot that changes. */
  ghost predicate OnlyUnderLock(s: State, s': State, t: TxnId, body: LogBody)
    requires t in s'.txns
  {
    && (RidOf(body).Some? ==> Live(s'.txns[t]) && RidOf(body).value in s'.txns[t].held.exclusive)
    && (forall r :: Val(s'.pages, r) != Val(s.pages, r) ==> RidOf(body) == Some(r))
  }

  ghost predicate FoundAgain(ps: Pages, x: Txn) {
    forall rid :: rid in x.held.exclusive ==> rid in x.before && Val(ps, rid) == x.before[rid]
  }

  ghost predicate PageChange(ps: Pages, qs: Pages, body: LogBody) {
    match PageOf(body)
    case None => qs == ps
    case Some(id) => id in ps && RedoOn(ps[id], body).Some? && qs == ps[id := RedoOn(ps[id], body).value]
  }

  lemma {:induction false} LogStepKeepsRepeats(ps: Pages, s: State, s': State, t: TxnId)
    requires Repeats(ps, s) && LogStep(s, s', t) && (s.txns == map[] ==> t !in s.txns) && (t in s.txns ==> s.log != [])
    requires s'.txns != map[]
    ensures Repeats(ps, s')
  {
    if s'.log != s.log {
      assert s'.log[..|s'.log| - 1] == s.log;
      assert forall i :: 0 <= i < |s.log| ==> s'.log[i] == s.log[i];
    }
  }

  lemma {:induction false} LogStepKeepsChains(s: State, s': State, t: TxnId)
    requires Tracks(s) && LogStep(s, s', t)
    ensures ChainsOwn(s'.log)
  {
    if s'.log != s.log {
      assert forall i :: 0 <= i < |s.log| ==> s'.log[i] == s.log[i];
      assert PrevOf(s, t) >= 0 ==> s.log[PrevOf(s, t)].txn == t;
    }
  }

  lemma {:induction false} LogStepKeepsActive(s: State, s': State, t: TxnId)
    requires Tracks(s) && LogStep(s, s', t)
    requires forall u :: u != t ==> (u in s.txns <==> u in s'.txns)
    requires forall u :: u != t && u in s.txns ==> s'.txns[u] == s.txns[u]
    ensures ActiveIs(ActiveAfter(s'.log), s'.log, s'.txns)
  {
    if s'.log != s.log {
      var r := s'.log[|s.log|];
      assert s'.log[..|s'.log| - 1] == s.log;
      var a := ActiveAfter(s.log)[t := |s.log|];
      assert ActiveAfter(s'.log) == if r.body.CommitRec? then a - {t} else a;
    }
  }

  lemma {:induction false} LogStepKeepsTracks(s: State, s': State, t: TxnId)
    requires Tracks(s) && LogStep(s, s', t)
    requires forall u :: u != t ==> (u in s.txns <==> u in s'.txns)
    requires forall u :: u != t && u in s.txns ==> s'.txns[u] == s.txns[u]
    ensures Tracks(s')
  {
    LogStepKeepsChains(s, s', t);
    LogStepKeepsActive(s, s', t);
    forall u | u in s'.txns ensures 0 <= s'.txns[u].prevLsn < |s'.log| && s'.log[s'.txns[u].prevLsn].txn == u {
      if u != t { assert s'.log[s.txns[u].prevLsn] == s.log[s.txns[u].prevLsn]; }
    }
  }

  lemma {:induction false} LogStepKeepsLocked(s: State, s': State, t: TxnId)
    requires WritesLocked(s) && Safe(s') && OwnStep(s, s', t) && LogStep(s, s', t)
    ensures WritesLocked(s')
  {
    forall i: nat | i < |s'.log| ensures RecordLocked(s', i) { RecordStaysLocked(s, s', t, i); }
    forall i: nat, j: nat | i < j < |s'.log| && SameRid(s'.log[i].body, s'.log[j].body) && s'.log[i].txn != s'.log[j].txn
      ensures s'.log[i].txn in s'.txns && !Live(s'.txns[s'.log[i].txn])
    {
      if s'.log != s.log && j == |s.log| { EarlierHasEnded(s, s', t, i); } else { EarlierStaysEnded(s, s', t, i, j); }
    }
  }

  lemma {:induction false} RecordStaysLocked(s: State, s': State, t: TxnId, i: nat)
    requires WritesLocked(s) && OwnStep(s, s', t) && LogStep(s, s', t) && i < |s'.log|
    ensures RecordLocked(s', i)
  {
    if i < |s.log| { assert s'.log[i] == s.log[i] && RecordLocked(s, i); }
  }

  lemma {:induction false} EarlierStaysEnded(s: State, s': State, t: TxnId, i: nat, j: nat)
    requires WritesLocked(s) && OwnStep(s, s', t) && LogStep(s, s', t) && i < j < |s.log|
    requires SameRid(s'.log[i].body, s'.log[j].body) && s'.log[i].txn != s'.log[j].txn
    ensures s'.log[i].txn in s'.txns && !Live(s'.txns[s'.log[i].txn])
  {
    assert s'.log[i] == s.log[i] && s'.log[j] == s.log[j];
    assert RecordLocked(s, i);
  }

  lemma {:induction false} EarlierHasEnded(s: State, s': State, t: TxnId, i: nat)
    requires WritesLocked(s) && Safe(s') && OwnStep(s, s', t) && LogStep(s, s', t) && s'.log != s.log
    requires i < |s.log| && SameRid(s'.log[i].body, s'.log[|s.log|].body) && s'.log[i].txn != t
    ensures s'.log[i].txn in s'.txns && !Live(s'.txns[s'.log[i].txn])
  {
    assert s'.log[i] == s.log[i] && RecordLocked(s, i);
    var u, rid := s.log[i].txn, RidOf(s'.log[|s.log|].body).value;
    if Live(s.txns[u]) { LocksExclude(s', t, u, rid); }
  }

  lemma {:induction false} StillThereAfter(ps: Pages, s: State, s': State, t: TxnId, u: TxnId)
    requires LogOk(ps, s) && OwnStep(s, s', t) && LogStep(s, s', t) && u in s'.txns && GaveUp(s'.log, s'.txns[u])
    ensures StillThere(s', u)
  {
    if u != t {
      var x := s.txns[u];
      if s'.log != s.log { assert forall i :: 0 <= i < |s.log| ==> s'.log[i] == s.log[i]; }
      assert GaveUp(s.log, x);
      forall rid | rid in x.held.exclusive && NotWrittenFrom(s'.log, x.prevLsn, rid)
        ensures rid in x.before && Val(s'.pages, rid) == x.before[rid]
      {
        assert NotWrittenFrom(s.log, x.prevLsn, rid);
        if s'.log != s.log { assert RidOf(s'.log[|s.log|].body) != Some(rid); }
      }
    }
  }

  lemma {:induction false} ChainExtends(log: seq<LogRecord>, log': seq<LogRecord>, lsn: int)
    requires ChainsDown(log) && ChainsDown(log') && |log| <= |log'| && log'[..|log|] == log
    requires -1 <= lsn < |log|
    ensures ChainBodies(log', lsn) == ChainBodies(log, lsn)
    decreases lsn
  {
    if lsn >= 0 {
      assert log'[lsn] == log[lsn];
      ChainExtends(log, log', log[lsn].prev);
    }
  }

  lemma {:induction false} FrameChainOk(ps: Pages, qs: Pages, x: Txn, bodies: seq<LogBody>)
    requires ChainOk(ps, x, bodies) && forall r :: r in x.held.exclusive ==> Val(qs, r) == Val(ps, r)
    ensures ChainOk(qs, x, bodies)
  {
    if (x.phase == Committing || x.phase == Aborting) && !Applied(bodies) {
      var cs :| AllDescribe(bodies, cs) && TakesBack(ps, x, cs);
      assert TakesBack(qs, x, cs);
    }
  }

  /** The chain of the stepping transaction, before and after. */
  function BodiesOf(s: State, t: TxnId): seq<LogBody>
    requires ChainsDown(s.log) && -1 <= PrevOf(s, t) < |s.log|
  {
    ChainBodies(s.log, PrevOf(s, t))
  }

  lemma {:induction false} OwnChainOk(s: State, s': State, t: TxnId)
    requires Tracks(s) && Tracks(s') && LogStep(s, s', t) && Pending(s'.log, s'.txns[t])
    requires forall bodies :: NewChain(s, s', t, bodies) ==> ChainOk(s'.pages, s'.txns[t], bodies)
    ensures ChainOk(s'.pages, s'.txns[t], ChainBodies(s'.log, s'.txns[t].prevLsn))
  {
    if s'.log != s.log {
      var r := s'.log[|s.log|];
      ChainExtends(s.log, s'.log, r.prev);
      assert ChainBodies(s'.log, |s.log|) == ChainBodies(s'.log, r.prev) + Own(r.body);
    }
    assert NewChain(s, s', t, ChainBodies(s'.log, s'.txns[t].prevLsn));
  }

  lemma {:induction false} OtherChainOk(s: State, s': State, t: TxnId, u: TxnId)
    requires Safe(s') && Tracks(s) && Tracks(s') && OwnStep(s, s', t) && |s.log| <= |s'.log| && s'.log[..|s.log|] == s.log
    requires u != t && u in s.txns && Pending(s.log, s.txns[u])
    requires ChainOk(s.pages, s.txns[u], ChainBodies(s.log, s.txns[u].prevLsn))
    ensures ChainOk(s'.pages, s'.txns[u], ChainBodies(s'.log, s'.txns[u].prevLsn))
  {
    var x := s.txns[u];
    ChainExtends(s.log, s'.log, x.prevLsn);
    if Live(x) {
      forall r | r in x.held.exclusive ensures Val(s'.pages, r) == Val(s.pages, r) {
        OthersSlotsKept(s, s', t, u, r);
      }
      FrameChainOk(s.pages, s'.pages, x, ChainBodies(s.log, x.prevLsn));
    }
  }

  lemma {:induction false} ChainStaysOk(ps: Pages, s: State, s': State, t: TxnId, u: TxnId)
    requires Safe(s') && LogOk(ps, s) && Tracks(s') && OwnStep(s, s', t) && OwnChainKept(s, s', t)
    requires u in s'.txns && Pending(s'.log, s'.txns[u])
    ensures ChainOk(s'.pages, s'.txns[u], ChainBodies(s'.log, s'.txns[u].prevLsn))
  {
    if u == t { OwnChainOk(s, s', t); } else { OtherChainOk(s, s', t, u); }
  }

  /** A step keeps the whole log invariant once it is known for the stepping transaction itself. */
  lemma {:induction false} StepKeepsLogOk(ps: Pages, s: State, s': State, t: TxnId)
    requires Safe(s') && LogOk(ps, s) && OwnStep(s, s', t) && OwnChainKept(s, s', t)
    ensures LogOk(ps, s')
  {
    LogStepKeepsRepeats(ps, s, s', t);
    LogStepKeepsTracks(s, s', t);
    LogStepKeepsLocked(s, s', t);
    AllStillThere(ps, s, s', t);
    AllChainsStayOk(ps, s, s', t);
    CommitsStayLogged(s, s', t);
  }

  lemma CommitsStayLogged(s: State, s': State, t: TxnId)
    requires OwnStep(s, s', t) && LogStep(s, s', t) && forall u :: u in s.txns ==> CommitLogged(s.log, s.txns[u])
    ensures forall u :: u in s'.txns ==> CommitLogged(s'.log, s'.txns[u])
  {
    forall u | u in s'.txns ensures CommitLogged(s'.log, s'.txns[u]) {
      if u != t { assert CommitLogged(s.log, s.txns[u]); }
    }
  }

  lemma {:induction false} AllStillThere(ps: Pages, s: State, s': State, t: TxnId)
    requires LogOk(ps, s) && OwnStep(s, s', t) && LogStep(s, s', t)
    ensures forall u :: u in s'.txns && GaveUp(s'.log, s'.txns[u]) ==> StillThere(s', u)
  {
    forall u | u in s'.txns && GaveUp(s'.log, s'.txns[u]) ensures StillThere(s', u) { StillThereAfter(ps, s, s', t, u); }
  }

  lemma {:induction false} AllChainsStayOk(ps: Pages, s: State, s': State, t: TxnId)
    requires Safe(s') && LogOk(ps, s) && Tracks(s') && OwnStep(s, s', t) && OwnChainKept(s, s', t)
    ensures forall u :: u in s'.txns && Pending(s'.log, s'.txns[u]) ==>
              ChainOk(s'.pages, s'.txns[u], ChainBodies(s'.log, s'.txns[u].prevLsn))
  {
    forall u | u in s'.txns && Pending(s'.log, s'.txns[u])
      ensures ChainOk(s'.pages, s'.txns[u], ChainBodies(s'.log, s'.txns[u].prevLsn))
    {
      ChainStaysOk(ps, s, s', t, u);
    }
  }

  lemma OthersSlotsKept(s: State, s': State, t: TxnId, u: TxnId, r: RID)
    requires Safe(s') && OwnStep(s, s', t) && u != t && u in s.txns && Live(s.txns[u]) && r in s.txns[u].held.exclusive
    ensures Val(s'.pages, r) == Val(s.pages, r)
  {
    if Live(s'.txns[t]) && r in s'.txns[t].held.exclusive { LocksExclude(s', t, u, r); }
  }

  function Own(body: LogBody): seq<LogBody> {
    if PageOf(body).Some? then [body] else []
  }

  ghost predicate NewChain(s: State, s': State, t: TxnId, bodies: seq<LogBody>) {
    && ChainsDown(s.log) && -1 <= PrevOf(s, t) < |s.log|
    && bodies == BodiesOf(s, t) + if s'.log == s.log then [] else if |s'.log| > |s.log| then Own(s'.log[|s.log|].body) else []
  }

  // ---- the events ----

  lemma WroteLogs(s: State, t: TxnId, rid: RID, slot: Slot, body: LogBody, x: Txn)
    requires t in s.txns && Open(s.txns[t]) && Addressable(s.pages, rid) && Open(x) && x.prevLsn == s.txns[t].prevLsn
    requires RidOf(body) == Some(rid) && rid in x.held.exclusive
    requires RedoOn(s.pages[rid.page], body) == Some(Put(s.pages[rid.page], rid.slot, slot))
    ensures LogStep(s, Wrote(s, t, rid, slot, body, x), t)
  {
    var s' := Wrote(s, t, rid, slot, body, x);
    assert s'.log[..|s.log|] == s.log;
  }

  lemma DescribesOneMore(bodies: seq<LogBody>, cs: seq<Change>, body: LogBody, c: Change)
    requires AllDescribe(bodies, cs) && Describes(body, c)
    ensures AllDescribe(bodies + [body], cs + [c])
  {
  }

  ghost predicate Growing_(x: Txn) { x.phase == Growing || x.phase == Aborted }

  /** A step of a growing transaction that logs nothing and changes nothing of what it did. */
  lemma {:induction false} SilentStep(s: State, s': State, t: TxnId)
    requires t in s.txns && t in s'.txns && Growing_(s.txns[t]) && Growing_(s'.txns[t])
    requires s'.log == s.log && s'.pages == s.pages && s'.txns[t].prevLsn == s.txns[t].prevLsn
    requires TxnChanges(s'.txns[t]) == TxnChanges(s.txns[t])
    requires ChainsDown(s.log) && -1 <= PrevOf(s, t) < |s.log| && ChainOk(s.pages, s.txns[t], BodiesOf(s, t))
    ensures LogStep(s, s', t)
    ensures forall bodies :: NewChain(s, s', t, bodies) ==> ChainOk(s'.pages, s'.txns[t], bodies)
  {
    forall bodies | NewChain(s, s', t, bodies) ensures ChainOk(s'.pages, s'.txns[t], bodies) {
      assert bodies == BodiesOf(s, t);
    }
  }

  /** A step of a growing transaction that makes one change and logs it. */
  lemma {:induction false} ChangeStep(s: State, s': State, t: TxnId, c: Change, body: LogBody)
    requires t in s.txns && t in s'.txns && Growing_(s.txns[t]) && Growing_(s'.txns[t])
    requires s'.log == s.log + [LogRecord(t, s.txns[t].prevLsn, body)] && s'.txns[t].prevLsn == |s.log|
    requires Addressable(s.pages, c.rid) && s'.pages == PutVal(s.pages, c.rid, After(c)) && Describes(body, c)
    requires RedoOn(s.pages[c.rid.page], body) == Some(Put(s.pages[c.rid.page], c.rid.slot, After(c)))
    requires c.rid in s'.txns[t].held.exclusive
    requires TxnChanges(s'.txns[t]) == TxnChanges(s.txns[t]) + [c]
    requires ChainsDown(s.log) && -1 <= PrevOf(s, t) < |s.log| && ChainOk(s.pages, s.txns[t], BodiesOf(s, t))
    ensures LogStep(s, s', t)
    ensures forall bodies :: NewChain(s, s', t, bodies) ==> ChainOk(s'.pages, s'.txns[t], bodies)
  {
    assert s'.log[..|s.log|] == s.log;
    forall bodies | NewChain(s, s', t, bodies) ensures ChainOk(s'.pages, s'.txns[t], bodies) {
      assert bodies == BodiesOf(s, t) + [body];
      DescribesOneMore(BodiesOf(s, t), TxnChanges(s.txns[t]), body, c);
    }
  }

  ghost predicate OwnChainKept(s: State, s': State, t: TxnId) {
    && LogStep(s, s', t)
    && (Pending(s'.log, s'.txns[t]) ==>
          forall bodies :: NewChain(s, s', t, bodies) ==> ChainOk(s'.pages, s'.txns[t], bodies))
  }

  lemma {:induction false} BeginLogs(ps: Pages, s: State, t: TxnId)
    requires LogOk(ps, s) && Enabled(s, Begin(t))
    ensures OwnChainKept(s, DoBegin(s, t), t)
  {
    var s' := DoBegin(s, t);
    assert s'.log[..|s.log|] == s.log;
    forall bodies | NewChain(s, s', t, bodies) ensures ChainOk(s'.pages, s'.txns[t], bodies) {
      assert bodies == [];
    }
  }

  lemma {:induction false} InsertLogs(ps: Pages, s: State, t: TxnId, page: PageId, data: seq<byte>, w: WriteRecord, rid: RID)
    requires LogOk(ps, s) && Safe(s) && t in s.txns && s.txns[t].phase == Growing && page in s.pages && data != []
    requires InsertTarget(s, t, page, data) == Some(rid)
    requires s.txns[t].move.None? ==> w == InsertW(rid, data)
    requires s.txns[t].move.Some? ==> var m := s.txns[t].move.value; m.marked && w == MoveW(m.rid, rid, m.old_, data)
    ensures var s1 := Claim(s, t, rid);
            OwnChainKept(s, Wrote(s1, t, rid, Tuple(data, false), InsertRec(rid, data),
                                  Record(s1.txns[t], w).(move := None)), t)
  {
    ClaimKeepsSafe(s, t, page, data, rid);
    var s1 := Claim(s, t, rid);
    var x' := Record(s1.txns[t], w).(move := None);
    InsertRecorded(s1.txns[t], rid, data, w);
    assert TxnChanges(s1.txns[t]) == TxnChanges(s.txns[t]);
    var s' := Wrote(s1, t, rid, Tuple(data, false), InsertRec(rid, data), x');
    assert TxnChanges(s'.txns[t]) == TxnChanges(x');
    ChangeStep(s, s', t, Inserted(rid, data), InsertRec(rid, data));
  }

  lemma {:induction false} FillLogs(ps: Pages, s: State, e: Event)
    requires LogOk(ps, s) && Safe(s) && Enabled(s, e) && (e.InsertTuple? || e.MoveInsert?)
    ensures OwnChainKept(s, Step(s, e).state, e.t)
  {
    var t := e.t;
    assert TxnOk(s.pages, s.txns[t]);
    var data := if e.InsertTuple? then e.data else s.txns[t].move.value.new_;
    match InsertTarget(s, t, e.page, data)
    case None => SilentStep(s, s, t);
    case Some(rid) =>
      if e.InsertTuple? {
        InsertLogs(ps, s, t, e.page, data, InsertW(rid, data), rid);
        var x := Record(Claim(s, t, rid).txns[t], InsertW(rid, data));
        assert x.(move := None) == x;
      } else {
        var m := s.txns[t].move.value;
        InsertLogs(ps, s, t, e.page, data, MoveW(m.rid, rid, m.old_, m.new_), rid);
      }
  }

  ghost predicate ChainKnown(s: State, t: TxnId) {
    && t in s.txns && Growing_(s.txns[t])
    && ChainsDown(s.log) && 0 <= s.txns[t].prevLsn < |s.log|
    && ChainOk(s.pages, s.txns[t], BodiesOf(s, t))
  }

  /** Taking a lock and looking at the slot logs nothing, so the rest of the step decides. */
  lemma {:induction false} LockLogsNothing(s: State, t: TxnId, rid: RID, g: Grant)
    requires ChainKnown(s, t)
    ensures ChainKnown(Saw(WithGrant(s, t, rid, g), t, rid), t)
    ensures forall s' :: OwnChainKept(Saw(WithGrant(s, t, rid, g), t, rid), s', t) ==> OwnChainKept(s, s', t)
    ensures OwnChainKept(s, Saw(WithGrant(s, t, rid, g), t, rid), t)
  {
    var s1 := Saw(WithGrant(s, t, rid, g), t, rid);
    assert TxnChanges(s1.txns[t]) == TxnChanges(s.txns[t]);
    SilentStep(s, s1, t);
    forall s' | OwnChainKept(s1, s', t) ensures OwnChainKept(s, s', t) {
      assert forall bodies :: NewChain(s, s', t, bodies) ==> NewChain(s1, s', t, bodies);
    }
  }

  lemma {:induction false} DoomLogs(s: State, t: TxnId)
    requires ChainKnown(s, t)
    ensures OwnChainKept(s, Doom(s, t), t)
  {
    assert TxnChanges(Doom(s, t).txns[t]) == TxnChanges(s.txns[t]);
    SilentStep(s, Doom(s, t), t);
  }

  lemma {:induction false} GetTupleLogs(s: State, t: TxnId, rid: RID)
    requires ChainKnown(s, t) && Enabled(s, GetTuple(t, rid))
    ensures OwnChainKept(s, DoGetTuple(s, t, rid), t)
  {
    var g := GrantRead(s.tables, s.txns[t].held, t, rid);
    LockLogsNothing(s, t, rid, g);
    DoomLogs(s, t);
    DoomLogs(Saw(WithGrant(s, t, rid, g), t, rid), t);
  }

  lemma {:induction false} UpdateInPlaceLogs(s: State, t: TxnId, rid: RID, data: seq<byte>)
    requires ChainKnown(s, t) && rid.page in s.pages && s.txns[t].move.None? && rid in s.txns[t].held.exclusive
    requires UpdateOutcomeOf(s.pages[rid.page], rid.slot, |data|, false).Updated?
    ensures OwnChainKept(s, UpdateLocked(s, t, rid, data), t)
  {
    var s' := UpdateLocked(s, t, rid, data);
    var x := s.txns[t];
    var c := Replaced(rid, s.pages[rid.page][rid.slot].data, data);
    ChangesRecord(x.writes, UpdateW(rid, c.old_, data));
    assert TxnChanges(s'.txns[t]) == TxnChanges(x) + [c];
    ChangeStep(s, s', t, c, UpdateRec(rid, c.old_, data));
  }

  lemma {:induction false} UpdateLockedLogs(s: State, t: TxnId, rid: RID, data: seq<byte>)
    requires ChainKnown(s, t) && rid.page in s.pages && s.txns[t].move.None? && rid in s.txns[t].held.exclusive
    ensures OwnChainKept(s, UpdateLocked(s, t, rid, data), t)
  {
    if UpdateOutcomeOf(s.pages[rid.page], rid.slot, |data|, false).Updated? {
      UpdateInPlaceLogs(s, t, rid, data);
    } else {
      var s' := UpdateLocked(s, t, rid, data);
      assert TxnChanges(s'.txns[t]) == TxnChanges(s.txns[t]);
      SilentStep(s, s', t);
    }
  }

  lemma {:induction false} UpdateLogs(s: State, t: TxnId, rid: RID, data: seq<byte>)
    requires ChainKnown(s, t) && Safe(s) && Enabled(s, UpdateTuple(t, rid, data))
    ensures OwnChainKept(s, DoUpdate(s, t, rid, data), t)
  {
    var g := GrantWrite(s.tables, s.txns[t].held, t, rid);
    LockLogsNothing(s, t, rid, g);
    if g.ok {
      GrantWriteSound(s.tables, s.txns[t].held, t, rid);
      UpdateLockedLogs(Saw(WithGrant(s, t, rid, g), t, rid), t, rid, data);
    } else {
      DoomLogs(s, t);
    }
  }

  lemma {:induction false} FlagLogs(s: State, t: TxnId, rid: RID, x': Txn)
    requires ChainKnown(s, t) && !Marked(Val(s.pages, rid)) && Growing_(x') && x'.prevLsn == s.txns[t].prevLsn
    requires rid in x'.held.exclusive
    requires TxnChanges(x') == TxnChanges(s.txns[t]) + [Flagged(rid, Val(s.pages, rid).data)]
    ensures OwnChainKept(s, Wrote(s, t, rid, Tuple(Val(s.pages, rid).data, true), MarkDeleteRec(rid), x'), t)
  {
    var c := Flagged(rid, Val(s.pages, rid).data);
    var s' := Wrote(s, t, rid, After(c), MarkDeleteRec(rid), x');
    assert TxnChanges(s'.txns[t]) == TxnChanges(x');
    ChangeStep(s, s', t, c, MarkDeleteRec(rid));
  }

  lemma {:induction false} MarkDeleteLogs(s: State, t: TxnId, rid: RID)
    requires ChainKnown(s, t) && Safe(s) && Enabled(s, MarkDelete(t, rid))
    ensures OwnChainKept(s, DoMarkDelete(s, t, rid), t)
  {
    var g := GrantWrite(s.tables, s.txns[t].held, t, rid);
    LockLogsNothing(s, t, rid, g);
    var s1 := Saw(WithGrant(s, t, rid, g), t, rid);
    DoomLogs(s, t);
    DoomLogs(s1, t);
    if g.ok && !Marked(Val(s.pages, rid)) {
      GrantWriteSound(s.tables, s.txns[t].held, t, rid);
      RecordedFlagLogs(s1, t, rid);
    }
  }

  lemma {:induction false} RecordedFlagLogs(s: State, t: TxnId, rid: RID)
    requires ChainKnown(s, t) && !Marked(Val(s.pages, rid)) && rid in s.txns[t].held.exclusive && s.txns[t].move.None?
    ensures var w := DeleteW(rid, Val(s.pages, rid).data);
            OwnChainKept(s, Wrote(s, t, rid, Tuple(w.data, true), MarkDeleteRec(rid), Record(s.txns[t], w)), t)
  {
    var x, w := s.txns[t], DeleteW(rid, Val(s.pages, rid).data);
    ChangesRecord(x.writes, w);
    assert TxnChanges(Record(x, w)) == TxnChanges(x) + [Flagged(rid, w.data)];
    FlagLogs(s, t, rid, Record(x, w));
  }

  lemma {:induction false} MoveMarkLogs(s: State, t: TxnId)
    requires ChainKnown(s, t) && Safe(s) && Enabled(s, MoveMark(t))
    ensures OwnChainKept(s, DoMoveMark(s, t), t)
  {
    var m := s.txns[t].move.value;
    MoveMarkSucceeds(s, t);
    var g := GrantWrite(s.tables, s.txns[t].held, t, m.rid);
    LockLogsNothing(s, t, m.rid, g);
    var s1 := Saw(WithGrant(s, t, m.rid, g), t, m.rid);
    var x' := s1.txns[t].(move := Some(m.(marked := true)));
    assert TxnChanges(x') == TxnChanges(s1.txns[t]) + [Flagged(m.rid, m.old_)];
    FlagLogs(s1, t, m.rid, x');
  }

  /** What the write set can rewind, undoing the chain takes back. */
  lemma {:induction false} StartEndLogs(ps: Pages, s: State, t: TxnId, phase: Phase)
    requires LogOk(ps, s) && Safe(s) && t in s.txns && Growing_(s.txns[t]) && (phase == Committing || phase == Aborting)
    ensures OwnChainKept(s, WithPhase(s, t, phase), t)
  {
    var s' := WithPhase(s, t, phase);
    var x := s.txns[t];
    assert TxnOk(s.pages, x) && Rewinds(s.pages, x);
    forall bodies | NewChain(s, s', t, bodies) ensures ChainOk(s'.pages, s'.txns[t], bodies) {
      assert bodies == BodiesOf(s, t);
      assert AllDescribe(bodies, TxnChanges(x)) && TakesBack(s'.pages, s'.txns[t], TxnChanges(x));
    }
  }

  lemma {:induction false} DeleteLogs(ps: Pages, s: State, t: TxnId, rid: RID, x': Txn)
    requires LogOk(ps, s) && t in s.txns && Val(s.pages, rid).Tuple? && rid in x'.held.exclusive
    requires s.txns[t].phase == Committing || s.txns[t].phase == Aborting
    requires x'.phase == s.txns[t].phase && x'.prevLsn == s.txns[t].prevLsn
    ensures OwnChainKept(s, Wrote(s, t, rid, Empty, ApplyDeleteRec(rid, Val(s.pages, rid).data), x'), t)
  {
    var body := ApplyDeleteRec(rid, Val(s.pages, rid).data);
    var s' := Wrote(s, t, rid, Empty, body, x');
    WroteLogs(s, t, rid, Empty, body, x');
    forall bodies | NewChain(s, s', t, bodies) ensures ChainOk(s'.pages, s'.txns[t], bodies) {
      assert bodies == BodiesOf(s, t) + [body];
      assert bodies[|BodiesOf(s, t)|] == body;
    }
  }

  /** A commit step with no page work. */
  lemma {:induction false} CommitSkipLogs(ps: Pages, s: State, t: TxnId, x': Txn)
    requires LogOk(ps, s) && t in s.txns && s.txns[t].phase == Committing
    requires x'.phase == Committing && x'.prevLsn == s.txns[t].prevLsn
    requires x'.held == s.txns[t].held && x'.before == s.txns[t].before
    ensures OwnChainKept(s, s.(txns := s.txns[t := x']), t)
  {
    var s' := s.(txns := s.txns[t := x']);
    var bodies := BodiesOf(s, t);
    if !Applied(bodies) {
      var cs :| AllDescribe(bodies, cs) && TakesBack(s.pages, s.txns[t], cs);
      assert TakesBack(s.pages, x', cs);
    }
    forall b | NewChain(s, s', t, b) ensures ChainOk(s'.pages, s'.txns[t], b) {
      assert b == bodies;
    }
  }

  lemma {:induction false} CommitStepLogs(ps: Pages, s: State, t: TxnId)
    requires LogOk(ps, s) && Safe(s) && Enabled(s, CommitStep(t))
    ensures DoCommitStep(s, t).Next? && OwnChainKept(s, DoCommitStep(s, t).state, t)
  {
    CommitStepKeepsSafe(s, t);
    var x := s.txns[t];
    var w := x.writes[|x.writes| - 1];
    if Deleting(w) {
      DeleteLogs(ps, s, t, w.rid, Popped(x));
    } else {
      CommitSkipLogs(ps, s, t, Popped(x));
    }
  }

  lemma {:induction false} CommitEndLogs(ps: Pages, s: State, e: Event)
    requires LogOk(ps, s) && Enabled(s, e) && (e.LogCommit? || (e.ReleaseLocks? && s.txns[e.t].phase == Committed))
    ensures OwnChainKept(s, Step(s, e).state, e.t)
  {
    assert Step(s, e).state.log[..|s.log|] == s.log;
  }

  /** The compensating record as a change of its own. */
  function Backwards(c: Change): Change {
    match c
    case Flagged(rid, data) => Unflagged(rid, data)
    case Replaced(rid, old_, new_) => Replaced(rid, new_, old_)
    case _ => c
  }

  /** A mark taken off, or an update taken back that had not lengthened its tuple, is one more change on the chain. */
  lemma {:induction false} CompensationLogs(ps: Pages, s: State, t: TxnId, c: Change, body: LogBody, x': Txn)
    requires LogOk(ps, s) && Safe(s) && t in s.txns && s.txns[t].phase == Aborting && SameOwner(s.txns[t], x')
    requires c.rid in x'.held.exclusive && Addressable(s.pages, c.rid) && Leaves(c, Val(s.pages, c.rid))
    requires Compensates(body, c) && !body.ApplyDeleteRec? && (c.Replaced? ==> |c.new_| <= |c.old_|)
    requires x'.prevLsn == s.txns[t].prevLsn
    ensures OwnChainKept(s, Wrote(s, t, c.rid, Origin(c), body, x'), t)
  {
    var s' := Wrote(s, t, c.rid, Origin(c), body, x');
    CompensationRedoes(s.pages[c.rid.page], c, body);
    WroteLogs(s, t, c.rid, Origin(c), body, x');
    assert ChainOk(s.pages, s.txns[t], BodiesOf(s, t));
    OneMoreBack(s.pages, s.txns[t], s'.txns[t], BodiesOf(s, t), c, body);
    forall bodies | NewChain(s, s', t, bodies) ensures ChainOk(s'.pages, s'.txns[t], bodies) {
      assert bodies == BodiesOf(s, t) + [body];
    }
  }

  lemma {:induction false} OneMoreBack(ps: Pages, x: Txn, x': Txn, bodies: seq<LogBody>, c: Change, body: LogBody)
    requires Applied(bodies) || Recoverable(ps, x, bodies)
    requires x'.held == x.held && x'.before == x.before
    requires c.rid in x.held.exclusive && Addressable(ps, c.rid) && Leaves(c, Val(ps, c.rid))
    requires c.Flagged? || (c.Replaced? && |c.new_| <= |c.old_|)
    requires Describes(body, Backwards(c))
    ensures Applied(bodies + [body]) || Recoverable(PutVal(ps, c.rid, Origin(c)), x', bodies + [body])
  {
    if Applied(bodies) {
      var i :| 0 <= i < |bodies| && bodies[i].ApplyDeleteRec?;
      assert (bodies + [body])[i].ApplyDeleteRec?;
    } else {
      var cs :| AllDescribe(bodies, cs) && TakesBack(ps, x, cs);
      DescribesOneMore(bodies, cs, body, Backwards(c));
      BackwardsTakesBack(ps, x, x', cs, c);
    }
  }

  lemma CompensationRedoes(p: Page, c: Change, body: LogBody)
    requires c.rid.slot <= |p| && Leaves(c, At(p, c.rid.slot)) && WellFormed(p)
    requires Compensates(body, c) && !body.ApplyDeleteRec? && (c.Replaced? ==> |c.new_| <= |c.old_|)
    ensures RidOf(body) == Some(c.rid) && RedoOn(p, body) == Some(Put(p, c.rid.slot, Origin(c)))
    ensures Describes(body, Backwards(c))
  {
  }

  lemma {:induction false} BackwardsTakesBack(ps: Pages, x: Txn, x': Txn, cs: seq<Change>, c: Change)
    requires TakesBack(ps, x, cs) && x'.held == x.held && x'.before == x.before
    requires c.rid in x.held.exclusive && Addressable(ps, c.rid) && Leaves(c, Val(ps, c.rid))
    requires c.Flagged? || (c.Replaced? && |c.new_| <= |c.old_|)
    ensures TakesBack(PutVal(ps, c.rid, Origin(c)), x', cs + [Backwards(c)])
  {
    var qs := PutVal(ps, c.rid, Origin(c));
    forall rid | rid in x.held.exclusive && rid in x.before
      ensures Rewind(cs + [Backwards(c)], rid, Val(qs, rid)) == Some(x.before[rid])
    {
      RewindLast(cs, Backwards(c), rid, Val(qs, rid));
    }
  }

  lemma {:induction false} UndoStepLogs(ps: Pages, s: State, t: TxnId)
    requires LogOk(ps, s) && Safe(s) && Enabled(s, UndoStep(t))
    requires DoUndoStep(s, t).Next? && NeverShrinks(DoUndoStep(s, t).state.log)
    ensures OwnChainKept(s, DoUndoStep(s, t).state, t)
  {
    var c, x', body := UndoStepIsWrite(s, t);
    WriteBackLogs(ps, s, t, c, body, x');
  }

  lemma {:induction false} WriteBackLogs(ps: Pages, s: State, t: TxnId, c: Change, body: LogBody, x': Txn)
    requires LogOk(ps, s) && Safe(s) && t in s.txns && s.txns[t].phase == Aborting && SameOwner(s.txns[t], x')
    requires c.rid in x'.held.exclusive && Addressable(s.pages, c.rid) && Leaves(c, Val(s.pages, c.rid))
    requires Compensates(body, c) && x'.prevLsn == s.txns[t].prevLsn
    requires NeverShrinks(Wrote(s, t, c.rid, Origin(c), body, x').log)
    ensures OwnChainKept(s, Wrote(s, t, c.rid, Origin(c), body, x'), t)
  {
    if body.ApplyDeleteRec? {
      DeleteLogs(ps, s, t, c.rid, x');
    } else {
      assert Wrote(s, t, c.rid, Origin(c), body, x').log[|s.log|].body == body;
      CompensationLogs(ps, s, t, c, body, x');
    }
  }

  /** At the end of an abort every slot is as it was found, so the chain cancels out. */
  lemma {:induction false} AbortEndLogs(ps: Pages, s: State, t: TxnId)
    requires LogOk(ps, s) && Safe(s) && Enabled(s, ReleaseLocks(t)) && s.txns[t].phase == Aborting
    ensures OwnChainKept(s, DoRelease(s, t), t)
  {
    var s', x := DoRelease(s, t), s.txns[t];
    assert s'.log[..|s.log|] == s.log;
    AbortFoundAgain(s, t);
    forall bodies | NewChain(s, s', t, bodies) ensures ChainOk(s'.pages, s'.txns[t], bodies) {
      assert bodies == BodiesOf(s, t);
      if !Applied(bodies) {
        var cs :| AllDescribe(bodies, cs) && TakesBack(s.pages, x, cs);
        assert Cancels(s'.txns[t], cs);
      }
    }
  }

  lemma AbortFoundAgain(s: State, t: TxnId)
    requires Safe(s) && Enabled(s, ReleaseLocks(t)) && s.txns[t].phase == Aborting
    ensures FoundAgain(s.pages, s.txns[t])
  {
    var x := s.txns[t];
    assert TxnOk(s.pages, x);
    assert TxnChanges(x) == [];
  }

  ghost predicate ActiveEvent(e: Event) {
    e.GetTuple? || e.InsertTuple? || e.MoveInsert? || e.UpdateTuple? || e.MarkDelete? || e.MoveMark?
  }

  lemma {:induction false} ActiveEventLogs(ps: Pages, s: State, e: Event)
    requires Safe(s) && LogOk(ps, s) && Enabled(s, e) && ActiveEvent(e)
    ensures OwnChainKept(s, Step(s, e).state, e.t)
  {
    assert ChainKnown(s, e.t);
    match e {
      case GetTuple(t, rid) => GetTupleLogs(s, t, rid);
      case UpdateTuple(t, rid, data) => UpdateLogs(s, t, rid, data);
      case MarkDelete(t, rid) => MarkDeleteLogs(s, t, rid);
      case MoveMark(t) => MoveMarkLogs(s, t);
      case _ => FillLogs(ps, s, e);
    }
  }

  lemma {:induction false} EventLogs(ps: Pages, s: State, e: Event)
    requires Safe(s) && LogOk(ps, s) && Enabled(s, e)
    requires Step(s, e).Next? ==> NeverShrinks(Step(s, e).state.log)
    ensures Step(s, e).Next? && OwnChainKept(s, Step(s, e).state, e.t)
  {
    StepKeepsSafe(s, e);
    if ActiveEvent(e) {
      ActiveEventLogs(ps, s, e);
    } else if e.Begin? {
      BeginLogs(ps, s, e.t);
    } else if e.StartCommit? {
      StartEndLogs(ps, s, e.t, Committing);
    } else if e.StartAbort? {
      StartEndLogs(ps, s, e.t, Aborting);
    } else if e.CommitStep? {
      CommitStepLogs(ps, s, e.t);
    } else if e.UndoStep? {
      UndoStepLogs(ps, s, e.t);
    } else if e.LogCommit? || s.txns[e.t].phase == Committed {
      CommitEndLogs(ps, s, e);
    } else {
      AbortEndLogs(ps, s, e.t);
    }
  }

  lemma {:induction false} EventKeepsLogOk(ps: Pages, s: State, e: Event)
    requires Safe(s) && LogOk(ps, s) && Enabled(s, e)
    requires Step(s, e).Next? ==> NeverShrinks(Step(s, e).state.log)
    ensures Step(s, e).Next? && LogOk(ps, Step(s, e).state)
  {
    StepKeepsSafe(s, e);
    StepIsOwn(s, e);
    EventLogs(ps, s, e);
    StepKeepsLogOk(ps, s, Step(s, e).state, e.t);
  }

  // ---- whole runs ----

  /** `log'` is `log` with at most one record more. */
  ghost predicate Grows(log: seq<LogRecord>, log': seq<LogRecord>) {
    |log| <= |log'| <= |log| + 1 && log'[..|log|] == log
  }

  lemma StepGrowsLog(s: State, e: Event)
    requires Safe(s) && Enabled(s, e)
    ensures Step(s, e).Next? && Grows(s.log, Step(s, e).state.log)
  {
    StepKeepsSafe(s, e);
    var s' := Step(s, e).state;
    if e.UndoStep? {
      var c, x', body := UndoStepIsWrite(s, e.t);
      assert s'.log == s.log + [LogRecord(e.t, x'.prevLsn, body)];
    } else {
      StepAppends(s, e);
    }
  }

  lemma StepAppends(s: State, e: Event)
    requires Enabled(s, e) && !e.UndoStep? && Step(s, e).Next?
    ensures Grows(s.log, Step(s, e).state.log)
  {
    var log' := Step(s, e).state.log;
    assert log' == s.log || log' == s.log + [log'[|s.log|]];
  }

  lemma ShorterNeverShrinks(log: seq<LogRecord>, log': seq<LogRecord>)
    requires |log| <= |log'| && log'[..|log|] == log && NeverShrinks(log')
    ensures NeverShrinks(log)
  {
    assert forall i :: 0 <= i < |log| ==> log[i] == log'[i];
  }

  lemma {:induction false} EveryRunLogs(ps: Pages, events: seq<Event>)
    requires WellFormedPages(ps) && Run(ps, events).Some? && Run(ps, events).value.Next?
    requires NeverShrinks(Run(ps, events).value.state.log)
    ensures LogOk(ps, Run(ps, events).value.state)
  {
    if events != [] {
      var n := |events| - 1;
      EveryRunIsSafe(ps, events[..n]);
      var s := Run(ps, events[..n]).value.state;
      StepGrowsLog(s, events[n]);
      ShorterNeverShrinks(s.log, Run(ps, events).value.state.log);
      EveryRunLogs(ps, events[..n]);
      EventKeepsLogOk(ps, s, events[n]);
    }
  }
}
