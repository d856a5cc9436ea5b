/** The request manager: callers append queries, workers execute them, one loop hands them out.
  * A step is one section under the queue mutex or one channel operation; callers, workers and
  * the loop interleave freely. */
module RequestManager {
  import opened Wrappers

  type ReqId = nat

  datatype Outcome = Answer | AbortedByConcurrency

  /** What travels on the loop's channel: a bare wake-up, or a worker's result. */
  datatype Message = WakeUp | Result(id: ReqId, outcome: Outcome)

  /** The loop waits for a message, or is about to look at the queue. */
  datatype Pc = Receiving | Dispatching

  /** `waking` callers have appended a request but not yet sent the wake-up. */
  datatype State = State(nextReqId: ReqId, execQue: seq<ReqId>, executing: set<ReqId>, inCh: seq<Message>,
                         curExecuting: int, waking: nat, answered: set<ReqId>, pc: Pc, max: nat)

  datatype Event =
    | Append
    | SendWakeUp
    | Finish(id: ReqId, outcome: Outcome)
    | Receive
    | Dispatch

  predicate Enabled(s: State, e: Event) {
    match e
    case Append => true
    case SendWakeUp => s.waking > 0
    case Finish(id, _) => id in s.executing
    case Receive => s.pc == Receiving && s.inCh != []
    case Dispatch => s.pc == Dispatching
  }

  function DoAppend(s: State): State {
    s.(nextReqId := s.nextReqId + 1, execQue := s.execQue + [s.nextReqId], waking := s.waking + 1)
  }

  function DoReceive(s: State): State
    requires s.inCh != []
  {
    var s1 := s.(inCh := s.inCh[1..], pc := Dispatching);
    match s.inCh[0]
    case WakeUp => s1
    case Result(id, AbortedByConcurrency) => s1.(curExecuting := s.curExecuting - 1, execQue := [id] + s.execQue)
    case Result(id, Answer) => s1.(curExecuting := s.curExecuting - 1, answered := s.answered + {id})
  }

  function DoDispatch(s: State): State {
    if |s.execQue| > 0 && s.curExecuting < s.max
    then s.(execQue := s.execQue[1..], executing := s.executing + {s.execQue[0]},
            curExecuting := s.curExecuting + 1, pc := Receiving)
    else s.(pc := Receiving)
  }

  function Step(s: State, e: Event): State
    requires Enabled(s, e)
  {
    match e
    case Append => DoAppend(s)
    case SendWakeUp => s.(waking := s.waking - 1, inCh := s.inCh + [WakeUp])
    case Finish(id, outcome) => s.(executing := s.executing - {id}, inCh := s.inCh + [Result(id, outcome)])
    case Receive => DoReceive(s)
    case Dispatch => DoDispatch(s)
  }

  function Initial(max: nat): State {
    State(0, [], {}, [], 0, 0, {}, Receiving, max)
  }

  // ---- where requests are ----

  /** The requests whose results are on the channel. */
  function Reported(ch: seq<Message>): seq<ReqId> {
    if ch == [] then []
    else Reported(ch[..|ch| - 1]) + if ch[|ch| - 1].Result? then [ch[|ch| - 1].id] else []
  }

  lemma {:induction false} ReportedFirst(ch: seq<Message>)
    requires ch != []
    ensures Reported(ch) == (if ch[0].Result? then [ch[0].id] else []) + Reported(ch[1..])
  {
    if |ch| == 1 {
      assert ch[..0] == [] && ch[1..] == [];
    } else {
      var n := |ch| - 1;
      ReportedFirst(ch[..n]);
      assert ch[..n][1..] == ch[1..][..n - 1];
    }
  }

  lemma ReportedLast(ch: seq<Message>, m: Message)
    ensures Reported(ch + [m]) == Reported(ch) + (if m.Result? then [m.id] else [])
  {
    assert (ch + [m])[..|ch|] == ch;
  }

  /** How often a request is queued, executing, reported or answered. */
  function Places(s: State): multiset<ReqId> {
    multiset(s.execQue) + multiset(s.executing) + multiset(Reported(s.inCh)) + multiset(s.answered)
  }

  ghost predicate Inv(s: State) {
    // every accepted request is in exactly one place, and no other id is anywhere
    && (forall id: ReqId :: Places(s)[id] == if id < s.nextReqId then 1 else 0)
    // what counts as running is what was started and not yet reported to the loop
    && s.curExecuting == |s.executing| + |Reported(s.inCh)| <= s.max
    // a waiting request has something coming that will make the loop look at the queue
    && (s.execQue != [] ==> s.waking > 0 || s.inCh != [] || s.executing != {} || s.pc == Dispatching)
    && s.max > 0
  }

  lemma InitialInv(max: nat)
    requires max > 0
    ensures Inv(Initial(max))
  {
    assert Places(Initial(max)) == multiset{};
  }

  lemma AppendKeepsInv(s: State)
    requires Inv(s)
    ensures Inv(DoAppend(s))
  {
    assert Places(DoAppend(s)) == Places(s) + multiset{s.nextReqId};
  }

  lemma FinishKeepsInv(s: State, id: ReqId, outcome: Outcome)
    requires Inv(s) && id in s.executing
    ensures Inv(Step(s, Finish(id, outcome)))
  {
    ReportedLast(s.inCh, Result(id, outcome));
    FinishKeepsPlaces(s, id, outcome);
  }

  lemma FinishKeepsPlaces(s: State, id: ReqId, outcome: Outcome)
    requires id in s.executing
    ensures Places(Step(s, Finish(id, outcome))) == Places(s)
  {
    ReportedLast(s.inCh, Result(id, outcome));
    assert multiset(Reported(s.inCh) + [id]) == multiset(Reported(s.inCh)) + multiset{id};
    assert multiset(s.executing) == multiset(s.executing - {id}) + multiset{id};
  }

  lemma ReceiveKeepsInv(s: State)
    requires Inv(s) && s.inCh != []
    ensures Inv(DoReceive(s))
  {
    ReportedFirst(s.inCh);
    ReceiveKeepsPlaces(s);
  }

  /** A result moves its request to the head of the queue or among the answered. */
  lemma ReceiveKeepsPlaces(s: State)
    requires Inv(s) && s.inCh != []
    ensures Places(DoReceive(s)) == Places(s)
  {
    var id := if s.inCh[0].Result? then s.inCh[0].id else 0;
    ReportedMultiset(s.inCh);
    match s.inCh[0]
    case WakeUp =>
    case Result(_, AbortedByConcurrency) => QueueFront(id, s.execQue);
    case Result(_, Answer) =>
      AnsweredOnce(s, id);
      AnsweredMore(s.answered, id);
  }

  lemma ReportedMultiset(ch: seq<Message>)
    requires ch != []
    ensures multiset(Reported(ch)) == (if ch[0].Result? then multiset{ch[0].id} else multiset{}) + multiset(Reported(ch[1..]))
  {
    ReportedFirst(ch);
  }

  lemma QueueFront(id: ReqId, queue: seq<ReqId>)
    ensures multiset([id] + queue) == multiset{id} + multiset(queue)
  {
  }

  lemma AnsweredMore(answered: set<ReqId>, id: ReqId)
    requires id !in answered
    ensures multiset(answered + {id}) == multiset(answered) + multiset{id}
  {
  }

  lemma AnsweredOnce(s: State, id: ReqId)
    requires Inv(s) && s.inCh != [] && s.inCh[0].Result? && s.inCh[0].id == id
    ensures id !in s.answered
  {
    ReportedFirst(s.inCh);
    assert Places(s)[id] <= 1;
  }

  lemma DispatchKeepsInv(s: State)
    requires Inv(s) && s.pc == Dispatching
    ensures Inv(DoDispatch(s))
  {
    var s' := DoDispatch(s);
    if |s.execQue| > 0 && s.curExecuting < s.max {
      var id := s.execQue[0];
      assert s.execQue == [id] + s.execQue[1..];
      assert Places(s)[id] <= 1;
      assert id !in s.executing;
      assert multiset(s.executing + {id}) == multiset(s.executing) + multiset{id};
      assert Places(s') == Places(s);
    } else {
      assert Places(s') == Places(s);
      if |Reported(s.inCh)| > 0 { assert s.inCh != []; }
    }
  }

  /** Every step of every participant keeps it. */
  lemma StepKeepsInv(s: State, e: Event)
    requires Inv(s) && Enabled(s, e)
    ensures Inv(Step(s, e))
  {
    match e
    case Append => AppendKeepsInv(s);
    case SendWakeUp =>
      ReportedLast(s.inCh, WakeUp);
      assert Places(Step(s, e)) == Places(s);
    case Finish(id, outcome) => FinishKeepsInv(s, id, outcome);
    case Receive => ReceiveKeepsInv(s);
    case Dispatch => DispatchKeepsInv(s);
  }

  function Run(max: nat, events: seq<Event>): Option<State> {
    if events == [] then Some(Initial(max))
    else
      var n := |events| - 1;
      match Run(max, events[..n])
      case Some(s) => if Enabled(s, events[n]) then Some(Step(s, events[n])) else None
      case None => None
  }

  lemma {:induction false} EveryRunKeepsInv(max: nat, events: seq<Event>)
    requires max > 0 && Run(max, events).Some?
    ensures Inv(Run(max, events).value)
  {
    if events == [] {
      InitialInv(max);
    } else {
      var n := |events| - 1;
      EveryRunKeepsInv(max, events[..n]);
      StepKeepsInv(Run(max, events[..n]).value, events[n]);
    }
  }

  // ---- nothing is stranded ----

  predicate Aborts(s: State, e: Event)
    requires Enabled(s, e)
  {
    e.Receive? && s.inCh[0].Result? && s.inCh[0].outcome == AbortedByConcurrency
  }

  /** What is still to be done: an upper bound on the steps left. */
  function Remaining(s: State): nat {
    4 * |s.execQue| + 3 * |s.executing| + 3 * s.waking + 2 * |s.inCh| + if s.pc == Dispatching then 1 else 0
  }

  /** Every step but a new request or an abort brings the end closer. */
  lemma StepsFinish(s: State, e: Event)
    requires Inv(s) && Enabled(s, e) && !e.Append? && !Aborts(s, e)
    ensures Remaining(Step(s, e)) < Remaining(s)
  {
    if e.Dispatch? && |s.execQue| > 0 && s.curExecuting < s.max {
      assert Places(s)[s.execQue[0]] <= 1;
    }
  }

  /** When nothing but a new request can happen, every accepted request has been answered. */
  lemma NoneIsStranded(s: State)
    requires Inv(s) && forall e :: Enabled(s, e) ==> e.Append?
    ensures s.execQue == [] && forall id: ReqId :: id in s.answered <==> id < s.nextReqId
  {
    assert !Enabled(s, SendWakeUp) && !Enabled(s, Receive) && !Enabled(s, Dispatch);
    if s.executing != {} {
      var id :| id in s.executing;
      assert Enabled(s, Finish(id, Answer));
    }
    assert s.executing == {} && s.inCh == [] && s.waking == 0 && s.pc == Receiving;
    assert Places(s) == multiset(s.answered);
    forall id: ReqId ensures id in s.answered <==> id < s.nextReqId {
      assert Places(s)[id] == multiset(s.answered)[id];
    }
  }

  // ---- the manager's own code ----

  class RequestManager {
    var nextReqId: ReqId
    var execQue: seq<ReqId>
    var curExectingReqNum: int
    var inCh: seq<Message>
    const maxTxnThreadNum: nat

    /** Workers at work, callers between appending and waking, answers given, the loop's place. */
    ghost var executing: set<ReqId>
    ghost var waking: nat
    ghost var answered: set<ReqId>
    ghost var pc: Pc

    ghost function Abs(): State
      reads this
    {
      State(nextReqId, execQue, executing, inCh, curExectingReqNum, waking, answered, pc, maxTxnThreadNum)
    }

    constructor (max: nat)
      requires max > 0
      ensures Abs() == Initial(max) && Inv(Abs())
    {
      nextReqId, execQue, curExectingReqNum, inCh, maxTxnThreadNum := 0, [], 0, [], max;
      executing, waking, answered, pc := {}, 0, {}, Receiving;
      new;
      InitialInv(max);
    }

    /** The section of `AppendRequest` under the mutex; the wake-up follows as a step of its own. */
    method AppendRequest() returns (id: ReqId)
      requires Inv(Abs())
      modifies this
      ensures Inv(Abs()) && Abs() == Step(old(Abs()), Append)
      ensures id == old(nextReqId) && nextReqId == id + 1 && execQue == old(execQue) + [id] && waking == old(waking) + 1
      ensures inCh == old(inCh) && executing == old(executing) && answered == old(answered)
    {
      AppendKeepsInv(Abs());
      id := nextReqId;
      nextReqId := nextReqId + 1;
      execQue := execQue + [id];
      waking := waking + 1;
    }

    method SendWakeUp()
      requires Inv(Abs()) && waking > 0
      modifies this
      ensures Inv(Abs()) && Abs() == Step(old(Abs()), Event.SendWakeUp)
      ensures inCh == old(inCh) + [WakeUp] && execQue == old(execQue) && executing == old(executing)
    {
      StepKeepsInv(Abs(), Event.SendWakeUp);
      inCh := inCh + [WakeUp];
      waking := waking - 1;
    }

    /** `handleAbortedByCCTxn`: back to the head of the queue. */
    method HandleAborted(id: ReqId)
      modifies this`execQue
      ensures execQue == [id] + old(execQue)
    {
      execQue := [id] + execQue;
    }

    /** The loop's first half: one message. */
    method ReceiveOne() returns (answeredId: Option<ReqId>)
      requires Inv(Abs()) && Enabled(Abs(), Receive)
      modifies this
      ensures Inv(Abs()) && Abs() == Step(old(Abs()), Receive)
      ensures answeredId.Some? <==> old(inCh)[0].Result? && old(inCh)[0].outcome == Answer
      ensures answeredId.Some? ==> answeredId.value == old(inCh)[0].id && answeredId.value !in old(answered)
      ensures answered == old(answered) + if answeredId.Some? then {answeredId.value} else {}
      ensures inCh == old(inCh)[1..] && executing == old(executing) && waking == old(waking) && nextReqId == old(nextReqId)
      ensures execQue == (if old(inCh)[0].Result? && old(inCh)[0].outcome == AbortedByConcurrency then [old(inCh)[0].id] else []) + old(execQue)
      ensures curExectingReqNum == old(curExectingReqNum) - if old(inCh)[0].Result? then 1 else 0
    {
      ghost var next := DoReceive(Abs());
      ReceiveKeepsInv(Abs());
      assert Inv(next);
      var recvVal := inCh[0];
      inCh := inCh[1..];
      answeredId := None;
      if recvVal.Result? {
        if recvVal.outcome == Answer { AnsweredOnce(old(Abs()), recvVal.id); }
        curExectingReqNum := curExectingReqNum - 1;
        if recvVal.outcome == AbortedByConcurrency {
          HandleAborted(recvVal.id);
        } else {
          answeredId := Some(recvVal.id);
          answered := answered + {recvVal.id};
        }
      }
      pc := Dispatching;
      assert Abs() == next;
    }

    /** The loop's second half: start the first waiting request if a worker may be started. */
    method DispatchOne() returns (started: Option<ReqId>)
      requires Inv(Abs()) && pc == Dispatching
      modifies this
      ensures Inv(Abs()) && Abs() == Step(old(Abs()), Dispatch)
      ensures started == if old(execQue) != [] && old(curExectingReqNum) < maxTxnThreadNum then Some(old(execQue)[0]) else None
      ensures execQue == if started.Some? then old(execQue)[1..] else old(execQue)
      ensures executing == old(executing) + if started.Some? then {started.value} else {}
      ensures curExectingReqNum == old(curExectingReqNum) + if started.Some? then 1 else 0
      ensures inCh == old(inCh) && answered == old(answered) && waking == old(waking) && nextReqId == old(nextReqId)
    {
      DispatchKeepsInv(Abs());
      started := None;
      if |execQue| > 0 && curExectingReqNum < maxTxnThreadNum {
        var qr := execQue[0];
        execQue := execQue[1..];
        started := Some(qr);
        executing := executing + {qr};
        curExectingReqNum := curExectingReqNum + 1;
      }
      pc := Receiving;
      assert Abs() == DoDispatch(old(Abs()));
    }
  }
}
