/** In which order requests are started: the queue is served from its head, a new request joins at
  * its end, and one aborted by the concurrency control comes back to its head. */
module RequestOrder {
  import opened Wrappers
  import opened RequestManager

  /** The step takes up the execution of the request. */
  predicate Begins(s: State, e: Event, id: ReqId)
    requires Enabled(s, e)
  {
    id !in s.executing && id in Step(s, e).executing
  }

  lemma HeadIsNotExecuting(s: State)
    requires Inv(s) && s.execQue != []
    ensures s.execQue[0] !in s.executing
  {
    assert s.execQue == [s.execQue[0]] + s.execQue[1..];
    assert Places(s)[s.execQue[0]] <= 1;
  }

  /** What each step does to the queue, and which request it starts. */
  lemma QueueChanges(s: State, e: Event)
    requires Inv(s) && Enabled(s, e)
    ensures var q, q' := s.execQue, Step(s, e).execQue;
            && (e.Append? ==> q' == q + [s.nextReqId])
            && (Aborts(s, e) ==> q' == [s.inCh[0].id] + q)
            && ((exists id :: Begins(s, e, id)) ==> q != [] && Begins(s, e, q[0]) && q' == q[1..])
            && (!e.Append? && !Aborts(s, e) && (forall id :: !Begins(s, e, id)) ==> q' == q)
    ensures forall id :: Begins(s, e, id) ==> id == s.execQue[0]
    ensures e.Dispatch? && s.execQue != [] && s.curExecuting < s.max ==> Begins(s, e, s.execQue[0])
  {
    if s.execQue != [] { HeadIsNotExecuting(s); }
    if e.Dispatch? && s.execQue != [] && s.curExecuting < s.max { assert Begins(s, e, s.execQue[0]); }
  }

  /** The channel hands over in the order it was given: a message is taken from its head, a wake-up or a
    * result joins at its end. */
  lemma ChannelIsQueue(s: State, e: Event)
    requires Enabled(s, e)
    ensures var ch, ch' := s.inCh, Step(s, e).inCh;
            && (e.Receive? ==> ch == [ch[0]] + ch')
            && (e.SendWakeUp? ==> ch' == ch + [WakeUp])
            && (e.Finish? ==> ch' == ch + [Result(e.id, e.outcome)] && e.id !in Step(s, e).executing)
            && (e.Append? || e.Dispatch? ==> ch' == ch)
  {
  }

  // ---- runs from any state ----

  function RunOn(s: State, events: seq<Event>): Option<State> {
    if events == [] then Some(s)
    else
      var n := |events| - 1;
      match RunOn(s, events[..n])
      case Some(r) => if Enabled(r, events[n]) then Some(Step(r, events[n])) else None
      case None => None
  }

  lemma {:induction false} RunOnKeepsInv(s: State, events: seq<Event>)
    requires Inv(s) && RunOn(s, events).Some?
    ensures Inv(RunOn(s, events).value)
  {
    if events != [] {
      var n := |events| - 1;
      RunOnKeepsInv(s, events[..n]);
      StepKeepsInv(RunOn(s, events[..n]).value, events[n]);
    }
  }

  /** The request is started at some point of the run. */
  predicate StartedIn(s: State, events: seq<Event>, id: ReqId)
    requires RunOn(s, events).Some?
  {
    events != [] &&
    var n := |events| - 1;
    StartedIn(s, events[..n], id) || Begins(RunOn(s, events[..n]).value, events[n], id)
  }

  ghost predicate Ahead(queue: seq<ReqId>, a: ReqId, b: ReqId) {
    exists i, j :: 0 <= i < j < |queue| && queue[i] == a && queue[j] == b
  }

  lemma {:induction false} QueuedOnce(s: State, i: nat, j: nat)
    requires Inv(s) && i < j < |s.execQue|
    ensures s.execQue[i] != s.execQue[j]
  {
    assert Places(s)[s.execQue[i]] <= 1;
    if s.execQue[i] == s.execQue[j] {
      Twice(s.execQue, i, j);
      assert false;
    }
  }

  lemma Twice(q: seq<ReqId>, i: nat, j: nat)
    requires i < j < |q| && q[i] == q[j]
    ensures multiset(q)[q[i]] >= 2
  {
    assert q == q[..j] + [q[j]] + q[j + 1..];
    assert q[i] in q[..j];
  }

  /** One step leaves the order of two waiting requests, unless it starts the first of them. */
  lemma {:induction false} StepKeepsOrder(s: State, e: Event, a: ReqId, b: ReqId)
    requires Inv(s) && Enabled(s, e) && Ahead(s.execQue, a, b)
    ensures !Begins(s, e, b)
    ensures Begins(s, e, a) || Ahead(Step(s, e).execQue, a, b)
  {
    var i, j :| 0 <= i < j < |s.execQue| && s.execQue[i] == a && s.execQue[j] == b;
    QueueChanges(s, e);
    QueuedOnce(s, 0, j);
    var q' := Step(s, e).execQue;
    if Begins(s, e, s.execQue[0]) {
      if i > 0 { assert q'[i - 1] == a && q'[j - 1] == b; }
    } else if Aborts(s, e) {
      assert q'[i + 1] == a && q'[j + 1] == b;
    } else {
      assert q'[i] == a && q'[j] == b;
    }
  }

  /** As long as the first of two waiting requests is not started, it stays ahead of the second. */
  lemma {:induction false} StaysAhead(s: State, events: seq<Event>, a: ReqId, b: ReqId)
    requires Inv(s) && RunOn(s, events).Some? && Ahead(s.execQue, a, b)
    ensures StartedIn(s, events, a) || (Ahead(RunOn(s, events).value.execQue, a, b) && !StartedIn(s, events, b))
  {
    if events != [] {
      var n := |events| - 1;
      StaysAhead(s, events[..n], a, b);
      if !StartedIn(s, events[..n], a) {
        RunOnKeepsInv(s, events[..n]);
        StepKeepsOrder(RunOn(s, events[..n]).value, events[n], a, b);
      }
    }
  }

  /** Of two waiting requests the one nearer to the head is started first, whatever happens. */
  lemma StartedInOrder(s: State, events: seq<Event>, a: ReqId, b: ReqId)
    requires Inv(s) && RunOn(s, events).Some? && Ahead(s.execQue, a, b)
    requires StartedIn(s, events, b)
    ensures StartedIn(s, events, a)
    ensures exists k :: 0 <= k < |events| && RunOn(s, events[..k]).Some? && StartedIn(s, events[..k], a) && !StartedIn(s, events[..k], b)
  {
    StaysAhead(s, events, a, b);
    var k := FirstStart(s, events, a, b);
  }

  /** The moment behind the start of `a` and before any start of `b`. */
  lemma {:induction false} FirstStart(s: State, events: seq<Event>, a: ReqId, b: ReqId) returns (k: nat)
    requires Inv(s) && RunOn(s, events).Some? && Ahead(s.execQue, a, b)
    requires StartedIn(s, events, b)
    ensures k < |events| && RunOn(s, events[..k]).Some? && StartedIn(s, events[..k], a) && !StartedIn(s, events[..k], b)
  {
    var n := |events| - 1;
    StaysAhead(s, events, a, b);
    if StartedIn(s, events[..n], b) {
      k := FirstStart(s, events[..n], a, b);
      assert events[..n][..k] == events[..k];
    } else {
      k := n;
      RunOnKeepsInv(s, events[..n]);
      StaysAhead(s, events[..n], a, b);
      if !StartedIn(s, events[..n], a) { StepKeepsOrder(RunOn(s, events[..n]).value, events[n], a, b); }
    }
  }

  /** A request aborted by the concurrency control is started again before every request that was waiting
    * when its result was received. */
  lemma AbortedGoesFirst(s: State, id: ReqId, events: seq<Event>, w: ReqId)
    requires Inv(s) && Enabled(s, Receive) && s.inCh[0] == Result(id, AbortedByConcurrency) && w in s.execQue
    requires RunOn(Step(s, Receive), events).Some? && StartedIn(Step(s, Receive), events, w)
    ensures var s1 := Step(s, Receive);
            exists k :: 0 <= k < |events| && RunOn(s1, events[..k]).Some? && StartedIn(s1, events[..k], id) && !StartedIn(s1, events[..k], w)
  {
    var s1 := Step(s, Receive);
    StepKeepsInv(s, Receive);
    QueueChanges(s, Receive);
    assert s1.execQue == [id] + s.execQue;
    var j :| 0 <= j < |s.execQue| && s.execQue[j] == w;
    assert s1.execQue[0] == id && s1.execQue[j + 1] == w;
    StartedInOrder(s1, events, id, w);
  }

  /** A new request is started after every request that was waiting when it came. */
  lemma NewGoesLast(s: State, events: seq<Event>, w: ReqId)
    requires Inv(s) && w in s.execQue && RunOn(Step(s, Append), events).Some?
    requires StartedIn(Step(s, Append), events, s.nextReqId)
    ensures var s1 := Step(s, Append);
            exists k :: 0 <= k < |events| && RunOn(s1, events[..k]).Some? && StartedIn(s1, events[..k], w) && !StartedIn(s1, events[..k], s.nextReqId)
  {
    var s1 := Step(s, Append);
    StepKeepsInv(s, Append);
    QueueChanges(s, Append);
    var i :| 0 <= i < |s.execQue| && s.execQue[i] == w;
    assert s1.execQue[i] == w && s1.execQue[|s.execQue|] == s.nextReqId;
    StartedInOrder(s1, events, w, s.nextReqId);
  }
}
