/** Concrete runs: chaining single steps of the machine, and single records of redo and undo. */
module RunStates {
  import opened Wrappers
  import opened Bytes
  import opened SlottedPage
  import opened LockTable
  import opened Transactions
  import opened Recovery

  ghost predicate Leads(s: State, e: Event, s': State) {
    Enabled(s, e) && Step(s, e) == Next(s')
  }

  /** The states around the events of a run. */
  ghost predicate Linked(es: seq<Event>, ss: seq<State>) {
    |ss| == |es| + 1 && forall i :: 0 <= i < |es| ==> Leads(ss[i], es[i], ss[i + 1])
  }

  lemma LinkedConcat(es: seq<Event>, ss: seq<State>, fs: seq<Event>, ts: seq<State>)
    requires Linked(es, ss) && Linked(fs, ts) && ss[|es|] == ts[0]
    ensures Linked(es + fs, ss + ts[1..])
  {
    var us := ss + ts[1..];
    forall i | 0 <= i < |es + fs| ensures Leads(us[i], (es + fs)[i], us[i + 1]) {
      if i < |es| { assert Leads(ss[i], es[i], ss[i + 1]); }
      else { assert Leads(ts[i - |es|], fs[i - |es|], ts[i - |es| + 1]); }
    }
  }

  lemma {:induction false} StatesRun(ps: Pages, es: seq<Event>, ss: seq<State>, k: nat)
    requires Linked(es, ss) && ss[0] == Initial(ps) && k <= |es|
    ensures Run(ps, es[..k]) == Some(Next(ss[k]))
  {
    if k > 0 {
      StatesRun(ps, es, ss, k - 1);
      assert es[..k][..k - 1] == es[..k - 1];
      assert Leads(ss[k - 1], es[k - 1], ss[k - 1 + 1]);
    }
  }

  lemma LinkFive(s0: State, e1: Event, s1: State, e2: Event, s2: State, e3: Event, s3: State, e4: Event, s4: State,
                 e5: Event, s5: State) returns (ss: seq<State>)
    requires Leads(s0, e1, s1) && Leads(s1, e2, s2) && Leads(s2, e3, s3) && Leads(s3, e4, s4) && Leads(s4, e5, s5)
    ensures Linked([e1, e2, e3, e4, e5], ss) && ss[0] == s0 && ss[5] == s5
  {
    LinkOn([], [s0], e1, s1);
    LinkOn([e1], [s0, s1], e2, s2);
    LinkOn([e1, e2], [s0, s1, s2], e3, s3);
    LinkOn([e1, e2, e3], [s0, s1, s2, s3], e4, s4);
    LinkOn([e1, e2, e3, e4], [s0, s1, s2, s3, s4], e5, s5);
    ss := [s0, s1, s2, s3, s4, s5];
  }

  lemma LinkSix(s0: State, e1: Event, s1: State, e2: Event, s2: State, e3: Event, s3: State, e4: Event, s4: State,
                e5: Event, s5: State, e6: Event, s6: State) returns (ss: seq<State>)
    requires Leads(s0, e1, s1) && Leads(s1, e2, s2) && Leads(s2, e3, s3) && Leads(s3, e4, s4) && Leads(s4, e5, s5)
    requires Leads(s5, e6, s6)
    ensures Linked([e1, e2, e3, e4, e5] + [e6], ss) && ss[0] == s0 && ss[6] == s6
  {
    ss := LinkFive(s0, e1, s1, e2, s2, e3, s3, e4, s4, e5, s5);
    LinkOn([e1, e2, e3, e4, e5], ss, e6, s6);
    ss := ss + [s6];
  }

  lemma LinkOn(es: seq<Event>, ss: seq<State>, e: Event, s: State)
    requires Linked(es, ss) && Leads(ss[|es|], e, s)
    ensures Linked(es + [e], ss + [s])
  {
    LinkOne(ss[|es|], e, s);
    LinkedConcat(es, ss, [e], [ss[|es|], s]);
  }

  lemma LinkOne(s: State, e: Event, s': State)
    requires Leads(s, e, s')
    ensures Linked([e], [s, s'])
  {
  }

  lemma {:induction false} DisksRedo(log: seq<LogRecord>, ds: seq<Disk>, k: nat)
    requires |ds| == |log| + 1 && k <= |log|
    requires forall i :: 0 <= i < |log| ==> RedoRecord(ds[i], i, log[i].body) == Some(ds[i + 1])
    ensures RedoAll(ds[0], log[..k]) == Some(ds[k])
  {
    if k > 0 {
      DisksRedo(log, ds, k - 1);
      assert log[..k][..k - 1] == log[..k - 1];
      assert RedoRecord(ds[k - 1], k - 1, log[k - 1].body) == Some(ds[k - 1 + 1]);
    }
  }
}
