/** What the loops do with the events they poll and the functors they are given, in every
    interleaving: nothing is dropped, doubled or taken out of order, and every round ends. */
module TeardownProgress {
  import opened Teardown
  import opened TeardownResults

  ghost predicate Taken(s: State, a: Action) { s.status.Up? && Enabled(s, a) }

  // ---------- Polled events ----------

  ghost function PolledIn(s: State, a: Action, l: nat): seq<Event> {
    if Taken(s, a) && a.Poll? && a.l == l then a.batch else []
  }

  /** All events that polls of loop `l` have reported. */
  ghost function Polled(n: nat, actions: seq<Action>, l: nat): seq<Event> {
    if actions == [] then []
    else
      var before, a := actions[..|actions| - 1], actions[|actions| - 1];
      Polled(n, before, l) + PolledIn(Exec(Init(n), before), a, l)
  }

  /** The event whose handler starts. */
  ghost function HandledIn(s: State, a: Action, l: nat): seq<Event> {
    if Taken(s, a) && a.HandleEvent? && a.l == l then [s.loops[l].batch[0]] else []
  }

  ghost function Handled(n: nat, actions: seq<Action>, l: nat): seq<Event> {
    if actions == [] then []
    else
      var before, a := actions[..|actions| - 1], actions[|actions| - 1];
      Handled(n, before, l) + HandledIn(Exec(Init(n), before), a, l)
  }

  lemma BatchElsewhere(s: State, a: Action, l: nat)
    requires Enabled(s, a) && l < |s.loops| && !(a.Poll? && a.l == l) && !(a.HandleEvent? && a.l == l)
    ensures l < |Next(s, a).loops| && Next(s, a).loops[l].batch == s.loops[l].batch
  {}

  lemma BatchOfNext(s: State, a: Action, l: nat)
    requires LoopsOk(s) && l < |s.loops| && Taken(s, a)
    requires Next(s, a).status != UseAfterFree
    ensures l < |Next(s, a).loops|
    ensures s.loops[l].batch + PolledIn(s, a, l) == HandledIn(s, a, l) + Next(s, a).loops[l].batch
  {
    if a.HandleEvent? && a.l == l {
      assert s.loops[l].batch == [s.loops[l].batch[0]] + s.loops[l].batch[1..];
    } else if a.Poll? && a.l == l {
      assert LoopOk(s, l);
    } else {
      BatchElsewhere(s, a, l);
    }
  }

  lemma BatchOfStep(s: State, a: Action, l: nat)
    requires Inv(s) && l < |s.loops|
    ensures l < |Step(s, a).loops|
    ensures s.loops[l].batch + PolledIn(s, a, l) == HandledIn(s, a, l) + Step(s, a).loops[l].batch
  {
    if Taken(s, a) {
      NextInv(s, a);
      BatchOfNext(s, a, l);
    }
  }

  /** A queue that is extended at its end and drained at its front. */
  lemma QueueStep<T>(into: seq<T>, out: seq<T>, queue: seq<T>, more: seq<T>, taken: seq<T>, rest: seq<T>)
    requires into == out + queue && queue + more == taken + rest
    ensures into + more == (out + taken) + rest
  {
    assert into + more == out + (queue + more);
  }

  /** In every interleaving the events handled so far, then the batch left, are exactly the events
      polled, in order. */
  lemma {:induction false} EveryEventIsHandled(n: nat, actions: seq<Action>, l: nat)
    requires n > 0 && l < n
    ensures var s := Exec(Init(n), actions);
            l < |s.loops| && Polled(n, actions, l) == Handled(n, actions, l) + s.loops[l].batch
  {
    if actions != [] {
      var before, a := actions[..|actions| - 1], actions[|actions| - 1];
      var s := Exec(Init(n), before);
      EveryEventIsHandled(n, before, l);
      ExecInv(n, before);
      BatchOfStep(s, a, l);
      QueueStep(Polled(n, before, l), Handled(n, before, l), s.loops[l].batch,
                PolledIn(s, a, l), HandledIn(s, a, l), Step(s, a).loops[l].batch);
    }
  }

  lemma NothingToHandle(s: State, l: nat)
    requires LoopsOk(s) && (Enabled(s, Swap(l)) || Enabled(s, RunOne(l)) || Enabled(s, Poll(l, [])))
    ensures s.loops[l].batch == []
  {
    assert LoopOk(s, l);
  }

  /** So a round of functors, or the next poll, starts only when every polled event was handled. */
  lemma RoundsFollowHandling(n: nat, actions: seq<Action>, l: nat)
    requires n > 0 && l < n
    requires var s := Exec(Init(n), actions);
             Enabled(s, Swap(l)) || Enabled(s, RunOne(l)) || Enabled(s, Poll(l, []))
    ensures Polled(n, actions, l) == Handled(n, actions, l)
  {
    EveryEventIsHandled(n, actions, l);
    ExecInv(n, actions);
    NothingToHandle(Exec(Init(n), actions), l);
  }

  lemma HandlingHolds(s: State, l: nat, a: Action, c: nat)
    requires LoopsOk(s) && Taken(s, a) && Next(s, a).status != UseAfterFree
    requires a == Lock(l, c) || (a == HandleEvent(l) && s.loops[l].batch[0] == Event(c, true))
    ensures Enabled(Next(s, a), Request(l, c))
  {
    assert LoopOk(s, l);
  }

  /** While a ready event is handled the handler holds the connection, and may ask for its removal;
      so may the callback of a timer that has locked it. */
  lemma HandlerHolds(n: nat, actions: seq<Action>, l: nat, a: Action, c: nat)
    requires n > 0 && Taken(Exec(Init(n), actions), a)
    requires var s := Exec(Init(n), actions);
             a == Lock(l, c) || (a == HandleEvent(l) && s.loops[l].batch[0] == Event(c, true))
    ensures Enabled(Exec(Init(n), actions + [a]), Request(l, c))
  {
    var s := Exec(Init(n), actions);
    ExecStep(n, actions, a);
    ExecInv(n, actions);
    NextInv(s, a);
    HandlingHolds(s, l, a, c);
    CollectKeepsEnabled(Next(s, a), l, c);
  }

  // ---------- Queued functors ----------

  /** What the action queues, and where. */
  ghost function QueuedIn(s: State, a: Action, l: nat): seq<Functor> {
    if !Taken(s, a) then []
    else match a
      case Request(k, c) =>
        if s.conns[c].fd !in s.connections then []
        else if k != 0 then (if l == 0 then [RemoveInLoop(c)] else [])
        else if l == s.conns[c].loop then [Destroy(c)] else []
      case RunOne(k) =>
        var f := s.loops[k].rest[0];
        if f.RemoveInLoop? && l == s.conns[f.c].loop then [Destroy(f.c)] else []
      case _ => []
  }

  ghost function Queued(n: nat, actions: seq<Action>, l: nat): seq<Functor> {
    if actions == [] then []
    else
      var before, a := actions[..|actions| - 1], actions[|actions| - 1];
      Queued(n, before, l) + QueuedIn(Exec(Init(n), before), a, l)
  }

  /** The functor that the action runs to its end. */
  ghost function RunIn(s: State, a: Action, l: nat): seq<Functor> {
    if Taken(s, a) && a.RunOne? && a.l == l && Next(s, a).status.Up? then [s.loops[l].rest[0]] else []
  }

  ghost function Run(n: nat, actions: seq<Action>, l: nat): seq<Functor> {
    if actions == [] then []
    else
      var before, a := actions[..|actions| - 1], actions[|actions| - 1];
      Run(n, before, l) + RunIn(Exec(Init(n), before), a, l)
  }

  lemma PendingOfRequest(s: State, k: nat, c: nat, l: nat)
    requires Inv(s) && l < |s.loops| && Taken(s, Request(k, c))
    ensures l < |Next(s, Request(k, c)).loops|
    ensures Pending(s.loops[l]) + QueuedIn(s, Request(k, c), l) == Pending(Next(s, Request(k, c)).loops[l])
  {
    assert LoopOk(s, k) && ConnOk(s, c);
  }

  lemma PendingOfPop(s: State, k: nat, l: nat)
    requires k < |s.loops| && l < |s.loops| && s.loops[k].rest != []
    ensures Pending(s.loops[l]) == (if k == l then [s.loops[l].rest[0]] else []) + Pending(Popped(s, k).loops[l])
  {
    if k == l { assert s.loops[l].rest == [s.loops[l].rest[0]] + s.loops[l].rest[1..]; }
  }

  lemma PendingOfRemoval(s: State, c: nat, l: nat)
    requires l < |s.loops| && c < |s.conns| && s.conns[c].loop < |s.loops|
    ensures var t := RemoveConnectionInLoop(s, c);
            && l < |t.loops| && t.status == s.status
            && Pending(t.loops[l]) == Pending(s.loops[l]) + if l == s.conns[c].loop then [Destroy(c)] else []
  {}

  lemma PendingOfDestruction(s: State, c: nat)
    requires c < |s.conns|
    ensures RemoveInEpoll(s, c).loops == s.loops
  {}

  lemma PendingOfRun(s: State, k: nat, l: nat)
    requires l < |s.loops| && Taken(s, RunOne(k)) && s.conns[s.loops[k].rest[0].c].loop < |s.loops|
    ensures l < |DoRunOne(s, k).loops|
    ensures Pending(s.loops[l]) + QueuedIn(s, RunOne(k), l) ==
            RunIn(s, RunOne(k), l) + Pending(DoRunOne(s, k).loops[l])
  {
    PendingOfPop(s, k, l);
    var c := s.loops[k].rest[0].c;
    if s.loops[k].rest[0].RemoveInLoop? {
      PendingOfRemoval(Popped(s, k), c, l);
    } else {
      PendingOfDestruction(Popped(s, k), c);
    }
  }

  lemma PendingElsewhere(s: State, a: Action, l: nat)
    requires Inv(s) && l < |s.loops| && Taken(s, a) && !a.Request? && !a.RunOne?
    ensures l < |Next(s, a).loops| && Pending(Next(s, a).loops[l]) == Pending(s.loops[l])
  {
    assert LoopOk(s, l);
  }

  lemma PendingOfStep(s: State, a: Action, l: nat)
    requires Inv(s) && l < |s.loops|
    ensures l < |Step(s, a).loops|
    ensures Pending(s.loops[l]) + QueuedIn(s, a, l) == RunIn(s, a, l) + Pending(Step(s, a).loops[l])
  {
    if Taken(s, a) {
      if a.Request? {
        PendingOfRequest(s, a.l, a.c, l);
      } else if a.RunOne? {
        FirstFunctor(s, a.l);
        PendingOfRun(s, a.l, l);
      } else {
        PendingElsewhere(s, a, l);
      }
    }
  }

  /** In every interleaving the functors a loop has run, then those it has yet to run, are exactly
      those queued for it, in order. */
  lemma {:induction false} EveryFunctorIsRun(n: nat, actions: seq<Action>, l: nat)
    requires n > 0 && l < n
    ensures var s := Exec(Init(n), actions);
            l < |s.loops| && Queued(n, actions, l) == Run(n, actions, l) + Pending(s.loops[l])
  {
    if actions != [] {
      var before, a := actions[..|actions| - 1], actions[|actions| - 1];
      var s := Exec(Init(n), before);
      EveryFunctorIsRun(n, before, l);
      ExecInv(n, before);
      PendingOfStep(s, a, l);
      QueueStep(Queued(n, before, l), Run(n, before, l), Pending(s.loops[l]),
                QueuedIn(s, a, l), RunIn(s, a, l), Pending(Step(s, a).loops[l]));
    }
  }

  // ---------- Rounds end ----------

  /** A step of the thread of loop `l` that takes no new work. */
  predicate OwnStep(a: Action, l: nat) {
    match a
    case Publish => l == 0
    case Establish => l == 0
    case HandleEvent(k) => k == l
    case Release(k, _) => k == l
    case Swap(k) => k == l
    case RunOne(k) => k == l
    case Finish(k) => k == l
    case _ => false
  }

  ghost function NextOwn(s: State, l: nat): (a: Action)
    requires LoopsOk(s) && l < |s.loops| && s.loops[l].phase != Polling
    ensures OwnStep(a, l) && Enabled(s, a)
  {
    var loop := s.loops[l];
    assert LoopOk(s, l);
    if loop.phase == Running && loop.rest == [] then Finish(l)
    else if loop.phase == Running then
      assert loop.rest[0] in loop.ran + Pending(loop) && FunctorOk(s, l, loop.rest[0]);
      RunOne(l)
    else if l == 0 && Creating(s) then (if s.conns[|s.conns| - 1].published then Establish else Publish)
    else if loop.batch != [] then HandleEvent(l)
    else if loop.held != {} then
      var c :| c in loop.held;
      Release(l, c)
    else Swap(l)
  }

  lemma ExecLast(s: State, run: seq<Action>, a: Action)
    ensures Exec(s, run + [a]) == Step(Exec(s, run), a)
  {
    assert (run + [a])[..|run|] == run;
  }

  lemma SplitLast<T>(before: seq<T>, run: seq<T>, first: seq<T>, last: T)
    requires run == first + [last]
    ensures before + run == before + first + [last]
  {}

  lemma ExecAppend(s: State, before: seq<Action>, run: seq<Action>)
    ensures Exec(s, before + run) == Exec(Exec(s, before), run)
    decreases |run|
  {
    if run == [] {
      assert before + run == before;
    } else {
      var (first, last) := (run[..|run| - 1], run[|run| - 1]);
      SplitLast(before, run, first, last);
      ExecAppend(s, before, first);
      ExecLast(s, before + first, last);
      ExecLast(Exec(s, before), first, last);
    }
  }

  lemma ExecPrepend(s: State, a: Action, run: seq<Action>)
    ensures Exec(s, [a] + run) == Exec(Step(s, a), run)
  {
    ExecAppend(s, [a], run);
    ExecLast(s, [], a);
    assert [] + [a] == [a];
  }

  /** The step leaves the loop less to do before it polls again. */
  ghost predicate Closer(s: State, t: State, l: nat)
    requires l < |s.loops| && l < |t.loops|
  {
    var (x, y) := (s.loops[l], t.loops[l]);
    || (x.phase == Dispatching && y.phase == Running)
    || (x.phase == y.phase
        && (Waiting(t, l) < Waiting(s, l)
            || (Waiting(t, l) == Waiting(s, l)
                && (|y.batch| < |x.batch|
                    || (y.batch == x.batch && (y.held < x.held || (y.held == x.held && |y.rest| < |x.rest|)))))))
  }

  /** The steps that the creation of a connection, which only the main loop does, still needs. */
  ghost function Waiting(s: State, l: nat): nat {
    if l != 0 || !Creating(s) then 0 else if s.conns[|s.conns| - 1].published then 1 else 2
  }

  lemma OwnNextIsCloser(s: State, l: nat)
    requires LoopsOk(s) && s.status.Up? && l < |s.loops| && s.loops[l].phase != Polling
    requires l == 0 && s.loops[l].phase == Running ==> !Creating(s)
    ensures var t := Next(s, NextOwn(s, l));
            l < |t.loops| && (t.status.Up? ==> t.loops[l].phase == Polling || Closer(s, t, l))
  {
    assert LoopOk(s, l);
  }

  lemma CollectKeepsCloser(s: State, t: State, l: nat)
    requires l < |s.loops| && l < |t.loops| && Closer(s, t, l)
    ensures Closer(s, Collect(t), l)
  {
    assert Waiting(Collect(t), l) == Waiting(t, l);
  }

  lemma OwnStepIsCloser(s: State, l: nat)
    requires Inv(s) && s.status.Up? && l < |s.loops| && s.loops[l].phase != Polling
    ensures var t := Step(s, NextOwn(s, l));
            && Inv(t) && l < |t.loops| && t.status in {Up, RemoveInEpollAbort}
            && (t.status.Up? ==> t.loops[l].phase == Polling || Closer(s, t, l))
  {
    var a := NextOwn(s, l);
    StepInv(s, a);
    if l == 0 && Creating(s) { assert ConnOk(s, |s.conns| - 1); }
    OwnNextIsCloser(s, l);
    if Next(s, a).status.Up? && Next(s, a).loops[l].phase != Polling { CollectKeepsCloser(s, Next(s, a), l); }
  }

  /** From any state of the invariant a loop comes back to `Poll` by its own steps, or aborts in a
      second removal from epoll. */
  lemma {:induction false} RoundEnds(s: State, l: nat) returns (run: seq<Action>)
    requires Inv(s) && s.status.Up? && l < |s.loops|
    ensures forall a | a in run :: OwnStep(a, l)
    ensures var t := Exec(s, run);
            t.status == RemoveInEpollAbort || (t.status.Up? && l < |t.loops| && t.loops[l].phase == Polling)
    decreases s.loops[l].phase == Dispatching, Waiting(s, l), |s.loops[l].batch|, s.loops[l].held, |s.loops[l].rest|
  {
    if s.loops[l].phase == Polling {
      run := [];
    } else {
      var a := NextOwn(s, l);
      var t := Step(s, a);
      OwnStepIsCloser(s, l);
      run := [];
      if t.status.Up? && t.loops[l].phase != Polling { run := RoundEnds(t, l); }
      ExecPrepend(s, a, run);
      run := [a] + run;
    }
  }

  /** In every reachable state, if no removal was requested twice, the loop needs nothing but its own
      steps to handle all events it has polled and be back in `Poll`. */
  lemma EveryRoundEnds(n: nat, actions: seq<Action>, l: nat) returns (run: seq<Action>)
    requires n > 0 && l < n && forall c :: TakenRequests(n, actions, c) <= 1
    ensures forall a | a in run :: OwnStep(a, l)
    ensures var t := Exec(Init(n), actions + run);
            && t.status.Up? && l < |t.loops| && t.loops[l].phase == Polling
            && Polled(n, actions + run, l) == Handled(n, actions + run, l)
  {
    OneRequestNeverAborts(n, actions);
    ExecInv(n, actions);
    EveryEventIsHandled(n, actions, l);
    run := RoundEnds(Exec(Init(n), actions), l);
    ExecAppend(Init(n), actions, run);
    OwnStepsRequestNothing(n, actions, run, l);
    OneRequestNeverAborts(n, actions + run);
    RoundsFollowHandling(n, actions + run, l);
  }

  lemma {:induction false} OwnStepsRequestNothing(n: nat, actions: seq<Action>, run: seq<Action>, l: nat)
    requires forall a | a in run :: OwnStep(a, l)
    ensures forall c :: TakenRequests(n, actions + run, c) == TakenRequests(n, actions, c)
    decreases |run|
  {
    if run == [] {
      assert actions + run == actions;
    } else {
      var before := run[..|run| - 1];
      assert (actions + run)[..|actions + run| - 1] == actions + before;
      assert run[|run| - 1] in run;
      OwnStepsRequestNothing(n, actions, before, l);
    }
  }
}
