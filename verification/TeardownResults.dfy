/** What holds of connection teardown in every interleaving, and a run that aborts. */
module TeardownResults {
  import opened Teardown

  lemma {:induction false} ExecInv(n: nat, actions: seq<Action>)
    requires n > 0
    ensures Inv(Exec(Init(n), actions))
  {
    if actions == [] {
    } else {
      ExecInv(n, actions[..|actions| - 1]);
      StepInv(Exec(Init(n), actions[..|actions| - 1]), actions[|actions| - 1]);
    }
  }

  // ---------- Main results, over every interleaving ----------

  /** Map entries are live connections that own their open descriptor. */
  ghost predicate MapIsLive(s: State) {
    forall f | f in s.connections ::
      var c := s.connections[f]; c < |s.conns| && s.conns[c].alive && s.conns[c].fd == f && f in s.open
  }

  /** Live connections have distinct descriptors. */
  ghost predicate OneDescriptorEach(s: State) {
    forall c, d | 0 <= c < d < |s.conns| && s.conns[c].alive && s.conns[d].alive :: s.conns[c].fd != s.conns[d].fd
  }

  /** A registered connection is alive, open, and something still owns it. */
  ghost predicate RegisteredAreOwned(s: State) {
    forall c | 0 <= c < |s.conns| && s.conns[c].inEpoll :: s.conns[c].alive && Held(s, c) && s.conns[c].fd in s.open
  }

  /** A queued removal, even a second one, can only erase its own connection's entry. */
  ghost predicate RemovalsEraseTheirOwn(s: State) {
    forall l, f | 0 <= l < |s.loops| && f in Pending(s.loops[l]) ::
      f.c < |s.conns| && (s.conns[f.c].fd in s.connections ==> s.connections[s.conns[f.c].fd] == f.c)
  }

  /** So does a removal requested on the main loop, which is carried out at once. */
  ghost predicate MainRequestsEraseTheirOwn(s: State) {
    forall c: nat | Enabled(s, Request(0, c)) && s.conns[c].fd in s.connections :: s.connections[s.conns[c].fd] == c
  }

  lemma InvMainRequestsEraseTheirOwn(s: State)
    requires Inv(s)
    ensures MainRequestsEraseTheirOwn(s)
  {
    forall c: nat | Enabled(s, Request(0, c)) && s.conns[c].fd in s.connections
      ensures s.connections[s.conns[c].fd] == c
    {
      assert LoopOk(s, 0);
    }
  }

  lemma InvMapIsLive(s: State)
    requires Inv(s)
    ensures MapIsLive(s)
  {}

  lemma InvOneDescriptorEach(s: State)
    requires Inv(s)
    ensures OneDescriptorEach(s)
  {}

  lemma InvRegisteredAreOwned(s: State)
    requires Inv(s)
    ensures RegisteredAreOwned(s)
  {
    forall c | 0 <= c < |s.conns| && s.conns[c].inEpoll ensures Held(s, c) { RegisteredIsHeld(s, c); }
  }

  lemma InvRemovalsEraseTheirOwn(s: State)
    requires Inv(s)
    ensures RemovalsEraseTheirOwn(s)
  {
    forall l, f | 0 <= l < |s.loops| && f in Pending(s.loops[l])
      ensures f.c < |s.conns| && (s.conns[f.c].fd in s.connections ==> s.connections[s.conns[f.c].fd] == f.c)
    {
      assert LoopOk(s, l) && f in s.loops[l].ran + Pending(s.loops[l]) && FunctorOk(s, l, f);
    }
  }

  lemma InvPublishIsFree(s: State)
    requires Inv(s) && Enabled(s, Publish)
    ensures s.conns[|s.conns| - 1].fd !in s.connections
  {
    assert ConnOk(s, |s.conns| - 1);
  }

  /** Map entries are live connections that own their open descriptor; live connections have
      distinct descriptors; a registered connection is alive and something still owns it;
      publishing never overwrites an entry; and a removal, queued or carried out at once, even a
      second one, can only erase its own connection's entry. */
  lemma TeardownSafety(n: nat, actions: seq<Action>)
    requires n > 0
    ensures var s := Exec(Init(n), actions);
            && MapIsLive(s) && OneDescriptorEach(s) && RegisteredAreOwned(s)
            && RemovalsEraseTheirOwn(s) && MainRequestsEraseTheirOwn(s)
            && (Enabled(s, Publish) ==> s.conns[|s.conns| - 1].fd !in s.connections)
            && s.status !in {EpollAddAbort, EpollDelAbort, UseAfterFree}
  {
    var s := Exec(Init(n), actions);
    ExecInv(n, actions);
    InvMapIsLive(s);
    InvOneDescriptorEach(s);
    InvRegisteredAreOwned(s);
    InvRemovalsEraseTheirOwn(s);
    InvMainRequestsEraseTheirOwn(s);
    if Enabled(s, Publish) { InvPublishIsFree(s); }
  }

  /** Every channel pointer in a polled batch is alive, open and registered with the loop that
      polled it, right up to the moment its handler runs. */
  lemma DispatchSafety(n: nat, actions: seq<Action>, l: nat, e: Event)
    requires n > 0
    requires var s := Exec(Init(n), actions); l < |s.loops| && e in s.loops[l].batch
    ensures var s := Exec(Init(n), actions);
            && e.c < |s.conns| && s.conns[e.c].alive && s.conns[e.c].fd in s.open
            && (l, s.conns[e.c].fd) in s.interest && s.interest[(l, s.conns[e.c].fd)] == e.c
  {
    ExecInv(n, actions);
    assert LoopOk(Exec(Init(n), actions), l);
  }

  /** A descriptor is closed only after its channel has left epoll: no single step both takes
      the channel out of epoll and drops the last reference, for the executed functors keep
      theirs until the whole vector is destroyed. */
  lemma ClosedAfterLeavingEpoll(n: nat, actions: seq<Action>, a: Action, c: nat)
    requires n > 0 && c < |Exec(Init(n), actions).conns| && Exec(Init(n), actions).conns[c].inEpoll
    ensures var s, t := Exec(Init(n), actions), Exec(Init(n), actions + [a]);
            |s.conns| <= |t.conns| && t.conns[c].alive && t.conns[c].fd == s.conns[c].fd && s.conns[c].fd in t.open
  {
    var s := Exec(Init(n), actions);
    assert (actions + [a])[..|actions|] == actions;
    ExecInv(n, actions);
    ExecInv(n, actions + [a]);
    if s.status.Up? && Enabled(s, a) { LeavingIsHeld(s, a, c); }
  }

  lemma LeavingIsHeld(s: State, a: Action, c: nat)
    requires Inv(s) && s.status.Up? && Enabled(s, a) && c < |s.conns| && s.conns[c].inEpoll
    ensures |Step(s, a).conns| >= |s.conns| && Step(s, a).conns[c].fd == s.conns[c].fd && Step(s, a).conns[c].alive
  {
    StaysRegistered(s, a, c);
    if a.RunOne? && s.loops[a.l].rest[0] == Destroy(c) {
      DestroyedIsHeld(s, a.l, c);
    } else {
      NextInv(s, a);
      RegisteredIsHeld(Next(s, a), c);
    }
  }

  lemma StaysRegistered(s: State, a: Action, c: nat)
    requires KernelOk(s) && s.status.Up? && Enabled(s, a) && c < |s.conns| && s.conns[c].inEpoll
    ensures var u := Next(s, a);
            && |u.conns| >= |s.conns| && u.conns[c].fd == s.conns[c].fd && u.conns[c].alive == s.conns[c].alive
            && (u.conns[c].inEpoll || (a.RunOne? && s.loops[a.l].rest[0] == Destroy(c)))
  {}

  lemma DestroyedIsHeld(s: State, l: nat, c: nat)
    requires Enabled(s, RunOne(l)) && s.loops[l].rest[0] == Destroy(c) && KernelOk(s) && s.conns[c].inEpoll
             && s.status.Up?
    ensures Held(Next(s, RunOne(l)), c)
  {
    var u := Next(s, RunOne(l));
    assert s.loops[l].rest[0] in u.loops[l].ran;
    assert LoopHolds(u.loops[l], c);
  }

  /** When the last reference goes the object dies, its descriptor is closed, and the kernel forgets
      what was registered for a closed descriptor; nothing else changes. */
  lemma LastReferenceIff(s: State, c: nat, f: nat, k: (nat, nat))
    requires c < |s.conns|
    ensures var t := Collect(s);
            && t.loops == s.loops && t.connections == s.connections && t.status == s.status && |t.conns| == |s.conns|
            && t.conns[c] == s.conns[c].(alive := s.conns[c].alive && Held(s, c))
            && (f in t.open <==>
                  f in s.open && forall d | 0 <= d < |s.conns| && s.conns[d].fd == f && s.conns[d].alive :: Held(s, d))
            && (k in t.interest <==> k in s.interest && k.1 in t.open)
            && (k in t.interest ==> t.interest[k] == s.interest[k])
  {}

  ghost predicate Destroys(s: State, a: Action, c: nat)
    requires Enabled(s, a)
  {
    a.RunOne? && s.loops[a.l].rest[0] == Destroy(c)
  }

  /** What each failure means, in any state: epoll is asked to add a descriptor it has, or to forget
      one it has not; a polled channel is gone; the map has no entry; a channel has left epoll. */
  lemma FailsIff(s: State, a: Action)
    requires s.status.Up? && Enabled(s, a)
    ensures Next(s, a).status == EpollAddAbort <==> a.Accept? && (a.loop, a.fd) in s.interest
    ensures Next(s, a).status == UseAfterFree <==>
            && a.HandleEvent?
            && (s.loops[a.l].batch[0].c >= |s.conns| || !s.conns[s.loops[a.l].batch[0].c].alive)
    ensures Next(s, a).status == MapLookupAbort <==> a.Request? && s.conns[a.c].fd !in s.connections
    ensures Next(s, a).status == RemoveInEpollAbort <==>
            exists c: nat :: Destroys(s, a, c) && c < |s.conns| && !s.conns[c].inEpoll
    ensures Next(s, a).status == EpollDelAbort <==>
            exists c: nat :: Destroys(s, a, c) && c < |s.conns| && s.conns[c].inEpoll
                        && (s.conns[c].loop, s.conns[c].fd) !in s.interest
  {
    if a.RunOne? { assert s.loops[a.l].rest[0].Destroy? ==> Destroys(s, a, s.loops[a.l].rest[0].c); }
  }

  // ---------- One removal request per connection ----------

  /** How often a removal of `c` was requested by a running process, the aborting call included. */
  ghost function TakenRequests(n: nat, actions: seq<Action>, c: nat): nat {
    if actions == [] then 0
    else
      var before, a := actions[..|actions| - 1], actions[|actions| - 1];
      var s := Exec(Init(n), before);
      TakenRequests(n, before, c) + if s.status.Up? && Enabled(s, a) && a.Request? && a.c == c then 1 else 0
  }

  lemma StepRequests(s: State, a: Action, c: nat)
    requires s.status.Up? && Enabled(s, a) && Step(s, a).status.Up?
    ensures |s.conns| <= |Step(s, a).conns|
    ensures c < |Step(s, a).conns| ==>
              Step(s, a).conns[c].requests ==
              (if c < |s.conns| then s.conns[c].requests else 0) + (if a.Request? && a.c == c then 1 else 0)
  {
  }

  lemma {:induction false} CountsRequests(n: nat, actions: seq<Action>, c: nat)
    requires n > 0 && Exec(Init(n), actions).status.Up?
    ensures TakenRequests(n, actions, c) ==
            if c < |Exec(Init(n), actions).conns| then Exec(Init(n), actions).conns[c].requests else 0
  {
    if actions == [] {
    } else {
      var before, a := actions[..|actions| - 1], actions[|actions| - 1];
      var s := Exec(Init(n), before);
      CountsRequests(n, before, c);
      if Enabled(s, a) { StepRequests(s, a, c); }
    }
  }

  /** What an abort tells: some connection's removal was requested for the second time. */
  lemma AbortingRequest(s: State, l: nat, c: nat)
    requires Inv(s) && s.status.Up? && Enabled(s, Request(l, c)) && !Next(s, Request(l, c)).status.Up?
    ensures s.conns[c].requests >= 1
  {
    assert LoopOk(s, l) && ConnOk(s, c);
  }

  lemma AbortingFunctor(s: State, l: nat)
    requires Inv(s) && s.status.Up? && Enabled(s, RunOne(l)) && !Next(s, RunOne(l)).status.Up?
    ensures var c := s.loops[l].rest[0].c; c < |s.conns| && s.conns[c].requests >= 2
  {
    FirstFunctor(s, l);
  }

  lemma AbortingStep(s: State, a: Action) returns (c: nat)
    requires Inv(s) && s.status.Up? && Enabled(s, a) && !Step(s, a).status.Up?
    ensures c < |s.conns| && s.conns[c].requests + (if a.Request? && a.c == c then 1 else 0) >= 2
  {
    NextInv(s, a);
    if a.Request? {
      c := a.c;
      AbortingRequest(s, a.l, c);
    } else {
      c := s.loops[a.l].rest[0].c;
      AbortingFunctor(s, a.l);
    }
  }

  /** If no connection's removal is requested twice, neither the failed map lookup in
      `RemoveConnection` nor the failed `RemoveInEpoll` is reachable. */
  lemma {:induction false} OneRequestNeverAborts(n: nat, actions: seq<Action>)
    requires n > 0 && forall c :: TakenRequests(n, actions, c) <= 1
    ensures Exec(Init(n), actions).status.Up?
  {
    if actions == [] {
    } else {
      var before, a := actions[..|actions| - 1], actions[|actions| - 1];
      var s := Exec(Init(n), before);
      forall c ensures TakenRequests(n, before, c) <= 1 {
        assert TakenRequests(n, actions, c) >= TakenRequests(n, before, c);
      }
      OneRequestNeverAborts(n, before);
      ExecInv(n, before);
      if Enabled(s, a) && !Step(s, a).status.Up? {
        var c := AbortingStep(s, a);
        CountsRequests(n, before, c);
        assert TakenRequests(n, actions, c) >= 2;
      }
    }
  }

  ghost predicate Drained(s: State) {
    forall l | 0 <= l < |s.loops| :: Pending(s.loops[l]) == []
  }

  /** And conversely: a run that has executed all its queued functors without aborting has
      requested each removal at most once, and exactly the requested connections have left
      epoll and the map. */
  lemma CleanRunsRequestOnce(n: nat, actions: seq<Action>, c: nat)
    requires n > 0 && Exec(Init(n), actions).status.Up? && Drained(Exec(Init(n), actions))
    ensures TakenRequests(n, actions, c) <= 1
    ensures var s := Exec(Init(n), actions);
            c < |s.conns| && s.conns[c].published ==>
              && (TakenRequests(n, actions, c) == 1 <==> !s.conns[c].inEpoll)
              && (TakenRequests(n, actions, c) == 1 <==> !InMap(s, c))
  {
    var s := Exec(Init(n), actions);
    ExecInv(n, actions);
    CountsRequests(n, actions, c);
    if c < |s.conns| {
      assert ConnOk(s, c);
    }
  }

  ghost predicate Owner(s: State, c: nat, f: nat) {
    c < |s.conns| && s.conns[c].alive && s.conns[c].fd == f
  }

  /** No descriptor leaks: in every interleaving each open one belongs to a live connection. */
  lemma {:induction false} OpenIsOwned(n: nat, actions: seq<Action>, f: nat) returns (c: nat)
    requires n > 0 && f in Exec(Init(n), actions).open
    ensures Owner(Exec(Init(n), actions), c, f)
  {
    var before, a := actions[..|actions| - 1], actions[|actions| - 1];
    var s := Exec(Init(n), before);
    if s.status.Up? && Enabled(s, a) {
      if f in s.open {
        c := OpenIsOwned(n, before, f);
        OwnerStays(s, a, c, f);
      } else {
        c := |s.conns|;
      }
      CollectKeepsOwner(Next(s, a), c, f);
    } else {
      c := OpenIsOwned(n, before, f);
    }
  }

  lemma OwnerStays(s: State, a: Action, c: nat, f: nat)
    requires Enabled(s, a) && Owner(s, c, f)
    ensures Owner(Next(s, a), c, f)
  {}

  lemma CollectKeepsOwner(s: State, c: nat, f: nat)
    requires Owner(s, c, f) && f in Collect(s).open
    ensures Owner(Collect(s), c, f)
  {
    assert !Freed(s, c);
  }

  /** A requested connection is gone once every loop is back in `Poll` with nothing queued, and its
      descriptor is closed unless the kernel has already given it to another one. */
  lemma RequestedIsClosed(n: nat, actions: seq<Action>, c: nat)
    requires n > 0 && Exec(Init(n), actions).status.Up? && Drained(Exec(Init(n), actions))
    requires var s := Exec(Init(n), actions);
             c < |s.conns| && s.conns[c].requests > 0 && forall l | 0 <= l < |s.loops| :: s.loops[l].phase == Polling
    ensures var s := Exec(Init(n), actions);
            && !s.conns[c].alive
            && (s.conns[c].fd in s.open ==> exists d :: d != c && Owner(s, d, s.conns[c].fd))
  {
    var s := Exec(Init(n), actions);
    ExecInv(n, actions);
    NothingLeft(s, c);
    if s.conns[c].alive { AliveIsHeld(n, actions, c); }
    if s.conns[c].fd in s.open {
      var d := OpenIsOwned(n, actions, s.conns[c].fd);
    }
  }

  lemma NothingLeft(s: State, c: nat)
    requires LoopsOk(s) && MapOk(s) && ConnsOk(s) && Drained(s) && c < |s.conns| && s.conns[c].requests > 0
    requires forall l | 0 <= l < |s.loops| :: s.loops[l].phase == Polling
    ensures !Held(s, c)
  {
    assert ConnOk(s, c);
    forall l | 0 <= l < |s.loops| ensures !LoopHolds(s.loops[l], c) {
      assert LoopOk(s, l) && Pending(s.loops[l]) == [];
    }
  }

  lemma {:induction false} AliveIsHeld(n: nat, actions: seq<Action>, c: nat)
    requires c < |Exec(Init(n), actions).conns| && Exec(Init(n), actions).conns[c].alive
    ensures Held(Exec(Init(n), actions), c)
  {
    var before, a := actions[..|actions| - 1], actions[|actions| - 1];
    var s := Exec(Init(n), before);
    if s.status.Up? && Enabled(s, a) {
      assert Held(Next(s, a), c);
      HeldFrame(Next(s, a), Step(s, a), c);
    } else {
      AliveIsHeld(n, before, c);
    }
  }

  lemma HeldFrame(s: State, t: State, c: nat)
    requires Held(s, c) && t.connections == s.connections && t.loops == s.loops
    ensures Held(t, c)
  {
  }

  /** A request on the main loop takes the connection out of the map and lets its caller go on. */
  lemma RequestClears(s: State, c: nat)
    requires LoopsOk(s) && ConnsOk(s) && |s.loops| > 0 && s.status.Up? && Enabled(s, Request(0, c))
    requires s.conns[c].fd in s.connections
    ensures var t := Next(s, Request(0, c));
            && t.status.Up? && |t.conns| == |s.conns| && t.conns[c].fd == s.conns[c].fd
            && t.conns[c].fd !in t.connections
            && Enabled(t, Request(0, c))
  {
    assert LoopOk(s, 0) && ConnOk(s, c);
  }

  /** On the main loop a second request right after the first always aborts the process. */
  lemma SecondRequestAborts(s: State, c: nat)
    requires Inv(s) && s.status.Up? && Enabled(s, Request(0, c))
    ensures Step(Step(s, Request(0, c)), Request(0, c)).status == MapLookupAbort
  {
    if s.conns[c].fd in s.connections {
      RequestClears(s, c);
      CollectKeepsEnabled(Next(s, Request(0, c)), 0, c);
    } else {
      assert Step(s, Request(0, c)).status == MapLookupAbort;
    }
  }

  lemma CollectKeepsEnabled(s: State, l: nat, c: nat)
    requires Enabled(s, Request(l, c))
    ensures Enabled(Collect(s), Request(l, c)) && Collect(s).connections == s.connections
    ensures Collect(s).conns[c].fd == s.conns[c].fd && Collect(s).status == s.status
  {}

  // ---------- Two runs from the start that abort ----------

  lemma ExecStep(n: nat, actions: seq<Action>, a: Action)
    ensures Exec(Init(n), actions + [a]) == Step(Exec(Init(n), actions), a)
  {
    assert (actions + [a])[..|actions|] == actions;
  }

  /** A main loop and a sub-loop, with one connection, whose parts are as given. */
  ghost predicate Is(s: State, main: Loop, sub: Loop, conn: Conn, inMap: bool, registered: bool) {
    && s.status.Up? && s.loops == [main, sub] && s.conns == [conn] && s.open == {3}
    && s.connections == (if inMap then map[3 := 0] else map[])
    && s.interest == (if registered then map[(1, 3) := 0] else map[])
  }

  lemma NothingFreed(t: State)
    requires |t.conns| == 1 && Held(t, 0) && forall k | k in t.interest :: k.1 in t.open
    ensures Collect(t) == t
  {
    var u := Collect(t);
    assert !Freed(t, 0);
    assert u.conns == t.conns;
    assert u.open == t.open;
    assert u.interest == t.interest;
  }

  lemma SomebodyHolds(t: State, main: Loop, sub: Loop, conn: Conn, inMap: bool, registered: bool)
    requires Is(t, main, sub, conn, inMap, registered)
    requires inMap || LoopHolds(main, 0) || LoopHolds(sub, 0)
    ensures Held(t, 0)
  {
    if inMap {
      assert 3 in t.connections && t.connections[3] == 0;
    } else {
      assert t.loops[0] == main && t.loops[1] == sub;
    }
  }

  /** While its only connection is held, a step collects nothing. */
  lemma StepIsNext(s: State, a: Action, main: Loop, sub: Loop, conn: Conn, inMap: bool, registered: bool)
    requires s.status.Up? && Enabled(s, a) && Is(Next(s, a), main, sub, conn, inMap, registered)
    requires inMap || LoopHolds(main, 0) || LoopHolds(sub, 0)
    ensures Is(Step(s, a), main, sub, conn, inMap, registered)
  {
    SomebodyHolds(Next(s, a), main, sub, conn, inMap, registered);
    NothingFreed(Next(s, a));
  }

  /** A handler takes a reference, or drops it. */
  lemma TakeAndDrop()
    ensures BUSY.(held := BUSY.held + {0}) == HOLDING
    ensures HOLDING.(held := HOLDING.held - {0}) == BUSY
  {
    var none: set<nat> := {};
    assert none + {0} == {0} && {0} - {0} == none;
  }

  const QUIET := Loop(Polling, [], [], [], [], {})

  const BUSY := Loop(Dispatching, [], [], [], [], {})

  const HOLDING := Loop(Dispatching, [], [], [], [], {0})

  const OPENED := Conn(3, 1, true, true, true, true, 0)

  const OPENING: seq<Action> := ACCEPTING + [Publish] + [Establish]

  const UNMAPPED := Conn(3, 1, true, true, false, false, 0)

  const ACCEPTING: seq<Action> := [] + [Poll(0, [])] + [Accept(3, 1)]

  /** The main loop makes a connection for the only sub-loop. */
  lemma FirstAccept()
    ensures Is(Exec(Init(2), ACCEPTING), HOLDING, QUIET, UNMAPPED, false, true)
  {
    TakeAndDrop();
    var s := Init(2);
    assert Exec(s, []) == s;
    var s1 := Step(s, Poll(0, []));
    assert s1.loops == [BUSY, QUIET] && s1.conns == [] && s1.open == {} && s1.interest == map[]
           && s1.connections == map[];
    ExecStep(2, [], Poll(0, []));
    StepIsNext(s1, Accept(3, 1), HOLDING, QUIET, UNMAPPED, false, true);
    ExecStep(2, [] + [Poll(0, [])], Accept(3, 1));
  }

  lemma FirstPublish(s: State)
    requires Is(s, HOLDING, QUIET, UNMAPPED, false, true)
    ensures Is(Step(s, Publish), HOLDING, QUIET, UNMAPPED.(published := true), true, true)
  {
    var t := Next(s, Publish);
    assert t.connections == map[3 := 0];
    assert t.conns == [UNMAPPED.(published := true)];
    StepIsNext(s, Publish, HOLDING, QUIET, UNMAPPED.(published := true), true, true);
  }

  lemma FirstEstablish(s: State)
    requires Is(s, HOLDING, QUIET, UNMAPPED.(published := true), true, true)
    ensures Is(Step(s, Establish), HOLDING, QUIET, OPENED, true, true)
  {
    assert Next(s, Establish).conns == [OPENED];
    StepIsNext(s, Establish, HOLDING, QUIET, OPENED, true, true);
  }

  /** A server with one sub-loop, which owns the first connection; the main loop is still inside
      the accept handler and holds it. */
  lemma FirstConnection()
    ensures Is(Exec(Init(2), OPENING), HOLDING, QUIET, OPENED, true, true)
  {
    FirstAccept();
    FirstPublish(Exec(Init(2), ACCEPTING));
    ExecStep(2, ACCEPTING, Publish);
    FirstEstablish(Exec(Init(2), ACCEPTING + [Publish]));
    ExecStep(2, ACCEPTING + [Publish], Establish);
  }

  /** On the main loop, a second request right after the first fails the map lookup. */
  lemma TwoRequestsAbort() returns (actions: seq<Action>)
    ensures actions == OPENING + [Request(0, 0)] + [Request(0, 0)]
    ensures Exec(Init(2), actions).status == MapLookupAbort
  {
    FirstConnection();
    ExecInv(2, OPENING);
    var r := Request(0, 0);
    ExecStep(2, OPENING, r);
    ExecStep(2, OPENING + [r], r);
    SecondRequestAborts(Exec(Init(2), OPENING), 0);
    actions := OPENING + [r] + [r];
  }

  lemma OneMore<T>(a: T, b: T)
    ensures [] + [a] == [a] && [a] + [b] == [a, b] && [a][1..] == [] && [a, b][1..] == [b]
  {}

  ghost function Asking(requests: nat): Conn { OPENED.(requests := requests) }

  const REMOVE := RemoveInLoop(0)

  const DESTROY := Destroy(0)

  /** The main loop's handler ends, and the sub-loop starts to handle a read event. */
  lemma SubLoopHandles() returns (actions: seq<Action>)
    ensures Is(Exec(Init(2), actions), BUSY, HOLDING, OPENED, true, true)
  {
    FirstConnection();
    TakeAndDrop();
    var s := Exec(Init(2), OPENING);
    StepIsNext(s, Release(0, 0), BUSY, QUIET, OPENED, true, true);
    ExecStep(2, OPENING, Release(0, 0));
    actions := OPENING + [Release(0, 0)];
    var s1 := Step(s, Release(0, 0));
    var e := Event(0, true);
    OneMore(e, e);
    StepIsNext(s1, Poll(1, [e]), BUSY, BUSY.(batch := [e]), OPENED, true, true);
    ExecStep(2, actions, Poll(1, [e]));
    actions := actions + [Poll(1, [e])];
    var s2 := Step(s1, Poll(1, [e]));
    StepIsNext(s2, HandleEvent(1), BUSY, HOLDING, OPENED, true, true);
    ExecStep(2, actions, HandleEvent(1));
    actions := actions + [HandleEvent(1)];
  }

  /** It asks for the removal twice: a read that fails, then a write. */
  lemma SubLoopAsksTwice(before: seq<Action>) returns (actions: seq<Action>)
    requires Is(Exec(Init(2), before), BUSY, HOLDING, OPENED, true, true)
    ensures Is(Exec(Init(2), actions), BUSY.(todo := [REMOVE, REMOVE]), BUSY, Asking(2), true, true)
  {
    TakeAndDrop();
    OneMore(REMOVE, REMOVE);
    var s := Exec(Init(2), before);
    var r := Request(1, 0);
    StepIsNext(s, r, BUSY.(todo := [REMOVE]), HOLDING, Asking(1), true, true);
    ExecStep(2, before, r);
    actions := before + [r];
    var s1 := Step(s, r);
    StepIsNext(s1, r, BUSY.(todo := [REMOVE, REMOVE]), HOLDING, Asking(2), true, true);
    ExecStep(2, actions, r);
    actions := actions + [r];
    var s2 := Step(s1, r);
    StepIsNext(s2, Release(1, 0), BUSY.(todo := [REMOVE, REMOVE]), BUSY, Asking(2), true, true);
    ExecStep(2, actions, Release(1, 0));
    actions := actions + [Release(1, 0)];
  }

  lemma FirstRemoval(s: State, main: Loop)
    requires Is(s, Loop(Running, [], [], [REMOVE, REMOVE], [], {}), BUSY, Asking(2), true, true)
    requires main == Loop(Running, [], [REMOVE], [REMOVE], [], {})
    ensures LoopHolds(main, 0) && Is(Next(s, RunOne(0)), main, BUSY.(todo := [DESTROY]), Asking(2), false, true)
  {
    OneMore(REMOVE, REMOVE);
    OneMore(DESTROY, DESTROY);
    assert REMOVE in main.ran;
    var none: map<nat, nat> := map[];
    assert map[3 := 0] - {3} == none;
    var s1 := SetLoop(s, 0, main);
    assert s1.loops == [main, BUSY];
    assert RemoveConnectionInLoop(s1, 0).loops == [main, BUSY.(todo := [DESTROY])];
  }

  /** The main loop runs the first removal, which queues a destruction. */
  lemma MainLoopRunsOne(before: seq<Action>) returns (actions: seq<Action>)
    requires Is(Exec(Init(2), before), BUSY.(todo := [REMOVE, REMOVE]), BUSY, Asking(2), true, true)
    ensures Is(Exec(Init(2), actions), Loop(Running, [], [REMOVE], [REMOVE], [], {}),
               BUSY.(todo := [DESTROY]), Asking(2), false, true)
  {
    var s := Exec(Init(2), before);
    StepIsNext(s, Swap(0), Loop(Running, [], [], [REMOVE, REMOVE], [], {}), BUSY, Asking(2), true, true);
    ExecStep(2, before, Swap(0));
    actions := before + [Swap(0)];
    var s1 := Step(s, Swap(0));
    var main := Loop(Running, [], [REMOVE], [REMOVE], [], {});
    FirstRemoval(s1, main);
    StepIsNext(s1, RunOne(0), main, BUSY.(todo := [DESTROY]), Asking(2), false, true);
    ExecStep(2, actions, RunOne(0));
    actions := actions + [RunOne(0)];
  }

  /** So does the second. */
  lemma MainLoopRunsBoth(before: seq<Action>) returns (actions: seq<Action>, main: Loop)
    requires Is(Exec(Init(2), before), Loop(Running, [], [REMOVE], [REMOVE], [], {}),
                BUSY.(todo := [DESTROY]), Asking(2), false, true)
    ensures LoopHolds(main, 0)
    ensures Is(Exec(Init(2), actions), main, BUSY.(todo := [DESTROY, DESTROY]), Asking(2), false, true)
  {
    OneMore(REMOVE, REMOVE);
    OneMore(DESTROY, DESTROY);
    main := Loop(Running, [], [REMOVE, REMOVE], [], [], {});
    assert REMOVE in main.ran;
    StepIsNext(Exec(Init(2), before), RunOne(0), main, BUSY.(todo := [DESTROY, DESTROY]), Asking(2), false, true);
    ExecStep(2, before, RunOne(0));
    actions := before + [RunOne(0)];
  }

  /** The sub-loop takes its channel out of epoll, and aborts when it is to do so again. */
  lemma SubLoopAborts(before: seq<Action>, main: Loop) returns (actions: seq<Action>)
    requires Is(Exec(Init(2), before), main, BUSY.(todo := [DESTROY, DESTROY]), Asking(2), false, true)
             && LoopHolds(main, 0)
    ensures var t := Exec(Init(2), actions);
            && t.status == RemoveInEpollAbort && |t.conns| == 1
            && t.conns[0].loop == 1 && t.conns[0].requests == 2
  {
    var s := Exec(Init(2), before);
    var l1 := Loop(Running, [], [], [DESTROY, DESTROY], [], {});
    StepIsNext(s, Swap(1), main, l1, Asking(2), false, true);
    ExecStep(2, before, Swap(1));
    actions := before + [Swap(1)];
    var s1 := Step(s, Swap(1));
    var l2 := Loop(Running, [], [DESTROY], [DESTROY], [], {});
    OneMore(DESTROY, DESTROY);
    StepIsNext(s1, RunOne(1), main, l2, Asking(2).(inEpoll := false), false, false);
    ExecStep(2, actions, RunOne(1));
    actions := actions + [RunOne(1)];
    ExecStep(2, actions, RunOne(1));
    actions := actions + [RunOne(1)];
  }

  /** Two requests from one handler of a sub-loop: both pass the map lookup, and the second
      destruction finds the channel gone from epoll. */
  lemma TwoSubLoopRequestsAbort() returns (actions: seq<Action>)
    ensures var t := Exec(Init(2), actions);
            && t.status == RemoveInEpollAbort && |t.conns| == 1
            && t.conns[0].loop == 1 && t.conns[0].requests == 2
  {
    var handling := SubLoopHandles();
    var asked := SubLoopAsksTwice(handling);
    var removed := MainLoopRunsOne(asked);
    var run, main := MainLoopRunsBoth(removed);
    actions := SubLoopAborts(run, main);
  }
}
