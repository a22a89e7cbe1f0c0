/** Connection teardown across event loops: `Server`, `Connection`, `Channel`, `Poller`.

    Every thread is an event loop; loop 0 is the main reactor that accepts.  One action is
    one atomic step of one loop, and an execution is any list of actions, so the theorems
    quantify over every interleaving.  The kernel is part of the state: the open file
    descriptors and the epoll interest lists.  A connection object lives while some
    `shared_ptr` to it exists: in the server's map, in a functor, or on a stack.  */
module Teardown {

  datatype Functor = RemoveInLoop(c: nat) | Destroy(c: nat)

  /** What `Poll` reports: a raw channel pointer, and whether a read or write bit is set. */
  datatype Event = Event(c: nat, ready: bool)

  datatype Phase = Polling | Dispatching | Running

  /** `ran + rest` is the vector swapped out of `todo`; it keeps its references until the
      whole vector is destroyed.  `held` are the `shared_ptr`s on the loop thread's stack. */
  datatype Loop = Loop(phase: Phase, batch: seq<Event>, ran: seq<Functor>, rest: seq<Functor>,
                       todo: seq<Functor>, held: set<nat>)

  /** `requests` counts the calls of `RemoveConnection` that got past the map lookup. */
  datatype Conn = Conn(fd: nat, loop: nat, alive: bool, inEpoll: bool, published: bool,
                       established: bool, requests: nat)

  datatype Status = Up | MapLookupAbort | RemoveInEpollAbort | EpollAddAbort | EpollDelAbort | UseAfterFree

  datatype State = State(status: Status, loops: seq<Loop>, conns: seq<Conn>, connections: map<nat, nat>,
                         open: set<nat>, interest: map<(nat, nat), nat>)

  datatype Action =
    | Accept(fd: nat, loop: nat)
    | Publish
    | Establish
    | Poll(l: nat, batch: seq<Event>)
    | HandleEvent(l: nat)
    | Lock(l: nat, c: nat)
    | Request(l: nat, c: nat)
    | Release(l: nat, c: nat)
    | Swap(l: nat)
    | RunOne(l: nat)
    | Finish(l: nat)

  ghost function Init(n: nat): State {
    State(Up, seq(n, _ => Loop(Polling, [], [], [], [], {})), [], map[], {}, map[])
  }

  /** The main loop is inside `NewConnection`: its newest connection is not yet established. */
  ghost predicate Creating(s: State) {
    |s.conns| > 0 && !s.conns[|s.conns| - 1].established
  }

  /** Loop `l` is dispatching and free to take its next step. */
  ghost predicate Free(s: State, l: nat) {
    l < |s.loops| && s.loops[l].phase == Dispatching && (l == 0 ==> !Creating(s))
  }

  ghost predicate Enabled(s: State, a: Action) {
    match a
    case Accept(fd, loop) => Free(s, 0) && loop < |s.loops| && fd !in s.open
    case Publish => Creating(s) && !s.conns[|s.conns| - 1].published
    case Establish => Creating(s) && s.conns[|s.conns| - 1].published
    case Poll(l, batch) =>
      && l < |s.loops| && s.loops[l].phase == Polling
      && forall e | e in batch ::
           && e.c < |s.conns| && (l, s.conns[e.c].fd) in s.interest
           && s.interest[(l, s.conns[e.c].fd)] == e.c
           && (e.ready ==> s.conns[e.c].established)
    case HandleEvent(l) => Free(s, l) && s.loops[l].batch != []
    case Lock(l, c) => Free(s, l) && c < |s.conns| && s.conns[c].alive && s.conns[c].established
    case Request(l, c) => Free(s, l) && c in s.loops[l].held && c < |s.conns|
    case Release(l, c) => Free(s, l) && c in s.loops[l].held
    case Swap(l) => Free(s, l) && s.loops[l].batch == [] && s.loops[l].held == {}
    case RunOne(l) =>
      l < |s.loops| && s.loops[l].phase == Running && s.loops[l].rest != [] && s.loops[l].rest[0].c < |s.conns|
    case Finish(l) => l < |s.loops| && s.loops[l].phase == Running && s.loops[l].rest == []
  }

  ghost function SetLoop(s: State, l: nat, loop: Loop): State
    requires l < |s.loops|
  {
    s.(loops := s.loops[l := loop])
  }

  ghost function SetConn(s: State, c: nat, conn: Conn): State
    requires c < |s.conns|
  {
    s.(conns := s.conns[c := conn])
  }

  ghost function Queue(s: State, l: nat, f: Functor): State
    requires l < |s.loops|
  {
    SetLoop(s, l, s.loops[l].(todo := s.loops[l].todo + [f]))
  }

  /** `Server::NewConnection` up to `SetET`: the object exists and epoll knows its channel. */
  ghost function DoAccept(s: State, fd: nat, loop: nat): State
    requires Enabled(s, Accept(fd, loop))
  {
    if (loop, fd) in s.interest then s.(status := EpollAddAbort)
    else
      var s1 := s.(conns := s.conns + [Conn(fd, loop, true, true, false, false, 0)],
                   open := s.open + {fd}, interest := s.interest[(loop, fd) := |s.conns|]);
      SetLoop(s1, 0, s.loops[0].(held := s.loops[0].held + {|s.conns|}))
  }

  /** `Server::RemoveConnectionInLoop`. */
  ghost function RemoveConnectionInLoop(s: State, c: nat): State
    requires c < |s.conns|
  {
    var s1 := s.(connections := s.connections - {s.conns[c].fd});
    if s.conns[c].loop < |s.loops| then Queue(s1, s.conns[c].loop, Destroy(c)) else s1
  }

  /** `Server::RemoveConnection`, called on loop `l`'s thread. */
  ghost function RemoveConnection(s: State, l: nat, c: nat): State
    requires Enabled(s, Request(l, c))
  {
    if s.conns[c].fd !in s.connections then s.(status := MapLookupAbort)
    else
      var s1 := SetConn(s, c, s.conns[c].(requests := s.conns[c].requests + 1));
      if l == 0 then RemoveConnectionInLoop(s1, c) else Queue(s1, 0, RemoveInLoop(c))
  }

  /** `Channel::RemoveInEpoll`. */
  ghost function RemoveInEpoll(s: State, c: nat): State
    requires c < |s.conns|
  {
    var k := (s.conns[c].loop, s.conns[c].fd);
    if !s.conns[c].inEpoll then s.(status := RemoveInEpollAbort)
    else if k !in s.interest then s.(status := EpollDelAbort)
    else SetConn(s.(interest := s.interest - {k}), c, s.conns[c].(inEpoll := false))
  }

  ghost function DoRunOne(s: State, l: nat): State
    requires Enabled(s, RunOne(l))
  {
    var loop := s.loops[l];
    var s1 := SetLoop(s, l, loop.(ran := loop.ran + [loop.rest[0]], rest := loop.rest[1..]));
    match loop.rest[0]
    case RemoveInLoop(c) => RemoveConnectionInLoop(s1, c)
    case Destroy(c) =>
      var s2 := RemoveInEpoll(s1, c);
      if s2.status.Up? then s2 else s.(status := s2.status)
  }

  ghost function Next(s: State, a: Action): State
    requires Enabled(s, a)
  {
    var last := |s.conns| - 1;
    match a
    case Accept(fd, loop) => DoAccept(s, fd, loop)
    case Publish =>
      SetConn(s.(connections := s.connections[s.conns[last].fd := last]), last, s.conns[last].(published := true))
    case Establish => SetConn(s, last, s.conns[last].(established := true))
    case Poll(l, batch) => SetLoop(s, l, s.loops[l].(phase := Dispatching, batch := batch))
    case HandleEvent(l) =>
      var loop := s.loops[l];
      var e := loop.batch[0];
      if e.c >= |s.conns| || !s.conns[e.c].alive then s.(status := UseAfterFree)
      else SetLoop(s, l, loop.(batch := loop.batch[1..], held := if e.ready then loop.held + {e.c} else loop.held))
    case Lock(l, c) => SetLoop(s, l, s.loops[l].(held := s.loops[l].held + {c}))
    case Request(l, c) => RemoveConnection(s, l, c)
    case Release(l, c) => SetLoop(s, l, s.loops[l].(held := s.loops[l].held - {c}))
    case Swap(l) => SetLoop(s, l, s.loops[l].(phase := Running, rest := s.loops[l].todo, todo := []))
    case RunOne(l) => DoRunOne(s, l)
    case Finish(l) => SetLoop(s, l, s.loops[l].(phase := Polling, ran := []))
  }

  ghost predicate Mentions(fs: seq<Functor>, c: nat) {
    exists f :: f in fs && f.c == c
  }

  ghost predicate LoopHolds(loop: Loop, c: nat) {
    c in loop.held || Mentions(loop.ran, c) || Mentions(loop.rest, c) || Mentions(loop.todo, c)
  }

  ghost predicate Held(s: State, c: nat) {
    || (exists f :: f in s.connections && s.connections[f] == c)
    || (exists l :: 0 <= l < |s.loops| && LoopHolds(s.loops[l], c))
  }

  /** The last `shared_ptr` is gone: the object dies, `~Socket` closes its descriptor, and
      the kernel forgets every registration of a closed descriptor. */
  ghost function Collect(s: State): State {
    var open := set f | f in s.open && !exists c :: 0 <= c < |s.conns| && Freed(s, c) && s.conns[c].fd == f;
    s.(conns := seq(|s.conns|, i requires 0 <= i < |s.conns| => s.conns[i].(alive := s.conns[i].alive && Held(s, i))),
       open := open,
       interest := map k | k in s.interest && k.1 in open :: s.interest[k])
  }

  ghost predicate Freed(s: State, c: nat)
    requires c < |s.conns|
  {
    s.conns[c].alive && !Held(s, c)
  }

  ghost function Step(s: State, a: Action): State {
    if s.status.Up? && Enabled(s, a) then Collect(Next(s, a)) else s
  }

  ghost function Exec(s: State, actions: seq<Action>): State {
    if actions == [] then s else Step(Exec(s, actions[..|actions| - 1]), actions[|actions| - 1])
  }

  ghost function Pending(loop: Loop): seq<Functor> {
    loop.rest + loop.todo
  }

  // ---------- The inductive invariant ----------

  ghost predicate LoopOk(s: State, l: nat)
    requires l < |s.loops|
  {
    var loop := s.loops[l];
    && (loop.phase != Running ==> loop.ran == [] && loop.rest == [])
    && (loop.phase != Dispatching ==> loop.batch == [] && loop.held == {})
    && (forall e | e in loop.batch ::
         e.c < |s.conns| && s.conns[e.c].inEpoll && s.conns[e.c].loop == l && (e.ready ==> s.conns[e.c].established))
    && (forall c | c in loop.held ::
          c < |s.conns| && s.conns[c].alive && (s.conns[c].established || (Creating(s) && l == 0)))
    && (forall f | f in loop.ran + Pending(loop) :: FunctorOk(s, l, f))
  }

  ghost predicate FunctorOk(s: State, l: nat, f: Functor) {
    && f.c < |s.conns| && s.conns[f.c].alive && s.conns[f.c].established
    && (f.RemoveInLoop? ==> l == 0) && (f.Destroy? ==> l == s.conns[f.c].loop)
  }

  ghost predicate KernelOk(s: State) {
    && (forall c | 0 <= c < |s.conns| && s.conns[c].alive :: s.conns[c].fd in s.open)
    && (forall c, d | 0 <= c < d < |s.conns| && s.conns[c].alive && s.conns[d].alive :: s.conns[c].fd != s.conns[d].fd)
    && (forall k | k in s.interest ::
         var c := s.interest[k]; c < |s.conns| && s.conns[c].inEpoll && k == (s.conns[c].loop, s.conns[c].fd))
    && (forall c | 0 <= c < |s.conns| && s.conns[c].inEpoll ::
         && s.conns[c].alive
         && (s.conns[c].loop, s.conns[c].fd) in s.interest && s.interest[(s.conns[c].loop, s.conns[c].fd)] == c)
  }

  ghost predicate MapOk(s: State) {
    forall f | f in s.connections ::
      var c := s.connections[f]; c < |s.conns| && s.conns[c].alive && s.conns[c].fd == f && s.conns[c].published
  }

  ghost function Count(loop: Loop, f: Functor): nat {
    multiset(Pending(loop))[f]
  }

  ghost function PendingRemovals(s: State, c: nat): nat
    requires |s.loops| > 0
  {
    Count(s.loops[0], RemoveInLoop(c))
  }

  ghost function PendingDestroys(s: State, c: nat): nat
    requires c < |s.conns| && s.conns[c].loop < |s.loops|
  {
    Count(s.loops[s.conns[c].loop], Destroy(c))
  }

  ghost predicate InMap(s: State, c: nat)
    requires c < |s.conns|
  {
    s.conns[c].fd in s.connections && s.connections[s.conns[c].fd] == c
  }

  /** Request conservation: each request is a queued removal, a queued destruction, or the
      one destruction that has happened.  And until it is destroyed a published connection
      is kept alive by its map entry or by a queued destruction. */
  ghost predicate ConnOk(s: State, c: nat)
    requires c < |s.conns| && |s.loops| > 0
  {
    var conn := s.conns[c];
    && conn.loop < |s.loops|
    && (conn.established ==> conn.published)
    && (c < |s.conns| - 1 ==> conn.established)
    && (!conn.established ==>
         conn.inEpoll && conn.requests == 0 && s.loops[0].phase == Dispatching && c in s.loops[0].held)
    && (conn.published ==> (InMap(s, c) <==> PendingDestroys(s, c) == 0 && conn.inEpoll))
    && conn.requests == PendingRemovals(s, c) + PendingDestroys(s, c) + (if conn.inEpoll then 0 else 1)
  }

  ghost predicate LoopsOk(s: State) {
    forall l | 0 <= l < |s.loops| :: LoopOk(s, l)
  }

  ghost predicate ConnsOk(s: State) {
    |s.loops| > 0 && forall c | 0 <= c < |s.conns| :: ConnOk(s, c)
  }

  ghost predicate Inv(s: State) {
    && LoopsOk(s) && KernelOk(s) && MapOk(s) && ConnsOk(s)
    && s.status !in {EpollAddAbort, EpollDelAbort, UseAfterFree}
  }

  // ---------- Frames ----------

  /** A loop stays in order when the connections it can name keep their facts. */
  lemma SameLoop(s: State, t: State, l: nat)
    requires l < |s.loops| && LoopOk(s, l)
    requires l < |t.loops| && t.loops[l] == s.loops[l]
    requires |s.conns| <= |t.conns|
    requires forall c | 0 <= c < |s.conns| ::
               && t.conns[c].loop == s.conns[c].loop && (s.conns[c].alive ==> t.conns[c].alive)
               && (s.conns[c].established ==> t.conns[c].established)
    requires forall e | e in s.loops[l].batch :: e.c < |s.conns| && t.conns[e.c].inEpoll
    requires forall c | c in s.loops[l].held :: c < |s.conns| && (t.conns[c].established || (Creating(t) && l == 0))
    ensures LoopOk(t, l)
  {
    forall f | f in t.loops[l].ran + Pending(t.loops[l]) ensures FunctorOk(t, l, f) {
      assert FunctorOk(s, l, f);
    }
  }

  ghost predicate SameKernel(s: State, t: State) {
    && |s.conns| == |t.conns| && t.open == s.open && t.interest == s.interest
    && forall c | 0 <= c < |s.conns| ::
         && t.conns[c].fd == s.conns[c].fd && t.conns[c].loop == s.conns[c].loop && t.conns[c].alive == s.conns[c].alive
         && t.conns[c].inEpoll == s.conns[c].inEpoll && (s.conns[c].published ==> t.conns[c].published)
  }

  lemma KernelFrame(s: State, t: State)
    requires SameKernel(s, t) && KernelOk(s)
    ensures KernelOk(t)
  {
  }

  lemma MapFrame(s: State, t: State)
    requires SameKernel(s, t) && MapOk(s)
    requires forall f | f in t.connections :: f in s.connections && t.connections[f] == s.connections[f]
    ensures MapOk(t)
  {
  }

  lemma ConnsFrame(s: State, t: State)
    requires ConnsOk(s) && t.conns == s.conns && t.connections == s.connections && |t.loops| == |s.loops|
    requires forall l | 0 <= l < |s.loops| :: Pending(t.loops[l]) == Pending(s.loops[l])
    requires Creating(s) ==> t.loops[0].phase == s.loops[0].phase && s.loops[0].held <= t.loops[0].held
    ensures ConnsOk(t)
  {
    forall c | 0 <= c < |s.conns| ensures ConnOk(t, c) {
      assert ConnOk(s, c);
      assert PendingRemovals(t, c) == PendingRemovals(s, c);
      assert PendingDestroys(t, c) == PendingDestroys(s, c);
    }
  }

  // ---------- Dropping the last reference ----------

  /** A registered connection always has an owner, so its descriptor stays open. */
  lemma RegisteredIsHeld(s: State, c: nat)
    requires ConnsOk(s) && c < |s.conns| && s.conns[c].inEpoll
    ensures Held(s, c)
  {
    var conn := s.conns[c];
    assert ConnOk(s, c);
    if !conn.published {
      assert LoopHolds(s.loops[0], c);
    } else if conn.fd in s.connections && s.connections[conn.fd] == c {
    } else {
      assert Destroy(c) in Pending(s.loops[conn.loop]);
      assert LoopHolds(s.loops[conn.loop], c);
    }
  }

  lemma CollectLoops(s: State)
    requires LoopsOk(s)
    ensures LoopsOk(Collect(s))
  {
    var t := Collect(s);
    forall l | 0 <= l < |s.loops| ensures LoopOk(t, l) {
      var loop := s.loops[l];
      assert LoopOk(s, l);
      forall f | f in loop.ran + Pending(loop) ensures FunctorOk(t, l, f) {
        assert FunctorOk(s, l, f);
        assert LoopHolds(loop, f.c);
      }
      forall c | c in loop.held ensures t.conns[c].alive { assert LoopHolds(loop, c); }
    }
  }

  lemma CollectConns(s: State)
    requires ConnsOk(s)
    ensures ConnsOk(Collect(s))
  {
    var t := Collect(s);
    forall c | 0 <= c < |s.conns| ensures ConnOk(t, c) {
      assert ConnOk(s, c);
      assert t.conns[c] == s.conns[c].(alive := t.conns[c].alive);
    }
  }

  lemma CollectKernel(s: State)
    requires KernelOk(s) && MapOk(s) && ConnsOk(s)
    ensures KernelOk(Collect(s)) && MapOk(Collect(s))
  {
    var t := Collect(s);
    forall c | 0 <= c < |s.conns| && t.conns[c].alive ensures t.conns[c].fd in t.open {
      assert !Freed(s, c);
    }
    forall c | 0 <= c < |s.conns| && s.conns[c].inEpoll ensures t.conns[c].alive {
      RegisteredIsHeld(s, c);
    }
  }

  lemma CollectInv(s: State)
    requires Inv(s)
    ensures Inv(Collect(s))
  {
    CollectLoops(s);
    CollectKernel(s);
    CollectConns(s);
  }

  // ---------- Creating a connection ----------

  /** No functor names a connection that does not exist yet. */
  lemma NoPendingFor(s: State, c: nat, l: nat)
    requires LoopsOk(s) && c >= |s.conns| && l < |s.loops|
    ensures Count(s.loops[l], RemoveInLoop(c)) == Count(s.loops[l], Destroy(c)) == 0
  {
    assert LoopOk(s, l);
    forall f | f in Pending(s.loops[l]) ensures f.c < |s.conns| {
      assert f in s.loops[l].ran + Pending(s.loops[l]) && FunctorOk(s, l, f);
    }
  }

  lemma AcceptLoops(s: State, fd: nat, loop: nat)
    requires LoopsOk(s) && Enabled(s, Accept(fd, loop)) && (loop, fd) !in s.interest
    ensures LoopsOk(DoAccept(s, fd, loop))
  {
    var t := DoAccept(s, fd, loop);
    forall l | 0 <= l < |s.loops| ensures LoopOk(t, l) {
      assert LoopOk(s, l);
      forall f | f in t.loops[l].ran + Pending(t.loops[l]) ensures FunctorOk(t, l, f) {
        assert f in s.loops[l].ran + Pending(s.loops[l]);
        assert FunctorOk(s, l, f);
      }
    }
  }

  lemma AcceptConn(s: State, fd: nat, loop: nat, c: nat)
    requires c < |s.conns| && |s.loops| > 0 && ConnOk(s, c) && Enabled(s, Accept(fd, loop)) && (loop, fd) !in s.interest
    ensures ConnOk(DoAccept(s, fd, loop), c)
  {
    var t := DoAccept(s, fd, loop);
    assert forall l | 0 <= l < |s.loops| :: Pending(t.loops[l]) == Pending(s.loops[l]);
  }

  lemma AcceptConns(s: State, fd: nat, loop: nat)
    requires LoopsOk(s) && ConnsOk(s) && Enabled(s, Accept(fd, loop)) && (loop, fd) !in s.interest
    ensures ConnsOk(DoAccept(s, fd, loop))
  {
    var t := DoAccept(s, fd, loop);
    forall c | 0 <= c < |t.conns| ensures ConnOk(t, c) {
      if c < |s.conns| {
        assert ConnOk(s, c);
        AcceptConn(s, fd, loop, c);
      } else {
        NoPendingFor(s, c, 0);
        NoPendingFor(s, c, loop);
        assert Pending(t.loops[0]) == Pending(s.loops[0]) && Pending(t.loops[loop]) == Pending(s.loops[loop]);
      }
    }
  }

  lemma AcceptInv(s: State, fd: nat, loop: nat)
    requires Inv(s) && Enabled(s, Accept(fd, loop))
    ensures Inv(Next(s, Accept(fd, loop)))
  {
    assert (loop, fd) !in s.interest;
    AcceptLoops(s, fd, loop);
    AcceptConns(s, fd, loop);
  }

  lemma PublishConns(s: State)
    requires ConnsOk(s) && MapOk(s) && Enabled(s, Publish)
    requires forall c | 0 <= c < |s.conns| - 1 && s.conns[c].alive :: s.conns[c].fd != s.conns[|s.conns| - 1].fd
    ensures ConnsOk(Next(s, Publish))
  {
    var t := Next(s, Publish);
    forall c | 0 <= c < |s.conns| ensures ConnOk(t, c) { assert ConnOk(s, c); }
  }

  lemma EstablishConns(s: State)
    requires ConnsOk(s) && Enabled(s, Establish)
    ensures ConnsOk(Next(s, Establish))
    ensures forall c | 0 <= c < |s.conns| :: Next(s, Establish).conns[c].established
  {
    var t := Next(s, Establish);
    forall c | 0 <= c < |s.conns| ensures ConnOk(t, c) && t.conns[c].established { assert ConnOk(s, c); }
  }

  /** Publishing and establishing change only the newest connection's flags and the map. */
  lemma CreationLoops(s: State, a: Action)
    requires LoopsOk(s) && Enabled(s, a) && (a.Publish? || a.Establish?)
    requires a.Establish? ==> forall c | 0 <= c < |s.conns| :: Next(s, a).conns[c].established
    ensures LoopsOk(Next(s, a))
  {
    var t := Next(s, a);
    forall l | 0 <= l < |s.loops| ensures LoopOk(t, l) {
      assert LoopOk(s, l);
      SameLoop(s, t, l);
    }
  }

  lemma PublishInv(s: State)
    requires Inv(s) && Enabled(s, Publish)
    ensures Inv(Next(s, Publish))
  {
    var t := Next(s, Publish);
    assert ConnOk(s, |s.conns| - 1);
    CreationLoops(s, Publish);
    KernelFrame(s, t);
    PublishConns(s);
  }

  lemma EstablishInv(s: State)
    requires Inv(s) && Enabled(s, Establish)
    ensures Inv(Next(s, Establish))
  {
    var t := Next(s, Establish);
    EstablishConns(s);
    CreationLoops(s, Establish);
    KernelFrame(s, t);
    MapFrame(s, t);
  }

  // ---------- Polling and dispatching ----------

  /** An action that changes one loop, keeping its pending functors. */
  lemma LoopChangeInv(s: State, l: nat, loop: Loop)
    requires Inv(s) && l < |s.loops|
    requires Pending(loop) == Pending(s.loops[l]) && LoopOk(SetLoop(s, l, loop), l)
    requires l == 0 && Creating(s) ==> loop == s.loops[0]
    ensures Inv(SetLoop(s, l, loop))
  {
    var t := SetLoop(s, l, loop);
    forall k | 0 <= k < |s.loops| ensures LoopOk(t, k) {
      assert LoopOk(s, k);
      if k != l { SameLoop(s, t, k); }
    }
    KernelFrame(s, t);
    MapFrame(s, t);
    ConnsFrame(s, t);
  }

  lemma DispatchLoop(s: State, a: Action)
    requires a.HandleEvent? || a.Lock? || a.Release? || a.Poll? || a.Swap? || a.Finish?
    requires KernelOk(s) && Enabled(s, a) && LoopOk(s, a.l)
    ensures Next(s, a) == SetLoop(s, a.l, Next(s, a).loops[a.l])
    ensures LoopOk(Next(s, a), a.l) && Pending(Next(s, a).loops[a.l]) == Pending(s.loops[a.l])
  {
    if a.HandleEvent? { assert s.loops[a.l].batch[0] in s.loops[a.l].batch; }
    var t := Next(s, a);
    assert Pending(t.loops[a.l]) == Pending(s.loops[a.l]);
    forall f | f in t.loops[a.l].ran + Pending(t.loops[a.l]) ensures FunctorOk(t, a.l, f) {
      assert f in s.loops[a.l].ran + Pending(s.loops[a.l]);
      assert FunctorOk(s, a.l, f);
    }
  }

  lemma DispatchInv(s: State, a: Action)
    requires Inv(s) && Enabled(s, a)
    requires a.HandleEvent? || a.Lock? || a.Release? || a.Poll? || a.Swap? || a.Finish?
    ensures Inv(Next(s, a))
  {
    assert LoopOk(s, a.l);
    DispatchLoop(s, a);
    if |s.conns| > 0 { assert ConnOk(s, |s.conns| - 1); }
    LoopChangeInv(s, a.l, Next(s, a).loops[a.l]);
  }

  // ---------- Requesting a removal ----------

  lemma AbortInv(s: State, status: Status)
    requires Inv(s) && status in {Up, MapLookupAbort, RemoveInEpollAbort}
    ensures Inv(s.(status := status))
  {
    var t := s.(status := status);
    forall l | 0 <= l < |s.loops| ensures LoopOk(t, l) {
      assert LoopOk(s, l);
      SameLoop(s, t, l);
    }
    KernelFrame(s, t);
    MapFrame(s, t);
    ConnsFrame(s, t);
  }

  /** Loop `k` has one more queued functor and nothing else about the loops, or about what
      the connections own, has changed. */
  ghost predicate Queued(s: State, t: State, k: nat, f: Functor) {
    && k < |s.loops| && t.loops == Queue(s, k, f).loops && |s.conns| == |t.conns|
    && (forall c | 0 <= c < |s.conns| :: t.conns[c] == s.conns[c].(requests := t.conns[c].requests))
    && FunctorOk(s, k, f)
  }

  lemma QueuedLoops(s: State, t: State, k: nat, f: Functor)
    requires LoopsOk(s) && Queued(s, t, k, f)
    ensures LoopsOk(t)
  {
    forall l | 0 <= l < |t.loops| ensures LoopOk(t, l) {
      assert LoopOk(s, l);
      forall g | g in t.loops[l].ran + Pending(t.loops[l]) ensures FunctorOk(t, l, g) {
        assert g == f || g in s.loops[l].ran + Pending(s.loops[l]);
        assert FunctorOk(s, l, g);
      }
    }
  }

  lemma QueuedCount(s: State, t: State, k: nat, f: Functor, l: nat, g: Functor)
    requires Queued(s, t, k, f) && l < |s.loops|
    ensures Count(t.loops[l], g) == Count(s.loops[l], g) + if l == k && g == f then 1 else 0
  {
    if l == k { assert Pending(t.loops[l]) == Pending(s.loops[l]) + [f]; }
  }

  /** The connection facts survive when one functor is queued and, for a destruction, the
      map entry goes; the request is counted or a pending removal is consumed. */
  lemma QueueConn(s: State, t: State, f: Functor, counted: bool, d: nat)
    requires |s.loops| == |t.loops| > 0 && |s.conns| == |t.conns| && f.c < |s.conns| && d < |s.conns|
    requires s.conns[f.c].alive && s.conns[f.c].established && MapOk(s) && ConnOk(s, d)
    requires forall c | 0 <= c < |s.conns| && s.conns[c].alive && s.conns[c].fd == s.conns[f.c].fd :: c == f.c
    requires t.conns[d] == s.conns[d].(requests := s.conns[d].requests + if counted && d == f.c then 1 else 0)
    requires t.connections == if f.Destroy? then s.connections - {s.conns[f.c].fd} else s.connections
    requires t.loops[0].phase == s.loops[0].phase && t.loops[0].held == s.loops[0].held
    requires Count(t.loops[0], RemoveInLoop(d)) + (if !counted && d == f.c then 1 else 0)
          == Count(s.loops[0], RemoveInLoop(d)) + (if f.RemoveInLoop? && d == f.c then 1 else 0)
    requires var l := s.conns[d].loop;
             Count(t.loops[l], Destroy(d)) == Count(s.loops[l], Destroy(d)) + (if f.Destroy? && d == f.c then 1 else 0)
    ensures ConnOk(t, d)
  {
    if d == f.c && f.Destroy? {
      assert !InMap(t, d);
    } else {
      assert InMap(t, d) <==> InMap(s, d);
    }
  }

  lemma RequestConns(s: State, t: State, k: nat, f: Functor)
    requires ConnsOk(s) && MapOk(s) && KernelOk(s) && Queued(s, t, k, f)
    requires f.RemoveInLoop? ==> k == 0
    requires t.conns == s.conns[f.c := s.conns[f.c].(requests := s.conns[f.c].requests + 1)]
    requires t.connections == if f.Destroy? then s.connections - {s.conns[f.c].fd} else s.connections
    ensures ConnsOk(t)
  {
    forall d | 0 <= d < |s.conns| ensures ConnOk(t, d) {
      assert ConnOk(s, d);
      QueuedCount(s, t, k, f, 0, RemoveInLoop(d));
      QueuedCount(s, t, k, f, s.conns[d].loop, Destroy(d));
      QueueConn(s, t, f, true, d);
    }
  }

  /** Where a request on loop `l` queues what, and the rest of what it does. */
  ghost predicate RequestedOn(s: State, t: State, l: nat, c: nat)
    requires c < |s.conns|
  {
    var k, f := if l == 0 then s.conns[c].loop else 0, if l == 0 then Destroy(c) else RemoveInLoop(c);
    && Queued(s, t, k, f) && SameKernel(s, t) && t.status == s.status
    && t.conns == s.conns[c := s.conns[c].(requests := s.conns[c].requests + 1)]
    && t.connections == if l == 0 then s.connections - {s.conns[c].fd} else s.connections
  }

  lemma RequestQueued(s: State, l: nat, c: nat)
    requires s.status.Up? && Enabled(s, Request(l, c)) && LoopOk(s, l) && ConnOk(s, c) && s.conns[c].fd in s.connections
    ensures RequestedOn(s, RemoveConnection(s, l, c), l, c)
  {}

  lemma RequestedInv(s: State, t: State, l: nat, c: nat)
    requires Inv(s) && c < |s.conns| && RequestedOn(s, t, l, c)
    ensures Inv(t)
  {
    var k, f := if l == 0 then s.conns[c].loop else 0, if l == 0 then Destroy(c) else RemoveInLoop(c);
    QueuedLoops(s, t, k, f);
    RequestConns(s, t, k, f);
    KernelFrame(s, t);
    MapFrame(s, t);
  }

  lemma RequestTakenInv(s: State, l: nat, c: nat)
    requires Inv(s) && s.status.Up? && Enabled(s, Request(l, c)) && s.conns[c].fd in s.connections
    ensures Inv(Next(s, Request(l, c)))
  {
    assert LoopOk(s, l) && ConnOk(s, c);
    RequestQueued(s, l, c);
    RequestedInv(s, RemoveConnection(s, l, c), l, c);
  }

  lemma RequestInv(s: State, l: nat, c: nat)
    requires Inv(s) && s.status.Up? && Enabled(s, Request(l, c))
    ensures Inv(Next(s, Request(l, c)))
  {
    if s.conns[c].fd !in s.connections {
      AbortInv(s, MapLookupAbort);
    } else {
      RequestTakenInv(s, l, c);
    }
  }

  // ---------- Running a functor ----------

  /** Loop `l` with its first swapped-out functor moved to the executed part. */
  ghost function Popped(s: State, l: nat): State
    requires l < |s.loops| && s.loops[l].rest != []
  {
    SetLoop(s, l, s.loops[l].(ran := s.loops[l].ran + [s.loops[l].rest[0]], rest := s.loops[l].rest[1..]))
  }

  lemma PoppedLoops(s: State, l: nat)
    requires LoopsOk(s) && l < |s.loops| && s.loops[l].rest != [] && s.loops[l].phase == Running
    ensures LoopsOk(Popped(s, l))
  {
    var t := Popped(s, l);
    forall i | 0 <= i < |s.loops| ensures LoopOk(t, i) {
      assert LoopOk(s, i);
      forall g | g in t.loops[i].ran + Pending(t.loops[i]) ensures FunctorOk(t, i, g) {
        assert g in s.loops[i].ran + Pending(s.loops[i]);
        assert FunctorOk(s, i, g);
      }
    }
  }

  lemma PoppedCount(s: State, l: nat, i: nat, g: Functor)
    requires l < |s.loops| && i < |s.loops| && s.loops[l].rest != []
    ensures var first := s.loops[l].rest[0];
            Count(s.loops[i], g) == Count(Popped(s, l).loops[i], g) + if i == l && g == first then 1 else 0
  {
    var first := s.loops[l].rest[0];
    if i == l { assert Pending(s.loops[l]) == [first] + Pending(Popped(s, l).loops[l]); }
  }

  /** The functor about to run is in order and is one of its loop's pending functors. */
  lemma FirstFunctor(s: State, l: nat)
    requires LoopsOk(s) && ConnsOk(s) && Enabled(s, RunOne(l))
    ensures FunctorOk(s, l, s.loops[l].rest[0]) && ConnOk(s, s.loops[l].rest[0].c)
    ensures Count(s.loops[l], s.loops[l].rest[0]) >= 1
  {
    var f := s.loops[l].rest[0];
    assert LoopOk(s, l) && f in s.loops[l].ran + Pending(s.loops[l]);
    assert Pending(s.loops[l])[0] == f;
  }

  lemma RunRemoveConn(s: State, t: State, l: nat, c: nat, d: nat)
    requires ConnsOk(s) && MapOk(s) && KernelOk(s) && l == 0 && s.loops[l].rest != []
             && s.loops[l].rest[0] == RemoveInLoop(c)
    requires c < |s.conns| && Queued(Popped(s, l), t, s.conns[c].loop, Destroy(c))
    requires t.conns == s.conns && t.connections == s.connections - {s.conns[c].fd} && d < |s.conns|
    ensures ConnOk(t, d)
  {
    var s1, k := Popped(s, l), s.conns[c].loop;
    assert ConnOk(s, d);
    var m := s.conns[d].loop;
    PoppedCount(s, l, 0, RemoveInLoop(d));
    PoppedCount(s, l, m, Destroy(d));
    QueuedCount(s1, t, k, Destroy(c), 0, RemoveInLoop(d));
    QueuedCount(s1, t, k, Destroy(c), m, Destroy(d));
    QueueConn(s, t, Destroy(c), false, d);
  }

  lemma RunRemoveConns(s: State, t: State, l: nat, c: nat)
    requires ConnsOk(s) && MapOk(s) && KernelOk(s) && l == 0 && s.loops[l].rest != []
             && s.loops[l].rest[0] == RemoveInLoop(c)
    requires c < |s.conns| && Queued(Popped(s, l), t, s.conns[c].loop, Destroy(c))
    requires t.conns == s.conns && t.connections == s.connections - {s.conns[c].fd}
    ensures ConnsOk(t)
  {
    forall d | 0 <= d < |s.conns| ensures ConnOk(t, d) { RunRemoveConn(s, t, l, c, d); }
  }

  lemma RunRemoveInv(s: State, l: nat)
    requires Inv(s) && Enabled(s, RunOne(l)) && s.loops[l].rest[0].RemoveInLoop?
    ensures Inv(Next(s, RunOne(l)))
  {
    var c := s.loops[l].rest[0].c;
    var t := Next(s, RunOne(l));
    FirstFunctor(s, l);
    PoppedLoops(s, l);
    assert Queued(Popped(s, l), t, s.conns[c].loop, Destroy(c));
    QueuedLoops(Popped(s, l), t, s.conns[c].loop, Destroy(c));
    RunRemoveConns(s, t, l, c);
    KernelFrame(s, t);
    MapFrame(s, t);
  }

  /** Leaving epoll keeps every loop in order, for the leaving connection's own loop has no batch. */
  lemma LeaveEpollLoops(s: State, c: nat)
    requires LoopsOk(s) && c < |s.conns| && s.conns[c].loop < |s.loops|
    requires RemoveInEpoll(s, c).status == s.status && s.status.Up?
    requires s.loops[s.conns[c].loop].batch == []
    ensures LoopsOk(RemoveInEpoll(s, c))
  {
    var t := RemoveInEpoll(s, c);
    forall i | 0 <= i < |s.loops| ensures LoopOk(t, i) {
      assert LoopOk(s, i);
      SameLoop(s, t, i);
    }
  }

  lemma LeaveEpollConns(s: State, t: State, l: nat, c: nat)
    requires ConnsOk(s) && l < |s.loops| && c < |s.conns| && s.loops[l].rest != [] && s.loops[l].rest[0] == Destroy(c)
    requires s.conns[c].inEpoll && s.conns[c].established && l == s.conns[c].loop
    requires t.loops == Popped(s, l).loops && t.connections == s.connections
    requires t.conns == s.conns[c := s.conns[c].(inEpoll := false)]
    ensures ConnsOk(t)
  {
    forall d | 0 <= d < |s.conns| ensures ConnOk(t, d) {
      assert ConnOk(s, d);
      PoppedCount(s, l, 0, RemoveInLoop(d));
      PoppedCount(s, l, s.conns[d].loop, Destroy(d));
    }
  }

  lemma LeaveEpollKernel(s: State, c: nat)
    requires KernelOk(s) && MapOk(s) && c < |s.conns| && s.conns[c].inEpoll
    ensures KernelOk(RemoveInEpoll(s, c)) && MapOk(RemoveInEpoll(s, c))
  {
  }

  lemma RunDestroyInv(s: State, l: nat)
    requires Inv(s) && s.status.Up? && Enabled(s, RunOne(l)) && s.loops[l].rest[0].Destroy?
    ensures Inv(Next(s, RunOne(l)))
  {
    var c := s.loops[l].rest[0].c;
    var t := Next(s, RunOne(l));
    FirstFunctor(s, l);
    if !s.conns[c].inEpoll {
      assert t == s.(status := RemoveInEpollAbort);
      AbortInv(s, RemoveInEpollAbort);
    } else {
      assert LoopOk(s, l);
      var s1 := Popped(s, l);
      assert t == RemoveInEpoll(s1, c);
      PoppedLoops(s, l);
      LeaveEpollLoops(s1, c);
      LeaveEpollConns(s, t, l, c);
      KernelFrame(s, s1);
      MapFrame(s, s1);
      LeaveEpollKernel(s1, c);
    }
  }

  lemma NextInv(s: State, a: Action)
    requires Inv(s) && s.status.Up? && Enabled(s, a)
    ensures Inv(Next(s, a))
  {
    match a
    case Accept(fd, loop) => AcceptInv(s, fd, loop);
    case Publish => PublishInv(s);
    case Establish => EstablishInv(s);
    case Request(l, c) => RequestInv(s, l, c);
    case RunOne(l) =>
      if s.loops[l].rest[0].RemoveInLoop? { RunRemoveInv(s, l); } else { RunDestroyInv(s, l); }
    case _ => DispatchInv(s, a);
  }

  lemma StepInv(s: State, a: Action)
    requires Inv(s)
    ensures Inv(Step(s, a))
  {
    if s.status.Up? && Enabled(s, a) {
      NextInv(s, a);
      CollectInv(Next(s, a));
    }
  }
}
