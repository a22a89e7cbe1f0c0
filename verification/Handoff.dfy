/** The event loop's task hand-off: `EventLoop::QueueOneFunc`, `DoToDoList`, `HandleRead`, `Loop`.

    Thread 0 is the loop thread, the others are producers.  One action is one access to shared
    state: taking the mutex, pushing, writing the eventfd, swapping.  An execution is any list
    of actions, so the theorems hold for every interleaving. */
module Handoff {

  type Functor = nat

  /** Where a thread stands inside `QueueOneFunc`. */
  datatype Queueing = Idle | Locked(f: Functor) | OwesWrite | Unlocking

  /** Where the loop thread stands in `Loop`; `wakeup` says that the polled batch still holds
      the wakeup channel, `busy` that a functor is executing. */
  datatype Pc = Polling | Dispatching(wakeup: bool) | WantsSwap | HoldsLock(swapped: bool) | Running(busy: bool)

  datatype Mutex = Unlocked | LockedBy(t: nat)

  datatype Status = Up | WakeupReadError

  datatype State = State(status: Status, toDo: seq<Functor>, counter: nat, lock: Mutex, threads: seq<Queueing>,
                         pc: Pc, calling: bool, rest: seq<Functor>, ran: seq<Functor>, history: seq<Functor>)

  datatype Action =
    | Acquire(t: nat, f: Functor) | Push(t: nat) | Write(t: nat) | Unlock(t: nat)
    | Poll(wakeup: bool) | HandleRead | BeginDoToDo | LockForSwap | Swap | UnlockAfterSwap
    | StartFunctor | EndFunctor | EndDoToDo

  function Init(threads: nat): State {
    State(Up, [], 0, Unlocked, seq(threads, _ => Idle), Polling, false, [], [], [])
  }

  /** The loop thread is in its own code, not inside `QueueOneFunc`. */
  predicate LoopFree(s: State) {
    |s.threads| > 0 && s.threads[0].Idle?
  }

  /** User code runs on the loop thread only in event handlers and in functors. */
  predicate MayQueue(s: State, t: nat) {
    t < |s.threads| && s.threads[t].Idle? && (t == 0 ==> s.pc.Dispatching? || s.pc == Running(true))
  }

  predicate Enabled(s: State, a: Action) {
    match a
    case Acquire(t, _) => MayQueue(s, t) && s.lock.Unlocked?
    case Push(t) => t < |s.threads| && s.threads[t].Locked?
    case Write(t) => t < |s.threads| && s.threads[t].OwesWrite?
    case Unlock(t) => t < |s.threads| && s.threads[t].Unlocking?
    case Poll(wakeup) => LoopFree(s) && s.pc.Polling? && (wakeup ==> s.counter > 0)
    case HandleRead => LoopFree(s) && s.pc == Dispatching(true)
    case BeginDoToDo => LoopFree(s) && s.pc == Dispatching(false)
    case LockForSwap => LoopFree(s) && s.pc == WantsSwap && s.lock.Unlocked?
    case Swap => LoopFree(s) && s.pc == HoldsLock(false)
    case UnlockAfterSwap => LoopFree(s) && s.pc == HoldsLock(true)
    case StartFunctor => LoopFree(s) && s.pc == Running(false) && s.rest != []
    case EndFunctor => LoopFree(s) && s.pc == Running(true)
    case EndDoToDo => LoopFree(s) && s.pc == Running(false) && s.rest == []
  }

  function Next(s: State, a: Action): State
    requires Enabled(s, a)
  {
    match a
    case Acquire(t, f) => s.(lock := LockedBy(t), threads := s.threads[t := Locked(f)])
    case Push(t) =>
      var f := s.threads[t].f;
      s.(toDo := s.toDo + [f], history := s.history + [f],
         threads := s.threads[t := if t != 0 || s.calling then OwesWrite else Unlocking])
    case Write(t) => s.(counter := s.counter + 1, threads := s.threads[t := Unlocking])
    case Unlock(t) => s.(lock := Unlocked, threads := s.threads[t := Idle])
    case Poll(wakeup) => s.(pc := Dispatching(wakeup))
    case HandleRead =>
      if s.counter == 0 then s.(status := WakeupReadError) else s.(counter := 0, pc := Dispatching(false))
    case BeginDoToDo => s.(calling := true, pc := WantsSwap)
    case LockForSwap => s.(lock := LockedBy(0), pc := HoldsLock(false))
    case Swap => s.(rest := s.toDo, toDo := s.rest, pc := HoldsLock(true))
    case UnlockAfterSwap => s.(lock := Unlocked, pc := Running(false))
    case StartFunctor => s.(ran := s.ran + [s.rest[0]], rest := s.rest[1..], pc := Running(true))
    case EndFunctor => s.(pc := Running(false))
    case EndDoToDo => s.(calling := false, pc := Polling)
  }

  function Step(s: State, a: Action): State {
    if s.status.Up? && Enabled(s, a) then Next(s, a) else s
  }

  function Exec(s: State, actions: seq<Action>): State {
    if actions == [] then s else Step(Exec(s, actions[..|actions| - 1]), actions[|actions| - 1])
  }

  // ---------- The invariant ----------

  /** The loop will swap before it polls again. */
  predicate YetToSwap(s: State) {
    s.pc.Dispatching? || s.pc == WantsSwap || s.pc == HoldsLock(false)
  }

  predicate OwedWrite(s: State) {
    s.lock.LockedBy? && s.lock.t < |s.threads| && s.threads[s.lock.t].OwesWrite?
  }

  predicate NoLostWakeup(s: State) {
    s.toDo != [] ==> s.counter > 0 || YetToSwap(s) || OwedWrite(s)
  }

  /** The mutex has at most one holder, and it is whoever is inside a critical section. */
  predicate MutexOk(s: State) {
    && (forall t :: 0 <= t < |s.threads| ==>
          (!s.threads[t].Idle? <==> s.lock == LockedBy(t) && !(t == 0 && s.pc.HoldsLock?)))
    && (s.pc.HoldsLock? ==> s.lock == LockedBy(0))
    && (s.lock.LockedBy? ==> s.lock.t < |s.threads|)
    && (|s.threads| > 0 && !s.threads[0].Idle? ==> s.pc.Dispatching? || s.pc == Running(true))
  }

  predicate Inv(s: State) {
    && |s.threads| > 0 && s.status.Up?
    && MutexOk(s)
    && NoLostWakeup(s)
    && (s.calling <==> !s.pc.Polling? && !s.pc.Dispatching?)
    && (s.pc == Dispatching(true) ==> s.counter > 0)
    && (s.rest != [] ==> s.pc == HoldsLock(true) || s.pc.Running?)
    && s.ran + s.rest + s.toDo == s.history
  }

  lemma StepInv(s: State, a: Action)
    requires Inv(s)
    ensures Inv(Step(s, a))
  {
    if Enabled(s, a) {
      var t := Step(s, a);
      match a
      case Push(i) => assert t.ran + t.rest + t.toDo == (s.ran + s.rest + s.toDo) + [s.threads[i].f];
      case StartFunctor => assert s.rest == [s.rest[0]] + s.rest[1..];
      case _ =>
    }
  }

  lemma {:induction false} ExecInv(threads: nat, actions: seq<Action>)
    requires threads > 0
    ensures Inv(Exec(Init(threads), actions))
  {
    if actions == [] {
    } else {
      ExecInv(threads, actions[..|actions| - 1]);
      StepInv(Exec(Init(threads), actions[..|actions| - 1]), actions[|actions| - 1]);
    }
  }

  // ---------- Main results, over every interleaving ----------

  /** Every functor is run exactly once, in the order of the pushes, whoever pushed it. */
  lemma ExactlyOnceInOrder(threads: nat, actions: seq<Action>)
    requires threads > 0
    ensures var s := Exec(Init(threads), actions); s.ran + s.rest + s.toDo == s.history
  {
    ExecInv(threads, actions);
  }

  predicate Taken(s: State, a: Action) { s.status.Up? && Enabled(s, a) }

  /** The functors handed to `QueueOneFunc`, in the order in which their threads got the mutex. */
  function Handed(threads: nat, actions: seq<Action>): seq<Functor> {
    if actions == [] then []
    else
      var before, a := actions[..|actions| - 1], actions[|actions| - 1];
      Handed(threads, before) + if Taken(Exec(Init(threads), before), a) && a.Acquire? then [a.f] else []
  }

  /** The functor that a thread inside the critical section has still to push. */
  function InHand(s: State): seq<Functor> {
    if s.lock.LockedBy? && s.lock.t < |s.threads| && s.threads[s.lock.t].Locked? then [s.threads[s.lock.t].f] else []
  }

  lemma HandedStep(s: State, a: Action)
    requires Inv(s) && Enabled(s, a)
    ensures Next(s, a).history + InHand(Next(s, a)) ==
            s.history + InHand(s) + if a.Acquire? then [a.f] else []
  {}

  /** Every functor handed over is pushed, once, in the order of the mutex. */
  lemma {:induction false} HistoryIsHanded(threads: nat, actions: seq<Action>)
    requires threads > 0
    ensures var s := Exec(Init(threads), actions); Handed(threads, actions) == s.history + InHand(s)
  {
    if actions != [] {
      var before, a := actions[..|actions| - 1], actions[|actions| - 1];
      var s := Exec(Init(threads), before);
      HistoryIsHanded(threads, before);
      ExecInv(threads, before);
      if Taken(s, a) { HandedStep(s, a); }
    }
  }

  /** The wakeup writes since the loop last read the eventfd. */
  function Unread(threads: nat, actions: seq<Action>): nat {
    if actions == [] then 0
    else
      var before, a := actions[..|actions| - 1], actions[|actions| - 1];
      var n := Unread(threads, before);
      if !Taken(Exec(Init(threads), before), a) then n
      else if a.Write? then n + 1 else if a.HandleRead? then 0 else n
  }

  /** The eventfd counts exactly those, so one read clears every wakeup. */
  lemma {:induction false} CounterIsUnread(threads: nat, actions: seq<Action>)
    requires threads > 0
    ensures Exec(Init(threads), actions).counter == Unread(threads, actions)
  {
    if actions != [] {
      var before := actions[..|actions| - 1];
      CounterIsUnread(threads, before);
      ExecInv(threads, before);
    }
  }

  /** The read of the eventfd fails exactly when there is nothing to read. */
  lemma ReadFailsIff(s: State)
    requires Enabled(s, HandleRead)
    ensures Next(s, HandleRead).status == WakeupReadError <==> s.counter == 0 || s.status == WakeupReadError
  {}

  /** The pushes that call for a wakeup: from another thread, or while a round of functors is on. */
  function Calls(threads: nat, actions: seq<Action>): nat {
    if actions == [] then 0
    else
      var before, a := actions[..|actions| - 1], actions[|actions| - 1];
      var s := Exec(Init(threads), before);
      Calls(threads, before) + if Taken(s, a) && a.Push? && (a.t != 0 || s.pc == Running(true)) then 1 else 0
  }

  function Writes(threads: nat, actions: seq<Action>): nat {
    if actions == [] then 0
    else
      var before, a := actions[..|actions| - 1], actions[|actions| - 1];
      Writes(threads, before) + if Taken(Exec(Init(threads), before), a) && a.Write? then 1 else 0
  }

  /** Each of them is followed by exactly one write, and no other push by any. */
  lemma {:induction false} OneWriteEach(threads: nat, actions: seq<Action>)
    requires threads > 0
    ensures Calls(threads, actions) ==
            Writes(threads, actions) + if OwedWrite(Exec(Init(threads), actions)) then 1 else 0
  {
    if actions != [] {
      var before, a := actions[..|actions| - 1], actions[|actions| - 1];
      var s := Exec(Init(threads), before);
      OneWriteEach(threads, before);
      ExecInv(threads, before);
      if Taken(s, a) { OwedStep(s, a); }
    }
  }

  lemma OwedStep(s: State, a: Action)
    requires Inv(s) && Enabled(s, a)
    ensures (if OwedWrite(Next(s, a)) then 1 else 0) + (if a.Write? then 1 else 0) ==
            (if OwedWrite(s) then 1 else 0) + if a.Push? && (a.t != 0 || s.pc == Running(true)) then 1 else 0
  {}

  /** How many functors have started, or ended. */
  function Count(threads: nat, actions: seq<Action>, which: Action): nat {
    if actions == [] then 0
    else
      var before, a := actions[..|actions| - 1], actions[|actions| - 1];
      Count(threads, before, which) + if Taken(Exec(Init(threads), before), a) && a == which then 1 else 0
  }

  /** Functors run one at a time, and each as often as it is recorded. */
  lemma {:induction false} OneAtATime(threads: nat, actions: seq<Action>)
    requires threads > 0
    ensures var s := Exec(Init(threads), actions);
            && Count(threads, actions, StartFunctor) == |s.ran|
            && |s.ran| == Count(threads, actions, EndFunctor) + if s.pc == Running(true) then 1 else 0
  {
    if actions != [] {
      var before, a := actions[..|actions| - 1], actions[|actions| - 1];
      var s := Exec(Init(threads), before);
      OneAtATime(threads, before);
      if Taken(s, a) { RanStep(s, a); }
    }
  }

  lemma RanStep(s: State, a: Action)
    requires Enabled(s, a)
    ensures |Next(s, a).ran| == |s.ran| + if a == StartFunctor then 1 else 0
    ensures (if Next(s, a).pc == Running(true) then 1 else 0) + (if a == EndFunctor then 1 else 0) ==
            (if s.pc == Running(true) then 1 else 0) + if a == StartFunctor then 1 else 0
  {}

  /** In a functor or an event handler the loop's own thread may queue as soon as the mutex is free;
      so may any other thread that is not already queueing. */
  lemma AnyoneMayQueue(threads: nat, actions: seq<Action>, t: nat, f: Functor)
    requires threads > 0 && t < threads
    requires var s := Exec(Init(threads), actions);
             && s.lock == Unlocked
             && (t == 0 ==>
                   s.pc.Dispatching? || Count(threads, actions, StartFunctor) > Count(threads, actions, EndFunctor))
    ensures Enabled(Exec(Init(threads), actions), Acquire(t, f))
  {
    ExecInv(threads, actions);
    OneAtATime(threads, actions);
    ThreadsStay(threads, actions);
  }

  lemma {:induction false} ThreadsStay(threads: nat, actions: seq<Action>)
    ensures |Exec(Init(threads), actions).threads| == threads
  {
    if actions != [] { ThreadsStay(threads, actions[..|actions| - 1]); }
  }

  /** A functor starts only when its thread does not hold the mutex, so it may itself queue. */
  lemma NoFunctorUnderLock(threads: nat, actions: seq<Action>)
    requires threads > 0 && Enabled(Exec(Init(threads), actions), StartFunctor)
    ensures Exec(Init(threads), actions).lock != LockedBy(0)
  {
    ExecInv(threads, actions);
  }

  /** While the loop is blocked in `Poll` with functors queued, the eventfd is readable, or the
      producer inside the critical section is about to make it so.  And `HandleRead` always
      finds a positive counter: its error exit is unreachable. */
  lemma WakeupNeverLost(threads: nat, actions: seq<Action>)
    requires threads > 0
    ensures var s := Exec(Init(threads), actions);
            && (s.pc.Polling? && s.toDo != [] ==> Enabled(s, Poll(true)) || OwedWrite(s))
            && (Enabled(s, HandleRead) ==> s.counter > 0)
            && s.status.Up?
  {
    ExecInv(threads, actions);
  }

  /** The actions of the loop thread running its own code, polling only for the wakeup event. */
  predicate LoopAction(a: Action) {
    !a.Acquire? && !a.Push? && !a.Write? && !a.Unlock? && a != Poll(false)
  }

  function Rank(s: State): nat {
    match s.pc
    case HoldsLock(true) => 9 + 2 * |s.rest|
    case Running(busy) => 7 + 2 * |s.rest| + if busy then 1 else 0
    case Polling => 6
    case Dispatching(true) => 5
    case Dispatching(false) => 4
    case WantsSwap => 3
    case HoldsLock(false) => 2
  }

  /** No functor is ever stranded: once the producers are out of `QueueOneFunc`, the loop on its
      own, woken by nothing but the eventfd, runs everything that was queued. */
  lemma {:induction false} LoopDrainsAlone(s: State) returns (actions: seq<Action>)
    requires Inv(s) && forall t :: 0 <= t < |s.threads| ==> s.threads[t].Idle?
    ensures forall a :: a in actions ==> LoopAction(a)
    ensures Exec(s, actions).ran == s.history
    decreases |s.toDo|, Rank(s)
  {
    if s.rest == [] && s.toDo == [] {
      return [];
    }
    var a := match s.pc
      case Polling => Poll(true)
      case Dispatching(true) => HandleRead
      case Dispatching(false) => BeginDoToDo
      case WantsSwap => LockForSwap
      case HoldsLock(false) => Swap
      case HoldsLock(true) => UnlockAfterSwap
      case Running(true) => EndFunctor
      case Running(false) => if s.rest == [] then EndDoToDo else StartFunctor;
    assert Enabled(s, a);
    StepInv(s, a);
    var tail := LoopDrainsAlone(Step(s, a));
    actions := [a] + tail;
    ExecCons(s, a, tail);
  }

  lemma {:induction false} ExecCons(s: State, a: Action, tail: seq<Action>)
    ensures Exec(s, [a] + tail) == Exec(Step(s, a), tail)
  {
    if tail == [] {
      assert ([a] + tail)[..0] == [];
      assert Exec(s, [a] + tail) == Step(Exec(s, []), a);
    } else {
      var init := tail[..|tail| - 1];
      assert ([a] + tail)[..|tail|] == [a] + init;
      ExecCons(s, a, init);
    }
  }

  // ---------- The class, on the loop's own thread ----------

  /** The functors that running `fs` in order queues on the same loop. */
  function SpawnedBy(spawn: Functor -> seq<Functor>, fs: seq<Functor>): seq<Functor> {
    if fs == [] then [] else SpawnedBy(spawn, fs[..|fs| - 1]) + spawn(fs[|fs| - 1])
  }

  class EventLoop {
    var toDoList: seq<Functor>
    var callingFunctors: bool
    var counter: nat
    ghost var ran: seq<Functor>

    constructor ()
      ensures toDoList == [] && !callingFunctors && counter == 0 && ran == []
    {
      toDoList, callingFunctors, counter, ran := [], false, 0, [];
    }

    method QueueOneFunc(cb: Functor, inLoopThread: bool)
      modifies this`toDoList, this`counter
      ensures toDoList == old(toDoList) + [cb]
      ensures counter == old(counter) + if !inLoopThread || callingFunctors then 1 else 0
    {
      toDoList := toDoList + [cb];
      if !inLoopThread || callingFunctors {
        counter := counter + 1;
      }
    }

    /** Executes one functor on the loop thread; `spawned` is what it queues. */
    method Call(f: Functor, spawned: seq<Functor>)
      modifies this`toDoList, this`counter, this`ran
      ensures ran == old(ran) + [f] && toDoList == old(toDoList) + spawned
      ensures counter == old(counter) + if callingFunctors then |spawned| else 0
    {
      ran := ran + [f];
      for i := 0 to |spawned|
        invariant ran == old(ran) + [f]
        invariant toDoList == old(toDoList) + spawned[..i]
        invariant counter == old(counter) + if callingFunctors then i else 0
      {
        QueueOneFunc(spawned[i], true);
      }
    }

    /** On the loop thread the functor runs now, ahead of anything queued; from elsewhere it is
        queued and the loop is woken. */
    method RunOneFunc(cb: Functor, inLoopThread: bool, spawned: seq<Functor>)
      modifies this`toDoList, this`counter, this`ran
      ensures inLoopThread ==> ran == old(ran) + [cb] && toDoList == old(toDoList) + spawned
      ensures inLoopThread ==> counter == old(counter) + if callingFunctors then |spawned| else 0
      ensures !inLoopThread ==> ran == old(ran) && toDoList == old(toDoList) + [cb] && counter == old(counter) + 1
    {
      if inLoopThread {
        Call(cb, spawned);
      } else {
        QueueOneFunc(cb, inLoopThread);
      }
    }

    /** Runs exactly the functors queued before the swap, in order; what they queue waits for the
        next round, and one eventfd write for each guarantees that round. */
    method DoToDoList(spawn: Functor -> seq<Functor>)
      modifies this
      ensures ran == old(ran) + old(toDoList)
      ensures toDoList == SpawnedBy(spawn, old(toDoList))
      ensures counter == old(counter) + |toDoList| && !callingFunctors
    {
      callingFunctors := true;
      var functors := [];
      functors, toDoList := toDoList, functors;
      for i := 0 to |functors|
        invariant callingFunctors && functors == old(toDoList)
        invariant ran == old(ran) + functors[..i]
        invariant toDoList == SpawnedBy(spawn, functors[..i])
        invariant counter == old(counter) + |toDoList|
      {
        Call(functors[i], spawn(functors[i]));
        assert functors[..i + 1][..i] == functors[..i];
      }
      assert functors[..|functors|] == functors;
      callingFunctors := false;
    }
  }
}
