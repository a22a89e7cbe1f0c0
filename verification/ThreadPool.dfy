/** The worker pool: workers that wait for a task or for the pool to stop, in any interleaving of
    their critical sections, notifications and spurious wakeups. */
module Pool {

  /** `Ready` is on its way to the test of `wait`, `Blocked` inside it, `Done` returned. */
  datatype Worker<T> = Ready | Blocked | Running(task: T) | Done

  /** `owed` counts the `Add`s that have queued their task and not yet notified, `owedAll` is the
      destructor's notification; `accepted`, `started` and `finished` record the tasks' lives. */
  datatype State<T> = State(workers: seq<Worker<T>>, tasks: seq<T>, stop: bool, owed: nat, owedAll: bool,
                            accepted: seq<T>, started: seq<T>, finished: seq<T>)

  datatype Action<T> =
    | Add(task: T)
    | Notify(woken: nat)
    | Spurious(i: nat)
    | Check(i: nat)
    | Finish(i: nat)
    | Stop
    | NotifyAll

  /** What a worker's critical section comes to. */
  datatype Turn<T> = Sleep | Leave | Take(task: T)

  function Decide<T>(stop: bool, tasks: seq<T>): Turn<T> {
    if !stop && tasks == [] then Sleep
    else if tasks == [] then Leave
    else Take(tasks[0])
  }

  predicate IsWorker<T>(s: State<T>, i: nat) { i < |s.workers| }

  predicate NoneBlocked<T>(ws: seq<Worker<T>>) { forall i | 0 <= i < |ws| :: !ws[i].Blocked? }

  /** `notify_one` wakes some blocked worker if there is one; `Add` throws once the pool has stopped. */
  predicate Enabled<T>(s: State<T>, a: Action<T>) {
    match a
    case Add(_) => true
    case Notify(i) => s.owed > 0 && (NoneBlocked(s.workers) || (IsWorker(s, i) && s.workers[i].Blocked?))
    case Spurious(i) => IsWorker(s, i) && s.workers[i].Blocked?
    case Check(i) => IsWorker(s, i) && s.workers[i].Ready?
    case Finish(i) => IsWorker(s, i) && s.workers[i].Running?
    case Stop => !s.stop
    case NotifyAll => s.owedAll
  }

  function Woken<T>(ws: seq<Worker<T>>): (vs: seq<Worker<T>>)
    ensures |vs| == |ws|
  {
    if ws == [] then []
    else Woken(ws[..|ws| - 1]) + [if ws[|ws| - 1].Blocked? then Ready else ws[|ws| - 1]]
  }

  function Next<T>(s: State<T>, a: Action<T>): State<T>
    requires Enabled(s, a)
  {
    match a
    case Add(t) =>
      if s.stop then s else s.(tasks := s.tasks + [t], accepted := s.accepted + [t], owed := s.owed + 1)
    case Notify(i) =>
      s.(owed := s.owed - 1, workers := if NoneBlocked(s.workers) then s.workers else s.workers[i := Ready])
    case Spurious(i) => s.(workers := s.workers[i := Ready])
    case Check(i) =>
      (match Decide(s.stop, s.tasks)
       case Sleep => s.(workers := s.workers[i := Blocked])
       case Leave => s.(workers := s.workers[i := Done])
       case Take(t) =>
         s.(workers := s.workers[i := Running(t)], tasks := s.tasks[1..], started := s.started + [t]))
    case Finish(i) => s.(workers := s.workers[i := Ready], finished := s.finished + [s.workers[i].task])
    case Stop => s.(stop := true, owedAll := true)
    case NotifyAll => s.(owedAll := false, workers := Woken(s.workers))
  }

  // ---------- Counting workers ----------

  function CountReady<T>(ws: seq<Worker<T>>): nat {
    if ws == [] then 0 else CountReady(ws[..|ws| - 1]) + if ws[|ws| - 1].Ready? then 1 else 0
  }

  function CountRunning<T(==)>(ws: seq<Worker<T>>, x: T): nat {
    if ws == [] then 0 else CountRunning(ws[..|ws| - 1], x) + if ws[|ws| - 1] == Running(x) then 1 else 0
  }

  function Weight<T>(w: Worker<T>): nat { match w case Running(_) => 2 case Done => 0 case _ => 1 }

  /** What the workers still have to do besides the queue. */
  function Effort<T>(ws: seq<Worker<T>>): nat {
    if ws == [] then 0 else Effort(ws[..|ws| - 1]) + Weight(ws[|ws| - 1])
  }

  lemma {:induction false} SetWorker<T>(ws: seq<Worker<T>>, i: nat, w: Worker<T>)
    requires i < |ws|
    ensures var vs := ws[i := w];
      && CountReady(vs) + (if ws[i].Ready? then 1 else 0) == CountReady(ws) + (if w.Ready? then 1 else 0)
      && Effort(vs) + Weight(ws[i]) == Effort(ws) + Weight(w)
    decreases |ws|
  {
    var n := |ws| - 1;
    var vs := ws[i := w];
    if i == n {
      assert vs[..n] == ws[..n];
    } else {
      assert vs[..n] == ws[..n][i := w];
      SetWorker(ws[..n], i, w);
    }
  }

  lemma {:induction false} SetRunning<T>(ws: seq<Worker<T>>, i: nat, w: Worker<T>, x: T)
    requires i < |ws|
    ensures CountRunning(ws[i := w], x) + (if ws[i] == Running(x) then 1 else 0)
            == CountRunning(ws, x) + (if w == Running(x) then 1 else 0)
    decreases |ws|
  {
    var n := |ws| - 1;
    var vs := ws[i := w];
    if i == n {
      assert vs[..n] == ws[..n];
    } else {
      assert vs[..n] == ws[..n][i := w];
      SetRunning(ws[..n], i, w, x);
    }
  }

  lemma {:induction false} WokenWakes<T>(ws: seq<Worker<T>>)
    ensures var vs := Woken(ws);
      && |vs| == |ws| && NoneBlocked(vs) && Effort(vs) == Effort(ws)
      && (forall i | 0 <= i < |ws| :: vs[i] == if ws[i].Blocked? then Ready else ws[i])
    decreases |ws|
  {
    if ws != [] {
      var n := |ws| - 1;
      WokenWakes(ws[..n]);
      assert Woken(ws)[..n] == Woken(ws[..n]);
    }
  }

  lemma {:induction false} WokenRunning<T>(ws: seq<Worker<T>>, x: T)
    ensures CountRunning(Woken(ws), x) == CountRunning(ws, x)
    decreases |ws|
  {
    if ws != [] {
      var n := |ws| - 1;
      WokenRunning(ws[..n], x);
      assert Woken(ws)[..n] == Woken(ws[..n]);
    }
  }

  // ---------- The invariant ----------

  /** A blocked worker never misses a task: every queued task has a ready worker coming or a
      notification under way, unless no worker is blocked. */
  predicate NoTaskForgotten<T>(s: State<T>) {
    NoneBlocked(s.workers) || |s.tasks| <= s.owed + CountReady(s.workers)
  }

  /** Workers leave only a stopped, empty pool, and a stopped pool will wake everyone. */
  predicate StopsClean<T>(s: State<T>) {
    && (forall i | 0 <= i < |s.workers| :: s.workers[i].Done? ==> s.stop && s.tasks == [])
    && (s.stop ==> s.owedAll || NoneBlocked(s.workers)) && (s.owedAll ==> s.stop)
  }

  ghost predicate Inv<T>(s: State<T>) {
    && |s.workers| > 0
    && s.started + s.tasks == s.accepted
    && NoTaskForgotten(s) && StopsClean(s)
  }

  /** `size <= 0` becomes one worker. */
  function Init<T>(size: nat): State<T> {
    State(seq(if size == 0 then 1 else size, _ => Ready), [], false, 0, false, [], [], [])
  }

  lemma InitInv<T>(size: nat)
    ensures Inv(Init<T>(size))
  {}

  lemma NextForgetsNone<T>(s: State<T>, a: Action<T>)
    requires Inv(s) && Enabled(s, a)
    ensures NoTaskForgotten(Next(s, a))
  {
    match a {
      case Add(t) =>
      case Notify(i) => if !NoneBlocked(s.workers) { SetWorker(s.workers, i, Ready); }
      case Spurious(i) => SetWorker(s.workers, i, Ready);
      case Check(i) =>
        match Decide(s.stop, s.tasks) {
          case Sleep =>
          case Leave => SetWorker(s.workers, i, Done);
          case Take(t) =>
            SetWorker(s.workers, i, Running(t));
            BlockedStays(s.workers, i, Running(t));
        }
      case Finish(i) =>
        SetWorker(s.workers, i, Ready);
        BlockedStays(s.workers, i, Ready);
      case Stop =>
      case NotifyAll => WokenWakes(s.workers);
    }
  }

  lemma BlockedStays<T>(ws: seq<Worker<T>>, i: nat, w: Worker<T>)
    requires i < |ws| && !ws[i].Blocked? && !w.Blocked?
    ensures NoneBlocked(ws[i := w]) <==> NoneBlocked(ws)
  {
    forall j | 0 <= j < |ws| && ws[j].Blocked? ensures ws[i := w][j].Blocked? {}
    if !NoneBlocked(ws) {
      var j :| 0 <= j < |ws| && ws[j].Blocked?;
      assert ws[i := w][j].Blocked?;
    }
  }

  lemma NextStopsClean<T>(s: State<T>, a: Action<T>)
    requires Inv(s) && Enabled(s, a)
    ensures StopsClean(Next(s, a))
  {
    if a.NotifyAll? { WokenWakes(s.workers); }
  }

  lemma NextKeeps<T>(s: State<T>, a: Action<T>)
    requires Inv(s) && Enabled(s, a)
    ensures Inv(Next(s, a)) && |Next(s, a).workers| == |s.workers|
  {
    NextForgetsNone(s, a);
    NextStopsClean(s, a);
    if a.NotifyAll? { WokenWakes(s.workers); }
    if a.Check? && s.tasks != [] { assert s.started + s.tasks == s.started + [s.tasks[0]] + s.tasks[1..]; }
  }

  /** Each started task is running or finished. */
  ghost predicate Accounted<T>(s: State<T>, x: T) {
    multiset(s.finished)[x] + CountRunning(s.workers, x) == multiset(s.started)[x]
  }

  lemma NextAccounts<T>(s: State<T>, a: Action<T>, x: T)
    requires Enabled(s, a) && Accounted(s, x)
    ensures Accounted(Next(s, a), x)
  {
    match a {
      case Add(t) =>
      case Notify(i) => if !NoneBlocked(s.workers) { SetRunning(s.workers, i, Ready, x); }
      case Spurious(i) => SetRunning(s.workers, i, Ready, x);
      case Check(i) =>
        match Decide(s.stop, s.tasks) {
          case Sleep => SetRunning(s.workers, i, Blocked, x);
          case Leave => SetRunning(s.workers, i, Done, x);
          case Take(t) => SetRunning(s.workers, i, Running(t), x);
        }
      case Finish(i) => SetRunning(s.workers, i, Ready, x);
      case Stop =>
      case NotifyAll => WokenRunning(s.workers, x);
    }
  }

  // ---------- Any interleaving ----------

  ghost predicate Reaches<T>(s: State<T>, run: seq<Action<T>>, t: State<T>)
    decreases |run|
  {
    if run == [] then s == t
    else Enabled(s, run[0]) && Reaches(Next(s, run[0]), run[1..], t)
  }

  lemma {:induction false} ReachesKeeps<T>(s: State<T>, run: seq<Action<T>>, t: State<T>)
    requires Inv(s) && Reaches(s, run, t)
    ensures Inv(t) && |t.workers| == |s.workers|
    decreases |run|
  {
    if run != [] {
      NextKeeps(s, run[0]);
      ReachesKeeps(Next(s, run[0]), run[1..], t);
    }
  }

  lemma {:induction false} ReachesAccounts<T>(s: State<T>, run: seq<Action<T>>, t: State<T>, x: T)
    requires Accounted(s, x) && Reaches(s, run, t)
    ensures Accounted(t, x)
    decreases |run|
  {
    if run != [] {
      NextAccounts(s, run[0], x);
      ReachesAccounts(Next(s, run[0]), run[1..], t, x);
    }
  }

  lemma {:induction false} NobodyRuns<T>(ws: seq<Worker<T>>, x: T)
    requires forall i | 0 <= i < |ws| :: !ws[i].Running?
    ensures CountRunning(ws, x) == 0
    decreases |ws|
  {
    if ws != [] { NobodyRuns(ws[..|ws| - 1], x); }
  }

  /** Tasks are dequeued in the order they were accepted, and each is started once. */
  lemma {:induction false} FirstInFirstOut<T>(size: nat, run: seq<Action<T>>, t: State<T>)
    requires Reaches(Init(size), run, t)
    ensures t.started + t.tasks == t.accepted && t.started <= t.accepted
  {
    InitInv<T>(size);
    ReachesKeeps(Init(size), run, t);
  }

  /** The pool keeps as many workers as it was asked for, and one if it was asked for none. */
  lemma {:induction false} WorkersStay<T>(size: nat, run: seq<Action<T>>, t: State<T>)
    requires Reaches(Init(size), run, t)
    ensures |t.workers| == if size == 0 then 1 else size
  {
    InitInv<T>(size);
    ReachesKeeps(Init(size), run, t);
  }

  function Added<T>(stopped: bool, run: seq<Action<T>>): seq<T>
    decreases |run|
  {
    if run == [] || stopped then []
    else (if run[0].Add? then [run[0].task] else []) + Added(run[0].Stop?, run[1..])
  }

  function Notified<T>(run: seq<Action<T>>): nat
    decreases |run|
  {
    if run == [] then 0 else (if run[0].Notify? then 1 else 0) + Notified(run[1..])
  }

  lemma {:induction false} AcceptsFrom<T>(s: State<T>, run: seq<Action<T>>, t: State<T>)
    requires Reaches(s, run, t)
    ensures t.accepted == s.accepted + Added(s.stop, run)
    ensures t.owed + Notified(run) == s.owed + |Added(s.stop, run)|
    decreases |run|
  {
    if run != [] {
      var u := Next(s, run[0]);
      AcceptsFrom(u, run[1..], t);
      assert s.stop ==> u.stop;
      assert u.stop == (s.stop || run[0].Stop?);
    }
  }

  /** Exactly the tasks added before the stop are accepted, in order, and each is announced by one
      notification, given or still owed; all workers are woken only after the stop. */
  lemma AcceptsUntilStopped<T>(size: nat, run: seq<Action<T>>, t: State<T>)
    requires Reaches(Init(size), run, t)
    ensures t.accepted == Added(false, run) && t.owed + Notified(run) == |t.accepted|
    ensures t.owedAll ==> t.stop
  {
    AcceptsFrom(Init(size), run, t);
    InitInv<T>(size);
    ReachesKeeps(Init(size), run, t);
  }

  /** A worker sleeps exactly on an empty queue of a running pool, leaves exactly on that of a stopped
      one, and otherwise takes the oldest task, leaving the other workers alone. */
  lemma CheckDecides<T>(s: State<T>, i: nat)
    requires Enabled(s, Check(i))
    ensures var t := Next(s, Action<T>.Check(i));
            && |t.workers| == |s.workers| && (forall j | 0 <= j < |s.workers| && j != i :: t.workers[j] == s.workers[j])
            && (t.workers[i].Blocked? <==> s.tasks == [] && !s.stop)
            && (t.workers[i].Done? <==> s.tasks == [] && s.stop)
            && (s.tasks != [] ==> t.workers[i] == Running(s.tasks[0]) && s.tasks == [s.tasks[0]] + t.tasks)
  {}

  /** A worker that sleeps, wakes for nothing and sleeps again is woken by the first task, runs it
      and, once the pool is stopped, leaves. */
  lemma SleeperServes<T>(task: T) returns (run: seq<Action<T>>, t: State<T>)
    ensures Reaches(Init(1), run, t) && t.finished == [task] && AllDone(t)
  {
    var s1 := Next(Init<T>(1), Action<T>.Check(0));
    var s2 := Next(s1, Action<T>.Spurious(0));
    var s3 := Next(s2, Action<T>.Check(0));
    var s4 := Next(s3, Add(task));
    assert s3.workers[0].Blocked?;
    var s5 := Next(s4, Action<T>.Notify(0));
    run, t := ServeAndLeave(s5, task);
    run := RunBefore(s4, Action<T>.Notify(0), run, t);
    run := RunBefore(s3, Add(task), run, t);
    run := RunBefore(s2, Action<T>.Check(0), run, t);
    run := RunBefore(s1, Action<T>.Spurious(0), run, t);
    run := RunBefore(Init(1), Action<T>.Check(0), run, t);
  }

  lemma RunBefore<T>(s: State<T>, a: Action<T>, rest: seq<Action<T>>, t: State<T>) returns (run: seq<Action<T>>)
    requires Enabled(s, a) && Reaches(Next(s, a), rest, t)
    ensures Reaches(s, run, t)
  {
    run := [a] + rest;
    assert run[1..] == rest;
  }

  lemma ServeAndLeave<T>(s: State<T>, task: T) returns (run: seq<Action<T>>, t: State<T>)
    requires s.workers == [Ready] && s.tasks == [task] && !s.stop && s.finished == []
    ensures Reaches(s, run, t) && t.finished == [task] && AllDone(t)
  {
    var s1 := Next(s, Action<T>.Check(0));
    var s2 := Next(s1, Action<T>.Finish(0));
    assert s2.finished == [] + [task];
    run, t := SleepAndLeave(s2);
    run := RunBefore(s1, Action<T>.Finish(0), run, t);
    run := RunBefore(s, Action<T>.Check(0), run, t);
  }

  lemma SleepAndLeave<T>(s: State<T>) returns (run: seq<Action<T>>, t: State<T>)
    requires s.workers == [Ready] && s.tasks == [] && !s.stop
    ensures Reaches(s, run, t) && t.finished == s.finished && AllDone(t)
  {
    var s1 := Next(s, Action<T>.Check(0));
    var s2 := Next(s1, Action<T>.Stop);
    var s3 := Next(s2, Action<T>.NotifyAll);
    WokenWakes(s2.workers);
    assert s3.workers[0] == Ready;
    t := Next(s3, Action<T>.Check(0));
    run := [];
    run := RunBefore(s3, Action<T>.Check(0), run, t);
    run := RunBefore(s2, Action<T>.NotifyAll, run, t);
    run := RunBefore(s1, Action<T>.Stop, run, t);
    run := RunBefore(s, Action<T>.Check(0), run, t);
  }

  /** While tasks are queued, some worker is not blocked or an `Add` still owes its notification;
      and no worker stays blocked for want of one of them. */
  lemma {:induction false} QueueIsAttended<T>(size: nat, run: seq<Action<T>>, t: State<T>)
    requires Reaches(Init(size), run, t)
    ensures NoneBlocked(t.workers) || |t.tasks| <= t.owed + CountReady(t.workers)
    ensures t.tasks != [] ==>
              t.owed > 0 || exists i :: 0 <= i < |t.workers| && (t.workers[i].Ready? || t.workers[i].Running?)
  {
    InitInv<T>(size);
    ReachesKeeps(Init(size), run, t);
    if t.tasks != [] && t.owed == 0 {
      if NoneBlocked(t.workers) {
        assert !t.workers[0].Blocked? && !t.workers[0].Done?;
      } else {
        var i := SomeReady(t.workers);
      }
    }
  }

  lemma {:induction false} SomeReady<T>(ws: seq<Worker<T>>) returns (i: nat)
    requires CountReady(ws) > 0
    ensures i < |ws| && ws[i].Ready?
    decreases |ws|
  {
    if ws[|ws| - 1].Ready? { i := |ws| - 1; } else { i := SomeReady(ws[..|ws| - 1]); }
  }

  predicate AllDone<T>(s: State<T>) { forall i | 0 <= i < |s.workers| :: s.workers[i].Done? }

  /** When the destructor's joins are over nothing is pending: every accepted task was started in
      order and has finished, each as often as it was accepted. */
  lemma {:induction false} JoinedMeansDrained<T>(size: nat, run: seq<Action<T>>, t: State<T>, x: T)
    requires Reaches(Init(size), run, t) && AllDone(t)
    ensures t.stop && t.tasks == [] && t.started == t.accepted
    ensures multiset(t.finished)[x] == multiset(t.accepted)[x]
  {
    InitInv<T>(size);
    ReachesKeeps(Init(size), run, t);
    assert t.workers[0].Done?;
    NobodyRuns(Init<T>(size).workers, x);
    ReachesAccounts(Init(size), run, t, x);
    NobodyRuns(t.workers, x);
  }

  // ---------- The joins end ----------

  /** What is left to do once the pool has stopped. */
  function Left<T>(s: State<T>): nat { 3 * |s.tasks| + Effort(s.workers) + if s.owedAll then 1 else 0 }

  predicate OfThePool<T>(a: Action<T>) { a.Check? || a.Finish? || a.NotifyAll? }

  /** In a stopped pool a step of the pool's own threads leaves less to do, and adding does nothing. */
  lemma StepsDrain<T>(s: State<T>, a: Action<T>)
    requires Inv(s) && s.stop && Enabled(s, a)
    ensures OfThePool(a) ==> Left(Next(s, a)) < Left(s)
    ensures a.Add? ==> Next(s, a) == s
    ensures Left(Next(s, a)) <= Left(s) && Next(s, a).stop
  {
    match a {
      case Add(t) =>
      case Notify(i) => if !NoneBlocked(s.workers) { SetWorker(s.workers, i, Ready); }
      case Spurious(i) => SetWorker(s.workers, i, Ready);
      case Check(i) =>
        match Decide(s.stop, s.tasks) {
          case Sleep =>
          case Leave => SetWorker(s.workers, i, Done);
          case Take(t) => SetWorker(s.workers, i, Running(t));
        }
      case Finish(i) => SetWorker(s.workers, i, Ready);
      case Stop =>
      case NotifyAll => WokenWakes(s.workers);
    }
  }

  /** Until every worker has returned, a stopped pool has such a step. */
  lemma SomeStepDrains<T>(s: State<T>) returns (a: Action<T>)
    requires Inv(s) && s.stop && !AllDone(s)
    ensures OfThePool(a) && Enabled(s, a)
  {
    if s.owedAll {
      a := NotifyAll;
    } else {
      var i :| 0 <= i < |s.workers| && !s.workers[i].Done?;
      assert !s.workers[i].Blocked?;
      a := if s.workers[i].Ready? then Check(i) else Finish(i);
    }
  }

  /** So the joins end: some run of the pool's own threads brings a stopped pool to its end. */
  lemma {:induction false} StoppedPoolEnds<T>(s: State<T>) returns (run: seq<Action<T>>, t: State<T>)
    requires Inv(s) && s.stop
    ensures Reaches(s, run, t) && AllDone(t)
    ensures |run| <= Left(s) && forall a | a in run :: OfThePool(a)
    decreases Left(s)
  {
    if AllDone(s) {
      run, t := [], s;
    } else {
      var a := SomeStepDrains(s);
      StepsDrain(s, a);
      NextKeeps(s, a);
      var rest;
      rest, t := StoppedPoolEnds(Next(s, a));
      run := [a] + rest;
      assert run[1..] == rest;
    }
  }

  // ---------- The class ----------

  class ThreadPool<T> {
    var tasks: seq<T>
    var stop: bool

    constructor ()
      ensures tasks == [] && !stop
    {
      tasks := [];
      stop := false;
    }

    /** Throws, `accepted` being false, once the pool has stopped. */
    method Add(task: T) returns (accepted: bool)
      modifies this`tasks
      ensures accepted == !stop
      ensures tasks == if accepted then old(tasks) + [task] else old(tasks)
    {
      accepted := !stop;
      if accepted {
        tasks := tasks + [task];
      }
    }

    /** A worker's critical section, from the test of `wait` on. */
    method TakeTask() returns (turn: Turn<T>)
      modifies this`tasks
      ensures turn == Decide(stop, old(tasks))
      ensures tasks == if turn.Take? then old(tasks)[1..] else old(tasks)
    {
      if !(stop || tasks != []) { return Sleep; }
      if stop && tasks == [] { return Leave; }
      turn := Take(tasks[0]);
      tasks := tasks[1..];
    }

    method Stop()
      modifies this`stop
      ensures stop
    {
      stop := true;
    }
  }
}
