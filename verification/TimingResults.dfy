/** What one batch of the timer queue does, and what holds in every reachable state. */
module TimingResults {
  import opened Timing
  import opened Options

  // ---------- One batch ----------

  /** One batch: exactly the due timers run, once each and in order; afterwards the queue holds the
      timers that were not due, the surviving insertions and the repeating timers, once each. */
  lemma {:induction false} BatchIsExact(q: Queue, w: World)
    requires Good(q) && Plausible(q, w)
    ensures Live(Due(q, w), q.table)
    ensures var p := Handled(q, w);
            && Good(p) && p.ran == q.ran + Due(q, w)
            && Elements(p.timers) == Elements(Later(q, w))
                                     + (set x | x in Inserted(q, w) && Survives(q, w, x))
                                     + Renewed(q.table, Due(q, w), 0, w)
  {
    DueIsLive(q, w);
    ErasedKeeps(q, w);
    var p := Erased(q, w);
    RenewedDependsOnLater(q.table, p.table, Due(q, w), 0, w);
    RestartFromKeeps(p, Due(q, w), 0, w);
    assert Elements(p.timers) == Elements(Later(q, w)) + set x | x in Inserted(q, w) && Survives(q, w, x);
  }

  lemma LaterSurvives(q: Queue, w: World, x: Entry)
    requires Good(q) && x in Later(q, w)
    ensures Survives(q, w, x)
  {
    CutIsNow(q, w);
    LaterNotLess(Later(q, w), x);
  }

  lemma InsertedIsNotRenewed(q: Queue, w: World, x: Entry)
    requires Good(q) && Plausible(q, w) && x in Inserted(q, w)
    requires Live(Due(q, w), q.table)
    ensures x !in Renewed(q.table, Due(q, w), 0, w)
  {
    ScriptApart(Started(q, w), Due(q, w), 0, w);
    RenewedIds(q.table, Due(q, w), 0, w);
  }

  /** An insertion erased is not in the queue under another name. */
  lemma ErasedIsLost(q: Queue, w: World, x: Entry)
    requires Good(q) && Plausible(q, w) && x in Inserted(q, w) && !Survives(q, w, x)
    ensures x !in Elements(Handled(q, w).timers)
  {
    BatchIsExact(q, w);
    InsertedIsNotRenewed(q, w, x);
    if x in Later(q, w) { LaterSurvives(q, w, x); }
  }

  /** No timer is lost exactly when no callback inserts one that sorts before the first timer that
      is not due; when every timer is due, no callback may insert any. */
  lemma {:induction false} NothingIsLostIff(q: Queue, w: World)
    requires Good(q) && Plausible(q, w)
    ensures Live(Due(q, w), q.table)
    ensures Elements(Handled(q, w).timers) == Elements(Later(q, w)) + Inserted(q, w) + Renewed(q.table, Due(q, w), 0, w)
            <==> forall x | x in Inserted(q, w) :: Survives(q, w, x)
  {
    BatchIsExact(q, w);
    if forall x | x in Inserted(q, w) :: Survives(q, w, x) {
      assert (set x | x in Inserted(q, w) && Survives(q, w, x)) == Inserted(q, w);
    } else {
      var x :| x in Inserted(q, w) && !Survives(q, w, x);
      ErasedIsLost(q, w, x);
    }
  }

  /** A timer that the only timer's callback sets is lost. */
  lemma OnlyTimerReschedules(q: Queue, w: World, e: Entry, r: Request)
    requires Good(q) && q.timers == [e] && Less(e, Entry(w.now, w.probe)) && !q.table[e.id].IfRepeat()
    requires w.script(0) == [r] && r.id != e.id
    ensures Plausible(q, w) && Inserted(q, w) == {r.Key()} && Handled(q, w).timers == []
  {
    assert q.timers[1..] == [] && [r][1..] == [];
    assert Cut(q, w) == 1 && Due(q, w) == [e] && Later(q, w) == [];
    var s := Begin(Started(q, w), e);
    assert AllFresh(Insert(s, r), []);
    assert Keys([r]) == {r.Key()};
    assert Scripted(w, 1, 1) == {};
    DueIsLive(q, w);
    BatchIsExact(q, w);
    assert Renewed(q.table, Due(q, w), 0, w) == {};
    NoElements(Handled(q, w).timers);
  }

  // ---------- Any run of the queue ----------

  /** The queue and the clock. */
  datatype State = State(q: Queue, clock: int)

  datatype Action =
    | Pass(to: int)
    | Add(r: Request)
    | Fire(w: World)

  const INIT := State(EMPTY_QUEUE, 0)

  /** A descriptor expires when its time has come. */
  function Expire(fd: Timerfd, clock: int): Timerfd {
    if fd.Armed? && fd.at <= clock then Expired else fd
  }

  predicate Enabled(s: State, a: Action)
    requires Good(s.q)
  {
    match a
    case Pass(to) => s.clock <= to
    case Add(r) => r.now == s.clock && Fresh(s.q, r)
    case Fire(w) => s.q.fd == Expired && s.clock <= w.armAt && Plausible(s.q, w)
  }

  function Next(s: State, a: Action): State
    requires Good(s.q) && Enabled(s, a)
  {
    match a
    case Pass(to) => State(s.q.(fd := Expire(s.q.fd, to)), to)
    case Add(r) => State(Insert(s.q, r), s.clock)
    case Fire(w) => State(Handled(s.q, w), w.armAt)
  }

  /** With timers pending, the descriptor has expired or will, at the earliest deadline or a
      hundred microseconds after it was set, whichever is later. */
  predicate ArmedInTime(s: State) {
    match s.q.fd
    case Idle => s.q.timers == []
    case Expired => true
    case Armed(at, setAt) =>
      s.q.timers != [] ==> setAt <= s.clock < at && at == Max(s.q.timers[0].time, setAt + MINIMUM_WAIT)
  }

  ghost predicate Inv(s: State) { Good(s.q) && ArmedInTime(s) }

  lemma NextKeeps(s: State, a: Action)
    requires Inv(s) && Enabled(s, a)
    ensures Inv(Next(s, a))
  {
    match a
    case Pass(to) =>
    case Add(r) =>
      InsertKeeps(s.q, r);
      PutInserts(s.q.timers, r.Key());
    case Fire(w) =>
      BatchIsExact(s.q, w);
      HandledArms(s.q, w);
  }

  lemma HandledArms(q: Queue, w: World)
    requires Good(q) && Plausible(q, w)
    ensures var p := Handled(q, w);
            p.timers != [] ==> p.fd == Armed(Max(p.timers[0].time, w.armAt + MINIMUM_WAIT), w.armAt)
  {}

  ghost predicate Reachable(s: State, run: seq<Action>)
    decreases |run|
  {
    if run == [] then s == INIT
    else exists before ::
      Reachable(before, run[..|run| - 1]) && Good(before.q) && Enabled(before, run[|run| - 1])
      && s == Next(before, run[|run| - 1])
  }

  /** In every reachable state each key is its timer's own deadline, no timer is in the queue twice,
      and a loop that blocks with timers pending will be woken in time. */
  lemma {:induction false} AlwaysKeyedAndArmed(s: State, run: seq<Action>)
    requires Reachable(s, run)
    ensures Good(s.q) && DistinctIds(s.q.timers) && ArmedInTime(s)
    decreases |run|
  {
    if run != [] {
      var before :| Reachable(before, run[..|run| - 1]) && Good(before.q) && Enabled(before, run[|run| - 1])
                    && s == Next(before, run[|run| - 1]);
      AlwaysKeyedAndArmed(before, run[..|run| - 1]);
      NextKeeps(before, run[|run| - 1]);
    }
    OnceEach(s.q);
  }

  // ---------- Between the poll and the read ----------

  /** The rest of the batch: time passes and other handlers insert timers. */
  ghost predicate Between(s: State, run: seq<Action>, t: State)
    decreases |run|
  {
    if run == [] then s == t
    else Good(s.q) && !run[0].Fire? && Enabled(s, run[0]) && Between(Next(s, run[0]), run[1..], t)
  }

  /** When the last insertion that became the first timer has the descriptor expire; `due` if none did. */
  function LastSetFor(timers: seq<Entry>, run: seq<Action>, due: Option<int>): Option<int>
    decreases |run|
  {
    if run == [] then due
    else match run[0]
      case Add(r) =>
        var at := Max(r.timestamp, r.now + MINIMUM_WAIT);
        LastSetFor(Put(timers, r.Key()), run[1..], if BecomesFirst(timers, r.timestamp) then Some(at) else due)
      case _ => LastSetFor(timers, run[1..], due)
  }

  /** Not set since the poll and still expired, or set for `due` and expired once that has come. */
  predicate SetFor(s: State, due: Option<int>) {
    match due
    case None => s.q.fd.Expired?
    case Some(at) => if at <= s.clock then s.q.fd.Expired? else s.q.fd.Armed? && s.q.fd.at == at
  }

  lemma StepSetsFor(s: State, a: Action, due: Option<int>)
    requires Good(s.q) && !a.Fire? && Enabled(s, a) && SetFor(s, due)
    ensures Good(Next(s, a).q)
    ensures match a
            case Add(r) =>
              SetFor(Next(s, a), if BecomesFirst(s.q.timers, r.timestamp)
                                 then Some(Max(r.timestamp, r.now + MINIMUM_WAIT)) else due)
            case _ => SetFor(Next(s, a), due)
  {
    if a.Add? {
      InsertKeeps(s.q, a.r);
      PutInserts(s.q.timers, a.r.Key());
    }
  }

  lemma {:induction false} RunSetsFor(s: State, run: seq<Action>, t: State, due: Option<int>)
    requires Good(s.q) && SetFor(s, due) && Between(s, run, t)
    ensures SetFor(t, LastSetFor(s.q.timers, run, due))
    decreases |run|
  {
    if run != [] {
      StepSetsFor(s, run[0], due);
      var next := match run[0]
        case Add(r) =>
          if BecomesFirst(s.q.timers, r.timestamp) then Some(Max(r.timestamp, r.now + MINIMUM_WAIT)) else due
        case _ => due;
      RunSetsFor(Next(s, run[0]), run[1..], t, next);
    }
  }

  /** Setting the descriptor takes back its expiry.  At the read, after any time and any insertions
      since the poll that reported it, the descriptor is readable exactly when no insertion became
      the first timer, or the time the last such insertion set it for has come. */
  lemma {:induction false} StaysReadableIff(s: State, run: seq<Action>, t: State)
    requires Good(s.q) && s.q.fd.Expired? && Between(s, run, t)
    ensures var due := LastSetFor(s.q.timers, run, None);
            t.q.fd.Expired? <==> due.None? || due.value <= t.clock
  {
    RunSetsFor(s, run, t, None);
  }

  predicate SomeBecomesFirst(timers: seq<Entry>, run: seq<Action>)
    decreases |run|
  {
    && run != []
    && match run[0]
       case Add(r) => BecomesFirst(timers, r.timestamp) || SomeBecomesFirst(Put(timers, r.Key()), run[1..])
       case _ => SomeBecomesFirst(timers, run[1..])
  }

  lemma {:induction false} LastSetForIff(timers: seq<Entry>, run: seq<Action>, due: Option<int>)
    ensures LastSetFor(timers, run, due).None? <==> due.None? && !SomeBecomesFirst(timers, run)
    decreases |run|
  {
    if run != [] {
      match run[0]
      case Add(r) =>
        var at := Max(r.timestamp, r.now + MINIMUM_WAIT);
        LastSetForIff(Put(timers, r.Key()), run[1..], if BecomesFirst(timers, r.timestamp) then Some(at) else due);
      case _ => LastSetForIff(timers, run[1..], due);
    }
  }

  /** So it is readable, however long the batch takes, if no insertion becomes the first timer; and
      without that, not before another hundred microseconds. */
  lemma {:induction false} ReadableUnlessSet(s: State, run: seq<Action>, t: State)
    requires Good(s.q) && s.q.fd.Expired? && Between(s, run, t)
    ensures !SomeBecomesFirst(s.q.timers, run) ==> t.q.fd.Expired?
    ensures SomeBecomesFirst(s.q.timers, run) && t.clock < s.clock + MINIMUM_WAIT ==> !t.q.fd.Expired?
  {
    StaysReadableIff(s, run, t);
    LastSetForIff(s.q.timers, run, None);
    SetNoEarlier(s, run, t, None);
  }

  lemma {:induction false} SetNoEarlier(s: State, run: seq<Action>, t: State, due: Option<int>)
    requires Between(s, run, t)
    ensures var last := LastSetFor(s.q.timers, run, due);
            last == due || (last.Some? && last.value >= s.clock + MINIMUM_WAIT)
    decreases |run|
  {
    if run != [] {
      var next := match run[0]
        case Add(r) =>
          if BecomesFirst(s.q.timers, r.timestamp) then Some(Max(r.timestamp, r.now + MINIMUM_WAIT)) else due
        case _ => due;
      SetNoEarlier(Next(s, run[0]), run[1..], t, next);
    }
  }

  lemma ReachableStep(s: State, run: seq<Action>, a: Action)
    requires Reachable(s, run) && Good(s.q) && Enabled(s, a)
    ensures Reachable(Next(s, a), run + [a])
  {
    assert (run + [a])[..|run|] == run;
  }

  /** A timer due at 50, its expiry reported at 200. */
  lemma ReportedAt200() returns (s: State, run: seq<Action>)
    ensures Reachable(s, run) && Good(s.q)
    ensures s == State(Queue([Entry(50, 1)], [], map[1 := Timer(50, 0.0)], Expired, []), 200)
  {
    var first := Request(50, 0.0, 1, 0);
    assert Reachable(INIT, []);
    ReachableStep(INIT, [], Add(first));
    var s1 := Next(INIT, Add(first));
    InsertKeeps(INIT.q, first);
    assert s1.q.timers == [Entry(50, 1)] && s1.q.fd == Armed(100, 0);
    ReachableStep(s1, [] + [Add(first)], Pass(200));
    s := Next(s1, Pass(200));
    run := [] + [Add(first)] + [Pass(200)];
  }

  /** From the start: between the report and the read another timer is set for 40.  The read aborts
      if it comes at once, and does not if it comes at 400. */
  lemma ReportedExpiryIsTakenBack() returns (s: State, run: seq<Action>, r: Request)
    ensures Reachable(s, run) && Good(s.q) && s.q.fd.Expired? && Enabled(s, Add(r))
            && BecomesFirst(s.q.timers, r.timestamp)
    ensures var t := Next(s, Add(r));
            Good(t.q) && !t.q.fd.Expired? && Enabled(t, Pass(400)) && Next(t, Pass(400)).q.fd.Expired?
  {
    s, run := ReportedAt200();
    r := Request(40, 0.0, 2, 200);
    InsertKeeps(s.q, r);
  }

  /** From the start: the only timer is due, its callback sets another five seconds ahead, and that
      one is erased unrun. */
  lemma RescheduledTimerIsLost(w: World) returns (s: State, run: seq<Action>)
    requires w.now == w.armAt == 200 && w.script(0) == [Request(5000200, 0.0, 2, 200)]
    ensures Reachable(s, run) && Good(s.q) && Enabled(s, Fire(w))
    ensures Inserted(s.q, w) == {Entry(5000200, 2)} && Next(s, Fire(w)).q.timers == []
  {
    s, run := ReportedAt200();
    OnlyTimerReschedules(s.q, w, Entry(50, 1), Request(5000200, 0.0, 2, 200));
  }
}
