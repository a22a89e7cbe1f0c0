/** The timer queue: an ordered set of deadlines, cut at "now" when the timer descriptor fires,
    with repeating timers put back and the one-shot descriptor armed for the earliest deadline.

    Times are whole microseconds. Timers live in a table from their address to their fields, so
    that an entry's own copy of the deadline and the timer's can differ. */
module Timing {
  import opened Options

  /** `Timer`: `repeat_` is `interval_ > 0`. */
  datatype Timer = Timer(timestamp: int, interval: real) {
    predicate IfRepeat() { interval > 0.0 }
  }

  /** `pair<TimeStamp, shared_ptr<Timer>>`; equal times are ordered by address. */
  datatype Entry = Entry(time: int, id: nat)

  /** The timer descriptor: not set; set at `setAt` to expire at `at`; or expired and not read. */
  datatype Timerfd = Idle | Armed(at: int, setAt: int) | Expired

  datatype Queue = Queue(timers: seq<Entry>, active: seq<Entry>, table: map<nat, Timer>, fd: Timerfd, ran: seq<Entry>)

  const MICROSECOND_2_SECOND := 1000000.0

  const MINIMUM_WAIT := 100

  const EMPTY_QUEUE := Queue([], [], map[], Idle, [])

  predicate Less(a: Entry, b: Entry) { a.time < b.time || (a.time == b.time && a.id < b.id) }

  predicate Sorted(q: seq<Entry>) { forall i, j | 0 <= i < j < |q| :: Less(q[i], q[j]) }

  function Elements(q: seq<Entry>): set<Entry> { set e | e in q }

  /** `set::emplace` */
  function Put(q: seq<Entry>, e: Entry): seq<Entry> {
    if q == [] || Less(e, q[0]) then [e] + q
    else if e == q[0] then q
    else [q[0]] + Put(q[1..], e)
  }

  /** `set::lower_bound`: how many entries sort before `e`. */
  function LowerBound(q: seq<Entry>, e: Entry): (n: nat)
    ensures n <= |q|
  {
    if q == [] || !Less(q[0], e) then 0 else 1 + LowerBound(q[1..], e)
  }

  /** The entries from `stop` on; all are gone if `stop` is the end of the set. */
  function EraseBefore(q: seq<Entry>, stop: Option<Entry>): seq<Entry> {
    match stop
    case None => []
    case Some(e) => q[LowerBound(q, e)..]
  }

  /** C's conversion to an integer drops the fraction. */
  function Truncate(r: real): int { if r >= 0.0 then r.Floor else -((-r).Floor) }

  function AddTime(timestamp: int, seconds: real): int { timestamp + Truncate(seconds * MICROSECOND_2_SECOND) }

  /** Adding seconds adds their whole microseconds; a rest of one is dropped, towards zero. */
  lemma AddTimeIsMicroseconds(timestamp: int, seconds: real, k: nat, rest: real)
    requires 0.0 <= rest < 1.0
    ensures seconds * 1000000.0 == k as real + rest ==> AddTime(timestamp, seconds) == timestamp + k
    ensures seconds * 1000000.0 == -(k as real + rest) ==> AddTime(timestamp, seconds) == timestamp - k
  {}

  function Max(a: int, b: int): int { if a < b then b else a }

  /** `ResetTimerfd(timers_.begin()->first)` */
  function Arm(q: Queue, now: int): Queue
    requires q.timers != []
  {
    q.(fd := Armed(now + Max(q.timers[0].time - now, MINIMUM_WAIT), now))
  }

  /** A call of `Insert`, with the address its timer gets and the clock it reads. */
  datatype Request = Request(timestamp: int, interval: real, id: nat, now: int) {
    function Key(): Entry { Entry(timestamp, id) }
  }

  predicate BecomesFirst(q: seq<Entry>, timestamp: int) { q == [] || timestamp < q[0].time }

  function Insert(q: Queue, r: Request): Queue {
    var p := q.(timers := Put(q.timers, r.Key()), table := q.table[r.id := Timer(r.timestamp, r.interval)]);
    if BecomesFirst(q.timers, r.timestamp) then Arm(p, r.now) else p
  }

  function InsertAll(q: Queue, rs: seq<Request>): Queue
    decreases |rs|
  {
    if rs == [] then q else InsertAll(Insert(q, rs[0]), rs[1..])
  }

  /** What one `HandleTimers` meets: the clock and the address of its probe, what the `k`-th
      callback inserts, the clock at the `k`-th restart, and the clock when it arms again. */
  datatype World = World(now: int, probe: nat, script: nat -> seq<Request>, clock: nat -> int, armAt: int)

  function Begin(q: Queue, e: Entry): Queue { q.(ran := q.ran + [e]) }

  function RunOne(q: Queue, e: Entry, rs: seq<Request>): Queue { InsertAll(Begin(q, e), rs) }

  /** The callbacks of `active[k..]`. */
  function RunFrom(q: Queue, active: seq<Entry>, k: nat, w: World): Queue
    decreases |active| - k
  {
    if k >= |active| then q else RunFrom(RunOne(q, active[k], w.script(k)), active, k + 1, w)
  }

  function Restart(q: Queue, id: nat, now: int): Queue
    requires id in q.table
  {
    var timer := q.table[id].(timestamp := AddTime(now, q.table[id].interval));
    q.(table := q.table[id := timer], timers := Put(q.timers, Entry(timer.timestamp, id)))
  }

  predicate Live(active: seq<Entry>, table: map<nat, Timer>) { forall e | e in active :: e.id in table }

  /** The loop of `ResetTimers` over `active[k..]`. */
  function RestartFrom(q: Queue, active: seq<Entry>, k: nat, w: World): Queue
    requires Live(active, q.table)
    decreases |active| - k
  {
    if k >= |active| then q
    else if q.table[active[k].id].IfRepeat() then RestartFrom(Restart(q, active[k].id, w.clock(k)), active, k + 1, w)
    else RestartFrom(q, active, k + 1, w)
  }

  function ResetTimers(q: Queue, w: World): Queue
    requires Live(q.active, q.table)
  {
    var p := RestartFrom(q, q.active, 0, w);
    if p.timers == [] then p else Arm(p, w.armAt)
  }

  // ---------- The parts of HandleTimers ----------

  function Cut(q: Queue, w: World): (n: nat)
    ensures n <= |q.timers|
  {
    LowerBound(q.timers, Entry(w.now, w.probe))
  }

  function Boundary(q: Queue, w: World): Option<Entry> {
    if Cut(q, w) < |q.timers| then Some(q.timers[Cut(q, w)]) else None
  }

  /** Reading the descriptor, cutting the set and running what is due. */
  function RunDue(q: Queue, w: World): Queue {
    var active := q.timers[..Cut(q, w)];
    RunFrom(q.(fd := Idle, active := active), active, 0, w)
  }

  function Erased(q: Queue, w: World): Queue {
    var p := RunDue(q, w);
    p.(timers := EraseBefore(p.timers, Boundary(q, w)))
  }

  // ---------- The ordered set ----------

  lemma NoElements(q: seq<Entry>)
    ensures q == [] <==> Elements(q) == {}
  {
    if q != [] { assert q[0] in Elements(q); }
  }

  lemma ElementsConcat(a: seq<Entry>, b: seq<Entry>)
    ensures Elements(a + b) == Elements(a) + Elements(b)
  {}

  lemma {:induction false} PutElements(q: seq<Entry>, e: Entry)
    ensures Elements(Put(q, e)) == Elements(q) + {e}
    decreases |q|
  {
    if q == [] || Less(e, q[0]) {
      ElementsConcat([e], q);
    } else if e != q[0] {
      PutElements(q[1..], e);
      assert q == [q[0]] + q[1..];
      ElementsConcat([q[0]], q[1..]);
      ElementsConcat([q[0]], Put(q[1..], e));
    }
  }

  lemma {:induction false} PutInserts(q: seq<Entry>, e: Entry)
    requires Sorted(q)
    ensures Sorted(Put(q, e)) && Elements(Put(q, e)) == Elements(q) + {e}
    ensures Put(q, e) != [] && Put(q, e)[0] == if q == [] || Less(e, q[0]) then e else q[0]
    decreases |q|
  {
    PutElements(q, e);
    if q == [] || Less(e, q[0]) || e == q[0] {
    } else {
      PutInserts(q[1..], e);
      var rest := Put(q[1..], e);
      forall j | 0 <= j < |rest| ensures Less(q[0], rest[j]) {
        assert rest[j] in Elements(rest);
        if rest[j] != e { assert rest[j] in Elements(q[1..]); }
      }
    }
  }

  lemma {:induction false} LowerBoundSplits(q: seq<Entry>, e: Entry)
    requires Sorted(q)
    ensures forall i | 0 <= i < |q| :: Less(q[i], e) <==> i < LowerBound(q, e)
    decreases |q|
  {
    if q != [] {
      if Less(q[0], e) {
        LowerBoundSplits(q[1..], e);
        forall i | 0 < i < |q| ensures Less(q[i], e) <==> i < LowerBound(q, e) { assert q[i] == q[1..][i - 1]; }
      }
    }
  }

  lemma EraseKeeps(q: seq<Entry>, e: Entry)
    requires Sorted(q)
    ensures var rest := EraseBefore(q, Some(e));
            Sorted(rest) && forall x :: x in rest <==> x in q && !Less(x, e)
  {
    LowerBoundSplits(q, e);
    var n := LowerBound(q, e);
    var rest := q[n..];
    forall x | x in q && !Less(x, e) ensures x in rest {
      var i :| 0 <= i < |q| && q[i] == x;
      assert rest[i - n] == x;
    }
    forall x | x in rest ensures x in q && !Less(x, e) {
      var i :| 0 <= i < |rest| && rest[i] == x;
      assert q[n + i] == x;
    }
  }

  /** Nothing runs early, nothing due is left, and what runs, runs in order of time. */
  lemma CutIsNow(q: Queue, w: World)
    requires Good(q)
    ensures Sorted(Due(q, w)) && forall e | e in Due(q, w) :: e.time <= w.now
    ensures forall e | e in Later(q, w) :: e.time >= w.now
    ensures forall a, b | a in Due(q, w) && b in Later(q, w) :: Less(a, b)
    ensures q.timers == Due(q, w) + Later(q, w)
  {
    LowerBoundSplits(q.timers, Entry(w.now, w.probe));
  }

  // ---------- One timer, one entry ----------

  /** Every key is its timer's own deadline. */
  predicate Keyed(timers: seq<Entry>, table: map<nat, Timer>) {
    forall e | e in timers :: e.id in table && table[e.id].timestamp == e.time
  }

  predicate Good(q: Queue) { Sorted(q.timers) && Keyed(q.timers, q.table) }

  predicate Absent(q: seq<Entry>, id: nat) { forall e | e in q :: e.id != id }

  /** A new timer's address is not that of a timer still referred to. */
  predicate Fresh(q: Queue, r: Request) { Absent(q.timers, r.id) && Absent(q.active, r.id) }

  predicate AllFresh(q: Queue, rs: seq<Request>)
    decreases |rs|
  {
    rs == [] || (Fresh(q, rs[0]) && AllFresh(Insert(q, rs[0]), rs[1..]))
  }

  function Keys(rs: seq<Request>): set<Entry> { set r | r in rs :: r.Key() }

  /** No timer is in the queue twice. */
  lemma OnceEach(q: Queue)
    requires Good(q)
    ensures forall i, j | 0 <= i < j < |q.timers| :: q.timers[i].id != q.timers[j].id
  {
    forall i, j | 0 <= i < j < |q.timers| ensures q.timers[i].id != q.timers[j].id {
      assert Less(q.timers[i], q.timers[j]);
    }
  }

  lemma InsertKeeps(q: Queue, r: Request)
    requires Good(q) && Fresh(q, r)
    ensures var p := Insert(q, r);
            && Good(p) && Elements(p.timers) == Elements(q.timers) + {r.Key()}
            && p.active == q.active && p.ran == q.ran
            && forall e | e in q.active && e.id in q.table :: e.id in p.table && p.table[e.id] == q.table[e.id]
  {
    var p := Insert(q, r);
    PutInserts(q.timers, r.Key());
    forall e | e in p.timers ensures e.id in p.table && p.table[e.id].timestamp == e.time {
      assert e in Elements(p.timers);
      if e != r.Key() { assert e in q.timers; }
    }
  }

  /** An insertion sets the descriptor exactly when nothing is queued or its deadline is strictly the
      earliest: for that deadline, or a hundred microseconds ahead if it comes sooner. */
  lemma InsertArmsIff(q: Queue, r: Request)
    ensures Insert(q, r).fd ==
            if q.timers == [] || r.timestamp < q.timers[0].time
            then Armed(Max(r.timestamp, r.now + 100), r.now) else q.fd
  {}

  /** What a run of insertions leaves of the timers about to be restarted. */
  predicate Untouched(active: seq<Entry>, q: Queue, p: Queue) {
    && p.active == q.active
    && forall e | e in active && e.id in q.table :: e.id in p.table && p.table[e.id] == q.table[e.id]
  }

  lemma {:induction false} InsertAllKeeps(q: Queue, rs: seq<Request>)
    requires Good(q) && AllFresh(q, rs)
    ensures var p := InsertAll(q, rs);
            && Good(p) && Elements(p.timers) == Elements(q.timers) + Keys(rs)
            && p.ran == q.ran && Untouched(q.active, q, p)
    decreases |rs|
  {
    if rs != [] {
      InsertKeeps(q, rs[0]);
      InsertAllKeeps(Insert(q, rs[0]), rs[1..]);
      assert rs == [rs[0]] + rs[1..];
      assert Keys(rs) == {rs[0].Key()} + Keys(rs[1..]);
    }
  }

  /** All the addresses the callbacks of `active[k..]` are given are fresh. */
  predicate ScriptFresh(q: Queue, active: seq<Entry>, k: nat, w: World)
    decreases |active| - k
  {
    || k >= |active|
    || (AllFresh(Begin(q, active[k]), w.script(k)) && ScriptFresh(RunOne(q, active[k], w.script(k)), active, k + 1, w))
  }

  /** What the callbacks of `k..n` insert. */
  function Scripted(w: World, k: nat, n: nat): set<Entry>
    decreases n - k
  {
    if k >= n then {} else Keys(w.script(k)) + Scripted(w, k + 1, n)
  }

  lemma {:induction false} RunFromKeeps(q: Queue, active: seq<Entry>, k: nat, w: World)
    requires Good(q) && k <= |active| && ScriptFresh(q, active, k, w)
    ensures var p := RunFrom(q, active, k, w);
            && Good(p) && Elements(p.timers) == Elements(q.timers) + Scripted(w, k, |active|)
            && p.ran == q.ran + active[k..] && Untouched(q.active, q, p)
    decreases |active| - k
  {
    if k < |active| {
      InsertAllKeeps(Begin(q, active[k]), w.script(k));
      RunFromKeeps(RunOne(q, active[k], w.script(k)), active, k + 1, w);
      assert active[k..] == [active[k]] + active[k + 1..];
    }
  }

  function Due(q: Queue, w: World): seq<Entry> { q.timers[..Cut(q, w)] }

  function Later(q: Queue, w: World): seq<Entry> { q.timers[Cut(q, w)..] }

  /** The state in which the callbacks start. */
  function Started(q: Queue, w: World): Queue { q.(fd := Idle, active := Due(q, w)) }

  /** The environment hands out only free addresses. */
  predicate Plausible(q: Queue, w: World) { ScriptFresh(Started(q, w), Due(q, w), 0, w) }

  /** What the callbacks insert. */
  function Inserted(q: Queue, w: World): set<Entry> { Scripted(w, 0, Cut(q, w)) }

  lemma RunDueKeeps(q: Queue, w: World)
    requires Good(q) && Plausible(q, w)
    ensures var p := RunDue(q, w);
            && Good(p) && Elements(p.timers) == Elements(q.timers) + Inserted(q, w)
            && p.ran == q.ran + Due(q, w) && p.active == Due(q, w)
            && forall e | e in Due(q, w) :: e.id in p.table && p.table[e.id] == q.table[e.id]
  {
    RunFromKeeps(Started(q, w), Due(q, w), 0, w);
    assert Due(q, w)[0..] == Due(q, w);
    assert forall e | e in Due(q, w) :: e in q.timers;
  }

  /** Callback insertions that sort before the first timer that is not due, or any at all if every
      timer is due, are erased with the timers that ran. */
  predicate Survives(q: Queue, w: World, e: Entry) {
    match Boundary(q, w)
    case None => false
    case Some(b) => !Less(e, b)
  }

  /** What is in the set when the erase comes. */
  lemma BeforeErase(q: Queue, w: World, x: Entry)
    requires Good(q) && Plausible(q, w)
    ensures x in RunDue(q, w).timers <==> x in Due(q, w) || x in Later(q, w) || x in Inserted(q, w)
  {
    RunDueKeeps(q, w);
    CutIsNow(q, w);
    assert x in Elements(RunDue(q, w).timers) <==> x in Elements(q.timers) || x in Inserted(q, w);
  }

  lemma ErasedElements(q: Queue, w: World, x: Entry)
    requires Good(q) && Plausible(q, w)
    ensures x in Erased(q, w).timers <==> x in Later(q, w) || (x in Inserted(q, w) && Survives(q, w, x))
  {
    RunDueKeeps(q, w);
    BeforeErase(q, w, x);
    CutIsNow(q, w);
    var later := Later(q, w);
    if later != [] {
      assert Boundary(q, w) == Some(later[0]);
      EraseKeeps(RunDue(q, w).timers, later[0]);
      if x in later { LaterNotLess(later, x); }
    }
  }

  lemma ErasedHasNoDue(q: Queue, w: World, e: Entry)
    requires Good(q) && Plausible(q, w) && e in Due(q, w)
    ensures Absent(Erased(q, w).timers, e.id)
  {
    RunDueKeeps(q, w);
    BeforeErase(q, w, e);
    CutIsNow(q, w);
    var later := Later(q, w);
    if later != [] {
      assert Boundary(q, w) == Some(later[0]) && Less(e, later[0]);
      EraseKeeps(RunDue(q, w).timers, later[0]);
    }
  }

  lemma ErasedIsGood(q: Queue, w: World)
    requires Good(q) && Plausible(q, w)
    ensures Good(Erased(q, w))
  {
    RunDueKeeps(q, w);
    var p := RunDue(q, w);
    match Boundary(q, w)
    case None =>
    case Some(b) => EraseKeeps(p.timers, b);
  }

  lemma ErasedKeeps(q: Queue, w: World)
    requires Good(q) && Plausible(q, w)
    ensures var p := Erased(q, w);
            && Good(p) && p.ran == q.ran + Due(q, w) && p.active == Due(q, w)
            && (forall e | e in Due(q, w) :: e.id in p.table && p.table[e.id] == q.table[e.id])
            && (forall e | e in Due(q, w) :: Absent(p.timers, e.id))
            && (forall x :: x in p.timers <==> x in Later(q, w) || (x in Inserted(q, w) && Survives(q, w, x)))
  {
    RunDueKeeps(q, w);
    ErasedIsGood(q, w);
    forall e | e in Due(q, w) ensures Absent(Erased(q, w).timers, e.id) { ErasedHasNoDue(q, w, e); }
    forall x ensures x in Erased(q, w).timers <==> x in Later(q, w) || (x in Inserted(q, w) && Survives(q, w, x)) {
      ErasedElements(q, w, x);
    }
  }

  lemma LaterNotLess(later: seq<Entry>, x: Entry)
    requires Sorted(later) && x in later
    ensures !Less(x, later[0])
  {}

  // ---------- Putting the repeating timers back ----------

  /** The new entries of the repeating timers of `active[k..]`. */
  function Renewed(table: map<nat, Timer>, active: seq<Entry>, k: nat, w: World): set<Entry>
    requires Live(active, table)
    decreases |active| - k
  {
    if k >= |active| then {}
    else
      var id := active[k].id;
      (if table[id].IfRepeat() then {Entry(AddTime(w.clock(k), table[id].interval), id)} else {})
      + Renewed(table, active, k + 1, w)
  }

  /** Exactly the timers with a positive interval are put back, that many seconds after the clock. */
  lemma {:induction false} RenewedIff(table: map<nat, Timer>, active: seq<Entry>, k: nat, w: World, x: Entry)
    requires Live(active, table)
    ensures x in Renewed(table, active, k, w) <==>
            exists i :: k <= i < |active| && active[i].id == x.id && table[x.id].interval > 0.0
                        && x.time == AddTime(w.clock(i), table[x.id].interval)
    decreases |active| - k
  {
    if k < |active| {
      assert active[k] in active;
      RenewedIff(table, active, k + 1, w, x);
    }
  }

  predicate Unqueued(q: Queue, active: seq<Entry>, k: nat) {
    forall i | k <= i < |active| :: Absent(q.timers, active[i].id)
  }

  predicate DistinctIds(q: seq<Entry>) { forall i, j | 0 <= i < j < |q| :: q[i].id != q[j].id }

  /** Restarting a timer that has no entry left keeps every key its timer's own. */
  lemma RestartKeeps(q: Queue, active: seq<Entry>, k: nat, now: int)
    requires Good(q) && Live(active, q.table) && k < |active| && Unqueued(q, active, k) && DistinctIds(active)
    ensures var id := active[k].id; var p := Restart(q, id, now);
            && Good(p) && p.ran == q.ran && Live(active, p.table) && Unqueued(p, active, k + 1)
            && Elements(p.timers) == Elements(q.timers) + {Entry(AddTime(now, q.table[id].interval), id)}
            && forall i | k < i < |active| :: p.table[active[i].id] == q.table[active[i].id]
  {
    var id := active[k].id;
    var e := Entry(AddTime(now, q.table[id].interval), id);
    var p := Restart(q, id, now);
    PutInserts(q.timers, e);
    forall x | x in p.timers ensures (x == e || x in q.timers) && x.id in p.table && p.table[x.id].timestamp == x.time {
      assert x in Elements(p.timers);
    }
  }

  lemma {:induction false} RenewedDependsOnLater(t: map<nat, Timer>, u: map<nat, Timer>, active: seq<Entry>, k: nat,
                                                 w: World)
    requires Live(active, t) && Live(active, u)
    requires forall i | k <= i < |active| :: t[active[i].id] == u[active[i].id]
    ensures Renewed(t, active, k, w) == Renewed(u, active, k, w)
    decreases |active| - k
  {
    if k < |active| { RenewedDependsOnLater(t, u, active, k + 1, w); }
  }

  lemma {:induction false} RestartFromKeeps(q: Queue, active: seq<Entry>, k: nat, w: World)
    requires Good(q) && Live(active, q.table) && Unqueued(q, active, k) && DistinctIds(active)
    ensures var p := RestartFrom(q, active, k, w);
            && Good(p) && p.ran == q.ran
            && Elements(p.timers) == Elements(q.timers) + Renewed(q.table, active, k, w)
    decreases |active| - k
  {
    if k < |active| {
      var id := active[k].id;
      if q.table[id].IfRepeat() {
        RestartKeeps(q, active, k, w.clock(k));
        var p := Restart(q, id, w.clock(k));
        RenewedDependsOnLater(q.table, p.table, active, k + 1, w);
        RestartFromKeeps(p, active, k + 1, w);
      } else {
        RestartFromKeeps(q, active, k + 1, w);
      }
    }
  }

  // ---------- HandleTimers ----------

  /** What `HandleTimers` leaves when the descriptor could be read. */
  function Handled(q: Queue, w: World): Queue
    requires Good(q) && Plausible(q, w)
  {
    ErasedKeeps(q, w);
    ResetTimers(Erased(q, w), w)
  }

  lemma {:induction false} AllFreshApart(q: Queue, rs: seq<Request>)
    requires Good(q) && AllFresh(q, rs)
    ensures forall e | e in Keys(rs) :: Absent(q.active, e.id)
    decreases |rs|
  {
    if rs != [] {
      InsertKeeps(q, rs[0]);
      AllFreshApart(Insert(q, rs[0]), rs[1..]);
      assert rs == [rs[0]] + rs[1..];
    }
  }

  lemma {:induction false} ScriptApart(q: Queue, active: seq<Entry>, k: nat, w: World)
    requires Good(q) && ScriptFresh(q, active, k, w)
    ensures forall e | e in Scripted(w, k, |active|) :: Absent(q.active, e.id)
    decreases |active| - k
  {
    if k < |active| {
      AllFreshApart(Begin(q, active[k]), w.script(k));
      InsertAllKeeps(Begin(q, active[k]), w.script(k));
      ScriptApart(RunOne(q, active[k], w.script(k)), active, k + 1, w);
    }
  }

  lemma DueIsLive(q: Queue, w: World)
    requires Good(q)
    ensures Live(Due(q, w), q.table) && DistinctIds(Due(q, w))
  {
    OnceEach(q);
    assert forall e | e in Due(q, w) :: e in q.timers;
  }

  lemma {:induction false} RenewedIds(table: map<nat, Timer>, active: seq<Entry>, k: nat, w: World)
    requires Live(active, table)
    ensures forall e | e in Renewed(table, active, k, w) :: !Absent(active, e.id)
    decreases |active| - k
  {
    if k < |active| {
      assert active[k] in active;
      RenewedIds(table, active, k + 1, w);
    }
  }
}
