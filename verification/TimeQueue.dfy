/** `TimeQueue` as an object, each method against its function in `Timing`. */
module TimeQueues {
  import opened Timing
  import opened Options

  class TimeQueue {
    var timers: seq<Entry>
    var activeTimers: seq<Entry>
    var table: map<nat, Timer>
    var timerfd: Timerfd
    ghost var ran: seq<Entry>

    ghost function Contents(): Queue
      reads this
    {
      Queue(timers, activeTimers, table, timerfd, ran)
    }

    constructor ()
      ensures Contents() == EMPTY_QUEUE
    {
      timers := [];
      activeTimers := [];
      table := map[];
      timerfd := Idle;
      ran := [];
    }

    method ReadTimerfd() returns (ok: bool)
      modifies this`timerfd
      ensures ok == old(timerfd).Expired?
      ensures timerfd == if ok then Idle else old(timerfd)
    {
      ok := timerfd.Expired?;
      if ok { timerfd := Idle; }
    }

    method ResetTimerfd(newTime: int, now: int)
      modifies this`timerfd
      ensures timerfd == Armed(Max(newTime, now + MINIMUM_WAIT), now)
    {
      var dif := newTime - now;
      if dif < MINIMUM_WAIT {
        dif := MINIMUM_WAIT;
      }
      timerfd := Armed(now + dif, now);
    }

    method InsertTimer(id: nat) returns (ifReset: bool)
      requires id in table
      modifies this`timers
      ensures timers == Put(old(timers), Entry(table[id].timestamp, id))
      ensures ifReset <==> BecomesFirst(old(timers), table[id].timestamp)
    {
      ifReset := timers == [] || table[id].timestamp < timers[0].time;
      timers := Put(timers, Entry(table[id].timestamp, id));
    }

    method Insert(r: Request)
      modifies this
      ensures Contents() == Timing.Insert(old(Contents()), r)
    {
      table := table[r.id := Timer(r.timestamp, r.interval)];
      var ifReset := InsertTimer(r.id);
      if ifReset {
        ResetTimerfd(timers[0].time, r.now);
      }
    }

    method Run(e: Entry, requests: seq<Request>)
      modifies this
      ensures Contents() == RunOne(old(Contents()), e, requests)
    {
      ran := ran + [e];
      ghost var begun := Contents();
      for i := 0 to |requests|
        invariant InsertAll(begun, requests) == InsertAll(Contents(), requests[i..])
      {
        Insert(requests[i]);
        assert requests[i..][1..] == requests[i + 1..];
      }
      assert requests[|requests|..] == [];
    }

    method ResetTimers(w: World)
      requires Live(activeTimers, table)
      modifies this
      ensures Contents() == Timing.ResetTimers(old(Contents()), w)
    {
      for k := 0 to |activeTimers|
        invariant activeTimers == old(activeTimers) && Live(activeTimers, table)
        invariant RestartFrom(Contents(), activeTimers, k, w) == RestartFrom(old(Contents()), activeTimers, 0, w)
      {
        var id := activeTimers[k].id;
        if table[id].IfRepeat() {
          table := table[id := table[id].(timestamp := AddTime(w.clock(k), table[id].interval))];
          var _ := InsertTimer(id);
        }
      }
      if timers != [] {
        ResetTimerfd(timers[0].time, w.armAt);
      }
    }

    /** Aborts, `ok` being false, if the descriptor cannot be read. */
    method HandleTimers(w: World) returns (ok: bool)
      requires Good(Contents()) && Plausible(Contents(), w)
      modifies this
      ensures ok == old(timerfd).Expired?
      ensures Contents() == if ok then Handled(old(Contents()), w) else old(Contents())
    {
      ghost var q := Contents();
      ErasedKeeps(q, w);
      ok := ReadTimerfd();
      if !ok { return; }
      var end := LowerBound(timers, Entry(w.now, w.probe));
      var boundary := if end < |timers| then Some(timers[end]) else None;
      var active := timers[..end];
      activeTimers := active;
      for k := 0 to |active|
        invariant RunFrom(Contents(), active, k, w) == RunDue(q, w)
      {
        Run(active[k], w.script(k));
      }
      timers := EraseBefore(timers, boundary);
      assert Contents() == Erased(q, w);
      ResetTimers(w);
    }
  }
}
