/** A connection's sending side: `Connection::Send` and `WriteNonBlocking` over its output
    buffer and channel, against a kernel that may take any part of what it is offered. */
module SendPath {
  import B = ByteBuffer
  import C = Channels

  /** What one `write` answers: a byte count, a full socket buffer, or any other error. */
  datatype WriteResult = Wrote(n: nat) | Again | Failed

  datatype Status = Connected | Closed | BufferOverrun | EpollAbort

  /** `wire` is everything the kernel has accepted. */
  datatype Conn = Conn(status: Status, output: B.View, channel: C.View, wire: seq<char>)

  datatype Event = Send(data: seq<char>, result: WriteResult) | Writable(result: WriteResult)

  /** A connection as `NewConnection` leaves it: edge-triggered and listening for reads. */
  const ESTABLISHED := Conn(Connected, B.INITIAL,
                            C.View({C.ET_EVENT, C.READ_EVENT}, true, C.Registered({C.EPOLLET, C.EPOLLIN})), [])

  function Pending(c: Conn): seq<char>
    requires B.Valid(c.output)
  {
    B.Contents(c.output)
  }

  /** The kernel never takes more than it is offered. */
  predicate Possible(c: Conn, e: Event) {
    e.result.Wrote? ==> e.result.n <= if e.Send? then |e.data| else c.output.write - c.output.read
  }

  /** Short of that it may answer anything. */
  lemma AnyAnswer(c: Conn, data: seq<char>, n: nat)
    requires B.Valid(c.output)
    ensures Possible(c, Send(data, Again)) && Possible(c, Send(data, Failed))
    ensures Possible(c, Writable(Again)) && Possible(c, Writable(Failed))
    ensures Possible(c, Send(data, Wrote(n))) <==> n <= |data|
    ensures Possible(c, Writable(Wrote(n))) <==> n <= |Pending(c)|
  {}

  /** Queues what the kernel did not take and asks for a write event. */
  function Keep(c: Conn, data: seq<char>, repaired: bool): Conn
    requires B.Valid(c.output)
  {
    if data == [] then c
    else match B.AppendTo(c.output, data, repaired)
      case Overrun => c.(status := BufferOverrun)
      case Abort => c
      case Done(output) =>
        match C.Apply(c.channel, C.EnableWriting)
        case Abort => c.(status := EpollAbort)
        case Done(channel) => c.(output := output, channel := channel)
  }

  function DoSend(c: Conn, data: seq<char>, result: WriteResult, repaired: bool): Conn
    requires B.Valid(c.output) && Possible(c, Send(data, result))
  {
    if c.output.write - c.output.read == 0 then
      match result
      case Wrote(n) => Keep(c.(wire := c.wire + data[..n]), data[n..], repaired)
      case Again => Keep(c, data, repaired)
      case Failed => c.(status := Closed)
    else Keep(c, data, repaired)
  }

  function DoWrite(c: Conn, result: WriteResult): Conn
    requires B.Valid(c.output) && Possible(c, Writable(result))
  {
    if c.output.write - c.output.read == 0 then
      match C.Apply(c.channel, C.DisableWriting)
      case Abort => c.(status := EpollAbort)
      case Done(channel) => c.(channel := channel)
    else match result
      case Wrote(n) =>
        if n == 0 then c.(status := Closed)
        else c.(wire := c.wire + Pending(c)[..n], output := B.RetreiveFrom(c.output, n).view)
      case Again => c
      case Failed => c.(status := Closed)
  }

  function Step(c: Conn, e: Event, repaired: bool): Conn
    requires B.Valid(c.output)
  {
    if !c.status.Connected? || !Possible(c, e) then c
    else match e
      case Send(data, result) => DoSend(c, data, result, repaired)
      case Writable(result) => DoWrite(c, result)
  }

  lemma KeepValid(c: Conn, data: seq<char>, repaired: bool)
    requires B.Valid(c.output)
    ensures B.Valid(Keep(c, data, repaired).output)
  {
    B.AppendEnqueues(c.output, data, repaired);
  }

  lemma StepValid(c: Conn, e: Event, repaired: bool)
    requires B.Valid(c.output)
    ensures B.Valid(Step(c, e, repaired).output)
  {
    if Possible(c, e) {
      match e
      case Send(data, result) =>
        KeepValid(c, data, repaired);
        if result.Wrote? { KeepValid(c.(wire := c.wire + data[..result.n]), data[result.n..], repaired); }
      case Writable(result) =>
        if result.Wrote? { B.RetreiveDequeues(c.output, result.n); }
    }
  }

  function Run(events: seq<Event>, repaired: bool): (c: Conn)
    ensures B.Valid(c.output)
  {
    if events == [] then ESTABLISHED
    else
      var before := Run(events[..|events| - 1], repaired);
      StepValid(before, events[|events| - 1], repaired);
      Step(before, events[|events| - 1], repaired)
  }

  /** Everything handed to `Send` so far. */
  function Sent(events: seq<Event>): seq<char> {
    if events == [] then []
    else
      var e := events[|events| - 1];
      Sent(events[..|events| - 1]) + if e.Send? then e.data else []
  }

  ghost predicate AllPossible(events: seq<Event>, repaired: bool) {
    forall i | 0 <= i < |events| :: PossibleAt(events, i, repaired)
  }

  predicate PossibleAt(events: seq<Event>, i: nat, repaired: bool)
    requires i < |events|
  {
    Possible(Run(events[..i], repaired), events[i])
  }

  ghost predicate Inv(c: Conn) {
    && B.Valid(c.output)
    && C.InSync(c.channel) && c.channel.inEpoll && C.READ_EVENT in c.channel.listen
    && c.channel.kernel.Registered? && C.EPOLLIN in c.channel.kernel.mask
    && (Pending(c) != [] ==> C.WRITE_EVENT in c.channel.listen && C.EPOLLOUT in c.channel.kernel.mask)
  }

  /** The kept bytes join the back of the buffer, unless the unrepaired buffer would compact. */
  lemma KeepConserves(c: Conn, data: seq<char>, repaired: bool)
    requires B.Valid(c.output) && Inv(c) && c.status.Connected?
    ensures var d := Keep(c, data, repaired);
            && B.Valid(d.output) && d.wire == c.wire
            && d.status ==
               (if data != [] && !repaired && B.Compacts(c.output, |data|) then BufferOverrun else Connected)
            && (d.status.Connected? ==> Inv(d) && Pending(d) == Pending(c) + data)
  {
    C.KeepsInSync(c.channel, C.EnableWriting);
    B.AppendEnqueues(c.output, data, repaired);
  }

  /** The event's write fails: a send with nothing pending that the kernel refuses, or a write
      event with bytes pending that it answers with an error or by taking none. */
  predicate Failing(c: Conn, e: Event)
    requires B.Valid(c.output)
  {
    match e
    case Send(_, result) => Pending(c) == [] && result.Failed?
    case Writable(result) => Pending(c) != [] && (result.Failed? || result == Wrote(0))
  }

  /** The bytes of a send that reach the buffer. */
  function Left(c: Conn, data: seq<char>, result: WriteResult): seq<char>
    requires Possible(c, Send(data, result))
  {
    if c.output.write == c.output.read && result.Wrote? then data[result.n..] else data
  }

  /** The bytes of a send that reach the wire. */
  function Accepted(c: Conn, data: seq<char>, result: WriteResult): seq<char>
    requires B.Valid(c.output) && Possible(c, Send(data, result))
  {
    if Pending(c) == [] && result.Wrote? then data[..result.n] else []
  }

  lemma SendIsKeep(c: Conn, data: seq<char>, result: WriteResult, repaired: bool)
    requires B.Valid(c.output) && Possible(c, Send(data, result))
    requires !(c.output.write == c.output.read && result.Failed?)
    ensures var left := Left(c, data, result);
            && |left| <= |data|
            && DoSend(c, data, result, repaired) == Keep(c.(wire := c.wire + data[..|data| - |left|]), left, repaired)
            && data == data[..|data| - |left|] + left && (left == data || Pending(c) == [])
  {
    assert c.wire + data[..0] == c.wire;
  }

  /** A send either reports a write error, with nothing moved, or moves all its bytes to the wire
      and the buffer; the unrepaired buffer overruns exactly when the bytes it is to keep make it
      compact. */
  lemma SendConserves(c: Conn, data: seq<char>, result: WriteResult, repaired: bool)
    requires B.Valid(c.output) && Inv(c) && c.status.Connected? && Possible(c, Send(data, result))
    ensures var d := DoSend(c, data, result, repaired);
            && B.Valid(d.output)
            && d.status == (if Failing(c, Send(data, result)) then Closed
                            else if Left(c, data, result) != [] && !repaired
                                    && B.Compacts(c.output, |Left(c, data, result)|) then BufferOverrun
                            else Connected)
            && (d.status.Connected? ==> Inv(d) && d.wire + Pending(d) == c.wire + Pending(c) + data)
            && (d.status.Closed? ==> d.wire + Pending(d) == c.wire + Pending(c))
  {
    assert Pending(c) == [] <==> c.output.write == c.output.read;
    if !(Pending(c) == [] && result.Failed?) {
      SendIsKeep(c, data, result, repaired);
      var left := Left(c, data, result);
      var taken := data[..|data| - |left|];
      KeepConserves(c.(wire := c.wire + taken), left, repaired);
      assert left == data ==> taken == [];
      Reassociate(c.wire, taken, Pending(c), left);
    }
  }

  /** What the kernel accepts of a send, and nothing else, goes to the wire. */
  lemma SendReachesWire(c: Conn, data: seq<char>, result: WriteResult, repaired: bool)
    requires B.Valid(c.output) && Possible(c, Send(data, result))
    ensures DoSend(c, data, result, repaired).wire == c.wire + Accepted(c, data, result)
  {
    assert Pending(c) == [] <==> c.output.write == c.output.read;
    assert c.wire + [] == c.wire;
  }

  lemma Reassociate(wire: seq<char>, taken: seq<char>, pending: seq<char>, left: seq<char>)
    requires taken == [] || pending == []
    ensures (wire + taken) + (pending + left) == wire + pending + (taken + left)
  {
  }

  /** The bytes of a write event that reach the wire. */
  function Written(c: Conn, result: WriteResult): seq<char>
    requires B.Valid(c.output) && Possible(c, Writable(result))
  {
    if Pending(c) != [] && result.Wrote? then Pending(c)[..result.n] else []
  }

  /** A write event closes the connection exactly when there is something to write and the write
      fails; it moves what the kernel takes, and with nothing to write it ends the interest in
      write events. */
  lemma WriteConserves(c: Conn, result: WriteResult)
    requires B.Valid(c.output) && Inv(c) && c.status.Connected? && Possible(c, Writable(result))
    ensures var d := DoWrite(c, result);
            && B.Valid(d.output) && d.status == (if Failing(c, Writable(result)) then Closed else Connected)
            && d.wire == c.wire + Written(c, result) && d.wire + Pending(d) == c.wire + Pending(c)
            && (d.status.Connected? ==> Inv(d))
            && d.channel.listen == (if Pending(c) == [] then c.channel.listen - {C.WRITE_EVENT} else c.channel.listen)
  {
    C.KeepsInSync(c.channel, C.DisableWriting);
    assert Pending(c) == [] <==> c.output.write == c.output.read;
    assert c.wire + [] == c.wire;
    if result.Wrote? {
      B.RetreiveDequeues(c.output, result.n);
      assert Pending(c) == Pending(c)[..result.n] + Pending(c)[result.n..];
    }
  }

  /** A step aborts in epoll exactly when it changes the interest of a channel that is out of step
      with the kernel, or takes its last event away from one that the kernel does not know. */
  lemma EpollFailsIff(c: Conn, e: Event, repaired: bool)
    requires B.Valid(c.output) && c.status.Connected? && Possible(c, e)
    ensures Step(c, e, repaired).status.EpollAbort? <==>
            match e
            case Send(data, result) =>
              && !Failing(c, e) && Left(c, data, result) != [] && (repaired || !Compacting(c, e))
              && c.channel.inEpoll != c.channel.kernel.Registered?
            case Writable(_) =>
              && Pending(c) == []
              && if c.channel.listen <= {C.WRITE_EVENT} then c.channel.kernel.Unregistered?
                 else c.channel.inEpoll != c.channel.kernel.Registered?
  {
    assert Pending(c) == [] <==> c.output.write == c.output.read;
    match e
    case Send(data, result) =>
      if !Failing(c, e) {
        SendIsKeep(c, data, result, repaired);
        B.AppendEnqueues(c.output, Left(c, data, result), repaired);
      }
    case Writable(_) =>
      assert c.channel.listen - {C.WRITE_EVENT} == {} <==> c.channel.listen <= {C.WRITE_EVENT};
  }

  /** The event is a send whose unsent bytes make the output buffer compact. */
  predicate Compacting(c: Conn, e: Event)
    requires B.Valid(c.output) && Possible(c, e)
  {
    && e.Send? && !Failing(c, e)
    && Left(c, e.data, e.result) != [] && B.Compacts(c.output, |Left(c, e.data, e.result)|)
  }

  /** One event moves bytes from the sender to the wire and the buffer, losing none. */
  lemma StepConserves(c: Conn, e: Event, repaired: bool)
    requires B.Valid(c.output) && Inv(c) && c.status.Connected? && Possible(c, e)
    ensures var d := Step(c, e, repaired);
            && B.Valid(d.output) && d.status != EpollAbort
            && (d.status.BufferOverrun? <==> !repaired && Compacting(c, e))
            && (d.status.Closed? <==> Failing(c, e))
            && (d.status.Connected? ==>
                  Inv(d) && d.wire + Pending(d) == c.wire + Pending(c) + if e.Send? then e.data else [])
            && (d.status.Closed? ==> d.wire + Pending(d) == c.wire + Pending(c))
  {
    match e
    case Send(data, result) => SendConserves(c, data, result, repaired);
    case Writable(result) => WriteConserves(c, result);
  }

  ghost predicate EverCompacts(events: seq<Event>) {
    exists i :: 0 <= i < |events| && CompactsAt(events, i)
  }

  predicate CompactsAt(events: seq<Event>, i: nat)
    requires i < |events|
  {
    var c := Run(events[..i], false);
    c.status.Connected? && Possible(c, events[i]) && Compacting(c, events[i])
  }

  lemma BeforeLast(events: seq<Event>)
    requires events != []
    ensures EverCompacts(events) <==> EverCompacts(events[..|events| - 1]) || CompactsAt(events, |events| - 1)
  {
    var before := events[..|events| - 1];
    assert forall i | 0 <= i < |before| :: events[..i] == before[..i];
    assert forall i | 0 <= i < |before| :: CompactsAt(events, i) <==> CompactsAt(before, i);
  }

  ghost predicate EverFails(events: seq<Event>, repaired: bool) {
    exists i :: 0 <= i < |events| && FailsAt(events, i, repaired)
  }

  predicate FailsAt(events: seq<Event>, i: nat, repaired: bool)
    requires i < |events|
  {
    var c := Run(events[..i], repaired);
    c.status.Connected? && Failing(c, events[i])
  }

  lemma FailsBeforeLast(events: seq<Event>, repaired: bool)
    requires events != []
    ensures EverFails(events, repaired) <==>
            EverFails(events[..|events| - 1], repaired) || FailsAt(events, |events| - 1, repaired)
  {
    var before := events[..|events| - 1];
    assert forall i | 0 <= i < |before| :: events[..i] == before[..i];
    assert forall i | 0 <= i < |before| :: FailsAt(events, i, repaired) <==> FailsAt(before, i, repaired);
  }

  /** A run stays connected exactly until a write fails or the buffer overruns.  Until then, for any
      mix of sends, partial writes and full sockets, the bytes on the wire followed by the buffered
      ones are exactly everything sent, in order; buffered bytes always have a write event pending;
      and the kernel's interest is the channel's.  The repaired buffer never overruns; as written,
      it does exactly when some send makes it compact. */
  lemma {:induction false} SendsAreConserved(events: seq<Event>, repaired: bool)
    requires AllPossible(events, repaired)
    ensures var c := Run(events, repaired);
            && c.status != EpollAbort
            && (c.status.BufferOverrun? <==> !repaired && EverCompacts(events))
            && (c.status.Closed? <==> EverFails(events, repaired))
            && (c.status.Connected? ==> Inv(c) && c.wire + Pending(c) == Sent(events))
  {
    if events == [] {
    } else {
      var before, e := events[..|events| - 1], events[|events| - 1];
      forall i | 0 <= i < |before| ensures PossibleAt(before, i, repaired) {
        assert before[..i] == events[..i];
        assert PossibleAt(events, i, repaired);
      }
      SendsAreConserved(before, repaired);
      BeforeLast(events);
      FailsBeforeLast(events, repaired);
      var c := Run(before, repaired);
      assert PossibleAt(events, |before|, repaired);
      if c.status.Connected? { StepConserves(c, e, repaired); }
    }
  }

  /** The output buffer of a new connection after four bytes, none of which the kernel took. */
  lemma FourKept(data: seq<char>)
    requires |data| == 4
    ensures var c := Step(ESTABLISHED, Send(data, Again), false);
            c.status.Connected? && c.output.read == 8 && c.output.write == |c.output.bytes| == 12
  {
    C.KeepsInSync(ESTABLISHED.channel, C.EnableWriting);
  }

  lemma TwoTaken(c: Conn)
    requires c.status.Connected? && c.output.read == 8 && c.output.write == |c.output.bytes| == 12
    ensures var d := Step(c, Writable(Wrote(2)), false);
            d.status.Connected? && d.output.read == 10 && d.output.write == |d.output.bytes| == 12
  {}

  lemma OneMoreOverruns(c: Conn, data: seq<char>)
    requires c.status.Connected? && c.output.read == 10 && c.output.write == |c.output.bytes| == 12 && |data| == 1
    ensures Step(c, Send(data, Again), false).status.BufferOverrun?
  {
    assert B.Compacts(c.output, 1);
    B.AppendEnqueues(c.output, data, false);
  }

  lemma RunPush(events: seq<Event>, e: Event)
    ensures Run(events + [e], false) == Step(Run(events, false), e, false)
  {
    assert (events + [e])[..|events|] == events;
  }

  /** On a new connection: four bytes kept, two of them written and one more kept overrun the output
      buffer. */
  lemma ThreeEventsOverrun(four: seq<char>, one: seq<char>)
    requires |four| == 4 && |one| == 1
    ensures var events := [] + [Send(four, Again)] + [Writable(Wrote(2))] + [Send(one, Again)];
            AllPossible(events, false) && Run(events, false).status.BufferOverrun?
  {
    var (a, b, c) := (Send(four, Again), Writable(Wrote(2)), Send(one, Again));
    FourKept(four);
    RunPush([], a);
    PossiblePush([], a);
    TwoTaken(Run([] + [a], false));
    RunPush([] + [a], b);
    PossiblePush([] + [a], b);
    OneMoreOverruns(Run([] + [a] + [b], false), one);
    RunPush([] + [a] + [b], c);
    PossiblePush([] + [a] + [b], c);
  }

  lemma PossiblePush(events: seq<Event>, e: Event)
    requires AllPossible(events, false) && Possible(Run(events, false), e)
    ensures AllPossible(events + [e], false)
  {
    var all := events + [e];
    forall i | 0 <= i < |all| ensures PossibleAt(all, i, false) {
      assert all[..i] == events[..i];
      if i < |events| { assert PossibleAt(events, i, false); } else { assert events[..i] == events; }
    }
  }

  // ---------- The class ----------

  class Connection {
    const output: B.Buffer
    const channel: C.Channel
    var status: Status
    var wire: seq<char>

    ghost function Now(): Conn
      reads this, output, output.bytes, channel
    {
      Conn(status, output.Now(), channel.Now(), wire)
    }

    constructor ()
      ensures Now() == ESTABLISHED
    {
      output := new B.Buffer();
      channel := new C.Channel();
      status, wire := Connected, [];
      new;
      var abort := channel.UseET();
      abort := channel.EnableReading();
      C.EstablishedChannel();
    }

    /** `Send`, with the kernel's answer to its one `write`. */
    method Send(data: seq<char>, result: WriteResult)
      requires B.Valid(output.Now()) && status.Connected? && Possible(Now(), Event.Send(data, result))
      modifies this, output, output.bytes, channel
      ensures var d := DoSend(old(Now()), data, result, false);
              status == d.status && wire == d.wire && (status.Connected? ==> Now() == d)
    {
      var remaining, sent := |data|, 0;
      if output.writeIndex - output.readIndex == 0 {
        match result
        case Wrote(n) => sent, remaining := n, remaining - n;
        case Again => sent := 0;
        case Failed =>
          status := Closed;
          return;
      }
      wire := wire + data[..sent];
      if remaining > 0 {
        var overrun := output.Append(data[sent..]);
        if overrun {
          status := BufferOverrun;
          return;
        }
        var abort := channel.EnableWriting();
        if abort {
          status := EpollAbort;
        }
      }
    }

    /** `WriteNonBlocking`, with the kernel's answer to its one `write`. */
    method WriteNonBlocking(result: WriteResult)
      requires B.Valid(output.Now()) && status.Connected? && Possible(Now(), Writable(result))
      modifies this, output, channel
      ensures var d := DoWrite(old(Now()), result);
              status == d.status && wire == d.wire && (status.Connected? ==> Now() == d)
    {
      var bytesToWrite := output.writeIndex - output.readIndex;
      if bytesToWrite == 0 {
        var abort := channel.DisableWriting();
        if abort {
          status := EpollAbort;
        }
        return;
      }
      match result
      case Wrote(n) =>
        if n > 0 {
          wire := wire + output.bytes[output.readIndex..output.readIndex + n];
          var abort := output.Retreive(n);
        } else {
          status := Closed;
        }
      case Again =>
      case Failed => status := Closed;
    }
  }
}
