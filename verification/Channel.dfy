/** A channel's interest bits and the kernel's copy of them: `Channel` and the Linux `Poller`. */
module Channels {

  /** The bits of `listen_events_` and `ready_events_`; a mask is the set of its bits. */
  datatype Bit = READ_EVENT | WRITE_EVENT | ET_EVENT

  datatype EpollBit = EPOLLIN | EPOLLOUT | EPOLLET

  datatype Registration = Unregistered | Registered(mask: set<EpollBit>)

  /** `kernel` is the epoll entry of the channel's descriptor. */
  datatype View = View(listen: set<Bit>, inEpoll: bool, kernel: Registration)

  datatype Outcome = Done(view: View) | Abort

  datatype Op = EnableReading | EnableWriting | DisableWriting | UseET | RemoveInEpoll

  const FRESH := View({}, false, Unregistered)

  function Translate(listen: set<Bit>): set<EpollBit> {
    (if READ_EVENT in listen then {EPOLLIN} else {})
    + (if WRITE_EVENT in listen then {EPOLLOUT} else {})
    + (if ET_EVENT in listen then {EPOLLET} else {})
  }

  /** The kernel is asked for exactly what the channel listens for. */
  lemma TranslatesEach(listen: set<Bit>)
    ensures EPOLLIN in Translate(listen) <==> READ_EVENT in listen
    ensures EPOLLOUT in Translate(listen) <==> WRITE_EVENT in listen
    ensures EPOLLET in Translate(listen) <==> ET_EVENT in listen
  {}

  /** `Poller::UpdateChannel`: adding a registered or modifying an unregistered descriptor fails. */
  function Update(v: View): Outcome {
    if v.inEpoll == v.kernel.Registered? then Done(View(v.listen, true, Registered(Translate(v.listen)))) else Abort
  }

  /** `Poller::DeleteChannel`. */
  function Delete(v: View): Outcome {
    if v.kernel.Registered? then Done(v.(kernel := Unregistered)) else Abort
  }

  function Apply(v: View, op: Op): Outcome {
    match op
    case EnableReading => Update(v.(listen := v.listen + {READ_EVENT}))
    case EnableWriting => Update(v.(listen := v.listen + {WRITE_EVENT}))
    case UseET => Update(v.(listen := v.listen + {ET_EVENT}))
    case DisableWriting =>
      var u := v.(listen := v.listen - {WRITE_EVENT});
      if u.listen == {} then Delete(u) else Update(u)
    case RemoveInEpoll =>
      if !v.inEpoll then Abort
      else match Delete(v)
        case Abort => Abort
        case Done(u) => Done(View({}, false, u.kernel))
  }

  /** The flag agrees with the kernel and the kernel has exactly the channel's interest. */
  predicate InSync(v: View) {
    && (v.inEpoll <==> v.kernel.Registered?)
    && (v.kernel.Registered? ==> v.kernel.mask == Translate(v.listen))
  }

  /** Disabling writing while nothing else is enabled deletes the kernel's entry but not the flag. */
  predicate Empties(v: View, op: Op) {
    op.DisableWriting? && v.listen - {WRITE_EVENT} == {}
  }

  /** An operation succeeds and keeps channel and kernel in step exactly when it is neither the
      disabling of the last event nor the removal of an unregistered channel. */
  lemma KeepsInSync(v: View, op: Op)
    requires InSync(v)
    ensures (Apply(v, op).Done? && InSync(Apply(v, op).view))
            <==> !(Empties(v, op) || (op.RemoveInEpoll? && !v.inEpoll))
    ensures READ_EVENT in v.listen ==> !Empties(v, op)
    ensures Apply(v, op).Done? && READ_EVENT in v.listen && !op.RemoveInEpoll?
            ==> READ_EVENT in Apply(v, op).view.listen
  {
    assert READ_EVENT in v.listen ==> READ_EVENT in v.listen - {WRITE_EVENT};
  }

  /** In any state an operation aborts exactly when epoll is asked to add what it has, or to change or
      delete what it has not, or the removed channel is not registered. */
  lemma AbortsIff(v: View, op: Op)
    ensures Apply(v, op).Abort? <==>
            match op
            case RemoveInEpoll => !v.inEpoll || v.kernel.Unregistered?
            case DisableWriting =>
              if v.listen <= {WRITE_EVENT} then v.kernel.Unregistered? else v.inEpoll != v.kernel.Registered?
            case _ => v.inEpoll != v.kernel.Registered?
  {
    assert v.listen - {WRITE_EVENT} == {} <==> v.listen <= {WRITE_EVENT};
  }

  /** An operation that succeeds changes the listened events as its name says; a removal leaves
      nothing, and any other that leaves an event leaves it registered. */
  lemma ListensAsAsked(v: View, op: Op, b: Bit)
    requires Apply(v, op).Done?
    ensures var u := Apply(v, op).view;
            && (b in u.listen <==>
                  match op
                  case EnableReading => b == READ_EVENT || b in v.listen
                  case EnableWriting => b == WRITE_EVENT || b in v.listen
                  case UseET => b == ET_EVENT || b in v.listen
                  case DisableWriting => b != WRITE_EVENT && b in v.listen
                  case RemoveInEpoll => false)
            && (op.RemoveInEpoll? ==> u == FRESH)
            && (!op.RemoveInEpoll? && b in u.listen ==> u.inEpoll && u.kernel == Registered(Translate(u.listen)))
  {
    if op.DisableWriting? { assert b in v.listen && b != WRITE_EVENT ==> b in v.listen - {WRITE_EVENT}; }
  }

  /** After the emptying every operation aborts, re-enabling, disabling again and removal alike: the
      flag still says that the kernel has an entry. */
  lemma EmptiedChannelIsStuck(v: View, op: Op)
    requires InSync(v) && v.inEpoll && Empties(v, DisableWriting)
    ensures Apply(v, DisableWriting).Done? && Apply(Apply(v, DisableWriting).view, op).Abort?
  {
    var u := Apply(v, DisableWriting).view;
    assert u.listen == {} && u.listen - {WRITE_EVENT} == {};
  }

  /** A new channel that is enabled for writing, then disabled, aborts on whatever comes next. */
  lemma WriteOnlyChannelIsStuck(op: Op)
    ensures Apply(FRESH, EnableWriting).Done?
    ensures Apply(Apply(FRESH, EnableWriting).view, DisableWriting).Done?
    ensures Apply(Apply(Apply(FRESH, EnableWriting).view, DisableWriting).view, op).Abort?
  {
    EmptiedChannelIsStuck(Apply(FRESH, EnableWriting).view, op);
  }

  /** Connecting a channel: edge-triggered first, then listening for reads. */
  lemma EstablishedChannel()
    ensures Apply(FRESH, UseET).Done?
    ensures Apply(Apply(FRESH, UseET).view, EnableReading) ==
            Done(View({ET_EVENT, READ_EVENT}, true, Registered({EPOLLET, EPOLLIN})))
  {
    assert {} + {ET_EVENT} == {ET_EVENT} && {ET_EVENT} + {READ_EVENT} == {ET_EVENT, READ_EVENT};
    assert Translate({ET_EVENT, READ_EVENT}) == {EPOLLET, EPOLLIN};
  }

  class Channel {
    var listenEvents: set<Bit>
    var readyEvents: set<Bit>
    var inEpoll: bool
    var kernel: Registration

    function Now(): View
      reads this
    {
      View(listenEvents, inEpoll, kernel)
    }

    constructor ()
      ensures Now() == FRESH && readyEvents == {}
    {
      listenEvents, readyEvents, inEpoll, kernel := {}, {}, false, Unregistered;
    }

    method UpdateChannel() returns (abort: bool)
      modifies this`kernel, this`inEpoll
      ensures abort <==> Update(old(Now())).Abort?
      ensures Now() == if abort then old(Now()) else Update(old(Now())).view
    {
      var events := {};
      if READ_EVENT in listenEvents { events := events + {EPOLLIN}; }
      if WRITE_EVENT in listenEvents { events := events + {EPOLLOUT}; }
      if ET_EVENT in listenEvents { events := events + {EPOLLET}; }
      assert events == Translate(listenEvents);
      if !inEpoll {
        if kernel.Registered? { return true; }
        kernel := Registered(events);
        inEpoll := true;
      } else {
        if kernel.Unregistered? { return true; }
        kernel := Registered(events);
      }
      return false;
    }

    method DeleteChannel() returns (abort: bool)
      modifies this`kernel
      ensures abort <==> Delete(old(Now())).Abort?
      ensures Now() == if abort then old(Now()) else Delete(old(Now())).view
    {
      if kernel.Unregistered? { return true; }
      kernel := Unregistered;
      return false;
    }

    method EnableReading() returns (abort: bool)
      modifies this
      ensures abort <==> Apply(old(Now()), Op.EnableReading).Abort?
      ensures !abort ==> Now() == Apply(old(Now()), Op.EnableReading).view
    {
      listenEvents := listenEvents + {READ_EVENT};
      abort := UpdateChannel();
    }

    method EnableWriting() returns (abort: bool)
      modifies this
      ensures abort <==> Apply(old(Now()), Op.EnableWriting).Abort?
      ensures !abort ==> Now() == Apply(old(Now()), Op.EnableWriting).view
    {
      listenEvents := listenEvents + {WRITE_EVENT};
      abort := UpdateChannel();
    }

    method DisableWriting() returns (abort: bool)
      modifies this
      ensures abort <==> Apply(old(Now()), Op.DisableWriting).Abort?
      ensures !abort ==> Now() == Apply(old(Now()), Op.DisableWriting).view
    {
      listenEvents := listenEvents - {WRITE_EVENT};
      if listenEvents == {} {
        abort := DeleteChannel();
      } else {
        abort := UpdateChannel();
      }
    }

    method UseET() returns (abort: bool)
      modifies this
      ensures abort <==> Apply(old(Now()), Op.UseET).Abort?
      ensures !abort ==> Now() == Apply(old(Now()), Op.UseET).view
    {
      listenEvents := listenEvents + {ET_EVENT};
      abort := UpdateChannel();
    }

    method RemoveInEpoll() returns (abort: bool)
      modifies this
      ensures abort <==> Apply(old(Now()), Op.RemoveInEpoll).Abort?
      ensures !abort ==> Now() == Apply(old(Now()), Op.RemoveInEpoll).view && readyEvents == {}
    {
      if !inEpoll { return true; }
      abort := DeleteChannel();
      if !abort {
        listenEvents, readyEvents, inEpoll := {}, {}, false;
      }
    }

    /** `Poll` fills the ready bits with three calls of `SetReadyEvents`: read and write, as the
        kernel reported them, and no stale bit survives. */
    method ReportReady(events: set<EpollBit>)
      modifies this`readyEvents
      ensures readyEvents <= {READ_EVENT, WRITE_EVENT}
      ensures READ_EVENT in readyEvents <==> EPOLLIN in events
      ensures WRITE_EVENT in readyEvents <==> EPOLLOUT in events
    {
      readyEvents := {};
      if EPOLLIN in events { readyEvents := readyEvents + {READ_EVENT}; }
      if EPOLLOUT in events { readyEvents := readyEvents + {WRITE_EVENT}; }
    }
  }
}
