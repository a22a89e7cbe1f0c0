/** The buffers, the log file and the two sides of the asynchronous log as objects, each method
    against its function in `Logging`. */
module AsyncLoggings {
  import opened Logging
  import opened Options

  class FixedBuffer {
    const data: array<char>
    var cur: nat

    ghost predicate Valid()
      reads this
    {
      data.Length == SIZE && cur <= SIZE
    }

    ghost function Contents(): Text
      reads this, data
      requires Valid()
    {
      data[..cur]
    }

    constructor ()
      ensures Valid() && fresh(data) && Contents() == ""
    {
      data := new char[SIZE](_ => '\0');
      cur := 0;
    }

    method GetSpace() returns (space: nat)
      requires Valid()
      ensures space == SIZE - |Contents()|
    {
      space := SIZE - cur;
    }

    /** Aborts, `ok` being false, unless the line leaves a byte of space. */
    method Append(line: Text) returns (ok: bool)
      requires Valid()
      modifies this, data
      ensures Valid()
      ensures match Filled(Buf(this, old(Contents())), line)
              case Some(b) => ok && Contents() == b.text
              case None => !ok && Contents() == old(Contents())
    {
      var space := GetSpace();
      ok := space > |line|;
      if ok {
        ghost var before := data[..cur];
        forall i | 0 <= i < |line| { data[cur + i] := line[i]; }
        cur := cur + |line|;
        assert data[..cur] == before + line;
      }
    }

    method Clear()
      requires Valid()
      modifies this, data
      ensures Valid() && Contents() == ""
    {
      forall i | 0 <= i < data.Length { data[i] := '\0'; }
      cur := 0;
    }
  }

  ghost function Memory(bufs: set<FixedBuffer>): set<array<char>> { set b | b in bufs :: b.data }

  ghost function Members(list: seq<FixedBuffer>): set<FixedBuffer> { set b | b in list }

  ghost predicate AllValid(bufs: set<FixedBuffer>)
    reads bufs
  {
    forall b | b in bufs :: b.Valid()
  }

  /** Different buffers share no memory. */
  ghost predicate Apart(bufs: set<FixedBuffer>) { forall a, b | a in bufs && b in bufs && a != b :: a.data != b.data }

  ghost predicate Distinct(list: seq<FixedBuffer>) { forall i, j | 0 <= i < j < |list| :: list[i] != list[j] }

  ghost function AsBuf(b: FixedBuffer): Buf<FixedBuffer>
    requires b.Valid()
    reads b, b.data
  {
    Buf(b, b.Contents())
  }

  ghost function AsBufs(list: seq<FixedBuffer>): (r: seq<Buf<FixedBuffer>>)
    requires AllValid(Members(list))
    reads list, set b | b in list :: b.data
    ensures |r| == |list|
  {
    if list == [] then []
    else
      var (init, last) := (list[..|list| - 1], list[|list| - 1]);
      assert Members(list) == Members(init) + {last};
      assert Memory(Members(list)) == Memory(Members(init)) + {last.data};
      AsBufs(init) + [AsBuf(last)]
  }

  lemma AsBufsPush(list: seq<FixedBuffer>, b: FixedBuffer)
    requires AllValid(Members(list)) && b.Valid()
    ensures Members(list + [b]) == Members(list) + {b} && AsBufs(list + [b]) == AsBufs(list) + [AsBuf(b)]
  {
    assert (list + [b])[..|list|] == list;
  }

  /** Two valid spares that share nothing with each other or with the front end. */
  ghost predicate Spares(front: AsyncLogging, a: FixedBuffer, b: FixedBuffer)
    reads front, a, b
  {
    a.Valid() && b.Valid() && a != b && a !in front.Objects() && b !in front.Objects()
        && Apart(front.Objects() + {a, b})
  }

  /** Every buffer but the front end's, between the exchange and the recycling. */
  ghost function Outside(active: seq<FixedBuffer>, spare: Option<FixedBuffer>): set<FixedBuffer> {
    Members(active) + if spare.Some? then {spare.value} else {}
  }

  /** The back end's buffers are different and share nothing with the front end's. */
  ghost predicate Separate(front: AsyncLogging, active: seq<FixedBuffer>, spare: Option<FixedBuffer>)
    reads front
  {
    && active != [] && Distinct(active) && (spare.Some? ==> spare.value !in active)
    && Outside(active, spare) !! front.Objects() && Apart(front.Objects() + Outside(active, spare))
  }

  ghost predicate Taking(front: AsyncLogging, active: seq<FixedBuffer>, spare: Option<FixedBuffer>)
    reads front, Outside(active, spare)
  {
    Separate(front, active, spare) && AllValid(Outside(active, spare))
  }

  class AsyncLogging {
    var current: FixedBuffer
    var next: Option<FixedBuffer>
    var buffers: seq<FixedBuffer>

    ghost function Objects(): set<FixedBuffer>
      reads this
    {
      Members(buffers) + {current} + if next.None? then {} else {next.value}
    }

    ghost predicate Valid()
      reads this, Objects()
    {
      && AllValid(Objects()) && Apart(Objects()) && Distinct(buffers)
      && current !in buffers && (next.Some? ==> next.value !in buffers && next.value != current)
    }

    ghost function Contents(): Front<FixedBuffer>
      requires Valid()
      reads this, Objects(), Memory(Objects())
    {
      assert Memory(Members(buffers)) <= Memory(Objects()) && current.data in Memory(Objects());
      assert next.Some? ==> next.value in Objects() && next.value.data in Memory(Objects());
      Front(AsBuf(current), if next.None? then None else Some(AsBuf(next.value)), AsBufs(buffers))
    }

    constructor ()
      ensures Valid() && fresh(Objects()) && fresh(Memory(Objects()))
      ensures var f := Contents();
              f.buffers == [] && f.current.text == "" && f.next.Some? && f.next.value.text == ""
    {
      current := new FixedBuffer();
      var spare := new FixedBuffer();
      next := Some(spare);
      buffers := [];
    }

    /** Hands the current buffer to the back end; `b` is the current buffer from now on. */
    method TakeOver(b: FixedBuffer)
      requires Valid() && b.Valid()
      requires b !in buffers && b != current && Apart(Objects() + {b})
      modifies this
      ensures Valid() && current == b && next.None? && Objects() <= old(Objects()) + {b}
      ensures Contents() == Front(old(AsBuf(b)), None, old(Contents().buffers + [Contents().current]))
    {
      AsBufsPush(buffers, current);
      ghost var moved := AsBufs(buffers + [current]);
      buffers := buffers + [current];
      current := b;
      next := None;
      assert AsBufs(buffers) == moved;
      assert Objects() <= old(Objects()) + {b};
    }

    /** The next buffer is a spare or, if there is none, a new one. */
    method Rotate() returns (ghost made: FixedBuffer)
      requires Valid()
      modifies this
      ensures Valid()
      ensures (fresh(current) && fresh(current.data)) || current in old(Objects())
      ensures Objects() <= old(Objects()) + {current}
      ensures Contents() == (var f := old(Contents());
                Front(if f.next.Some? then f.next.value else Buf(made, ""), None, f.buffers + [f.current]))
    {
      if next.Some? {
        made := current;
        TakeOver(next.value);
      } else {
        var b := new FixedBuffer();
        made := b;
        TakeOver(b);
      }
    }

    /** The line goes to the current buffer and no other changes. */
    method AppendHere(line: Text) returns (ok: bool)
      requires Valid()
      modifies current, current.data
      ensures Valid()
      ensures match Filled(old(Contents()).current, line)
              case Some(b) => ok && Contents() == old(Contents()).(current := b)
              case None => !ok
    {
      assert current !in Members(buffers) && current.data !in Memory(Members(buffers));
      ghost var others := AsBufs(buffers);
      ok := current.Append(line);
      assert AsBufs(buffers) == others;
    }

    method Append(line: Text) returns (ok: bool, ghost made: FixedBuffer)
      requires Valid()
      modifies this, Objects(), Memory(Objects())
      ensures Valid()
      ensures match Appended(old(Contents()), line, made)
              case Some(g) => ok && Contents() == g
              case None => !ok
      ensures forall b | b in Objects() :: b in old(Objects()) || (fresh(b) && fresh(b.data))
    {
      made := current;
      var space := current.GetSpace();
      if space < |line| {
        made := Rotate();
      }
      ok := AppendHere(line);
    }

    /** Takes the full buffers and the current one; `b` is the current buffer from now on. */
    method Install(b: FixedBuffer, spare: FixedBuffer) returns (active: seq<FixedBuffer>)
      requires Valid() && Spares(this, b, spare)
      modifies this`current, this`buffers
      ensures Valid() && current == b && buffers == [] && active == old(buffers) + [old(current)]
      ensures Contents() == old(Contents()).(current := old(AsBuf(b)), buffers := [])
      ensures spare !in Objects() && Apart(Objects() + {spare})
      ensures AllValid(Members(active)) && AsBufs(active) == Taken(old(Contents()))
    {
      AsBufsPush(buffers, current);
      active := buffers + [current];
      current := b;
      buffers := [];
      assert Objects() <= old(Objects()) + {b};
    }

    /** Makes `b` the next buffer if there is none, and hands it back otherwise. */
    method Offer(b: FixedBuffer) returns (spare: Option<FixedBuffer>)
      requires Valid() && b.Valid() && b !in Objects() && Apart(Objects() + {b})
      modifies this`next
      ensures Valid() && next == (if old(next).None? then Some(b) else old(next))
      ensures spare == if old(next).None? then None else Some(b)
      ensures Contents() == old(Contents()).(
                next := if old(next).None? then Some(old(AsBuf(b))) else old(Contents()).next)
    {
      spare := Some(b);
      if next.None? {
        next := spare;
        spare := None;
        assert Objects() == old(Objects()) + {b};
      }
    }

    /** The back end's critical section: it takes every buffer and leaves its spares. */
    method Exchange(newCurrent: FixedBuffer, newNext: FixedBuffer)
      returns (active: seq<FixedBuffer>, spare: Option<FixedBuffer>)
      requires Valid() && Spares(this, newCurrent, newNext)
      modifies this
      ensures Valid() && Contents() == old(Exchanged(Contents(), AsBuf(newCurrent), AsBuf(newNext)))
      ensures AllValid(Members(active)) && AsBufs(active) == Taken(old(Contents()))
      ensures spare == if old(next).None? then None else Some(newNext)
      ensures active == old(buffers) + [old(current)] && buffers == [] && current == newCurrent
      ensures next == if old(next).None? then Some(newNext) else old(next)
    {
      active := Install(newCurrent, newNext);
      spare := Offer(newNext);
    }
  }

  class LogFile {
    /** All that this file and those before it were given. */
    ghost var file: Text
    var writtenBytes: nat

    constructor (ghost file: Text)
      ensures this.file == file && writtenBytes == 0
    {
      this.file := file;
      writtenBytes := 0;
    }

    /** `fwrite` may take less than it is offered, but something; `taken(i)` is its `i`-th answer. */
    method Write(message: Text, taken: nat -> nat)
      requires forall i :: taken(i) > 0
      modifies this
      ensures file == old(file) + message && writtenBytes == old(writtenBytes) + |message|
    {
      var pos, i := 0, 0;
      while pos < |message|
        invariant pos <= |message| && file == old(file) + message[..pos] && writtenBytes == old(writtenBytes)
      {
        var n := if taken(i) < |message| - pos then taken(i) else |message| - pos;
        file := file + message[pos..pos + n];
        assert message[..pos + n] == message[..pos] + message[pos..pos + n];
        pos, i := pos + n, i + 1;
      }
      assert message[..pos] == message;
      if |message| != 0 {
        writtenBytes := writtenBytes + |message|;
      }
    }
  }

  /** The counter of the last log file, as `Logging` moves it from one buffer to the next. */
  function WrittenAfter<T>(written: nat, bufs: seq<Buf<T>>): nat {
    if bufs == [] then written
    else
      var before := WrittenAfter(written, bufs[..|bufs| - 1]);
      (if before >= FILEMAXIMUMSIZE then 0 else before) + |bufs[|bufs| - 1].text|
  }

  lemma {:induction false} AsBufsAt(list: seq<FixedBuffer>, k: nat)
    requires AllValid(Members(list)) && k < |list|
    ensures list[k] in Members(list) && AsBufs(list)[k] == AsBuf(list[k])
    decreases |list|
  {
    if k < |list| - 1 { AsBufsAt(list[..|list| - 1], k); }
  }

  /** A buffer goes to a new file once the current one has reached its bound. */
  method WriteBuffer(first: LogFile, message: Text, taken: nat -> nat) returns (log: LogFile)
    requires forall i :: taken(i) > 0
    modifies first
    ensures (log == first || fresh(log)) && log.file == old(first.file) + message
    ensures log.writtenBytes ==
            |message| + if old(first.writtenBytes) >= FILEMAXIMUMSIZE then 0 else old(first.writtenBytes)
  {
    log := first;
    if log.writtenBytes >= FILEMAXIMUMSIZE {
      log := new LogFile(log.file);
    }
    log.Write(message, taken);
  }

  lemma WrittenPush<T>(written: nat, bufs: seq<Buf<T>>, k: nat)
    requires k < |bufs|
    ensures Texts(bufs[..k + 1]) == Texts(bufs[..k]) + bufs[k].text
    ensures WrittenAfter(written, bufs[..k + 1]) ==
            |bufs[k].text|
            + if WrittenAfter(written, bufs[..k]) >= FILEMAXIMUMSIZE then 0 else WrittenAfter(written, bufs[..k])
  {
    assert bufs[..k + 1][..k] == bufs[..k];
  }

  /** Writing one of the buffers changes none of them. */
  method WriteAt(first: LogFile, active: seq<FixedBuffer>, k: nat, taken: nat -> nat) returns (log: LogFile)
    requires AllValid(Members(active)) && k < |active| && forall i :: taken(i) > 0
    modifies first
    ensures log == first || fresh(log)
    ensures AllValid(Members(active)) && AsBufs(active) == old(AsBufs(active))
    ensures log.file == old(first.file) + AsBufs(active)[k].text
    ensures log.writtenBytes == |AsBufs(active)[k].text|
            + if old(first.writtenBytes) >= FILEMAXIMUMSIZE then 0 else old(first.writtenBytes)
  {
    AsBufsAt(active, k);
    log := WriteBuffer(first, active[k].data[..active[k].cur], taken);
  }

  /** The back end's loop over the buffers it took. */
  method WriteActive(first: LogFile, active: seq<FixedBuffer>, taken: nat -> nat) returns (log: LogFile)
    requires AllValid(Members(active)) && forall i :: taken(i) > 0
    modifies first
    ensures AllValid(Members(active)) && AsBufs(active) == old(AsBufs(active))
    ensures log.file == old(first.file) + Texts(old(AsBufs(active)))
    ensures log.writtenBytes == WrittenAfter(old(first.writtenBytes), old(AsBufs(active)))
  {
    log := first;
    ghost var bufs := AsBufs(active);
    for k := 0 to |active|
      invariant log == first || fresh(log)
      invariant AllValid(Members(active)) && AsBufs(active) == bufs
      invariant log.file == old(first.file) + Texts(bufs[..k])
      invariant log.writtenBytes == WrittenAfter(old(first.writtenBytes), bufs[..k])
    {
      WrittenPush(old(first.writtenBytes), bufs, k);
      log := WriteAt(log, active, k, taken);
    }
    assert bufs[..|active|] == bufs;
  }

  /** The end of the back end's round: two of the buffers written become its spares, or one and a
      new one; the rest are dropped. */
  method Recycle(active: seq<FixedBuffer>, spare: Option<FixedBuffer>)
    returns (newCurrent: FixedBuffer, newNext: FixedBuffer, ghost made: FixedBuffer)
    requires active != [] && AllValid(Members(active)) && Apart(Members(active))
    requires |active| > 1 ==> active[0] != active[1]
    requires spare.Some? ==> spare.value !in active && spare.value.Valid() && Apart(Members(active) + {spare.value})
    modifies Members(active), Memory(Members(active))
    ensures newCurrent.Valid() && newNext.Valid()
    ensures Ready(AsBuf(newCurrent), AsBuf(newNext)) ==
            Recycled(old(AsBufs(active)), if spare.None? then None else Some(old(AsBuf(spare.value))), made)
    ensures newCurrent in active && newNext != newCurrent
    ensures if spare.Some? then newNext == spare.value else newNext in active || (fresh(newNext) && fresh(newNext.data))
  {
    ghost var bufs := AsBufs(active);
    AsBufsAt(active, 0);
    if |active| > 1 { AsBufsAt(active, 1); }
    var kept := active;
    if |kept| > 2 {
      kept := kept[..2];
    }
    newCurrent := kept[|kept| - 1];
    newCurrent.Clear();
    kept := kept[..|kept| - 1];
    made := newCurrent;
    if spare.Some? {
      newNext := spare.value;
    } else if kept != [] {
      newNext := kept[|kept| - 1];
      newNext.Clear();
    } else {
      newNext := new FixedBuffer();
      made := newNext;
    }
  }

  lemma MemoryApart(a: set<FixedBuffer>, b: set<FixedBuffer>)
    requires Apart(a + b) && a !! b
    ensures Memory(a) !! Memory(b)
  {}

  lemma ExchangeSeparates(front: AsyncLogging, buffers: seq<FixedBuffer>, current: FixedBuffer,
                          next: Option<FixedBuffer>, newNext: FixedBuffer)
    requires Distinct(buffers) && current !in buffers && newNext !in buffers && newNext != current
    requires next.Some? ==> next.value !in buffers && next.value != current && next.value != newNext
    requires front.buffers == [] && front.next == (if next.None? then Some(newNext) else next)
    requires front.current !in buffers && front.current != current && front.current != newNext
    requires Apart(Members(buffers) + {current, front.current, newNext} + if next.Some? then {next.value} else {})
    ensures Separate(front, buffers + [current], if next.None? then None else Some(newNext))
  {
    AsMembers(buffers, current);
  }

  lemma AsMembers(buffers: seq<FixedBuffer>, current: FixedBuffer)
    ensures Members(buffers + [current]) == Members(buffers) + {current}
  {}

  lemma ExchangeReady(front: AsyncLogging, newCurrent: FixedBuffer, newNext: FixedBuffer)
    requires front.Valid() && Spares(front, newCurrent, newNext)
    ensures var (buffers, current, next) := (front.buffers, front.current, front.next);
      && Distinct(buffers) && current !in buffers && newNext !in buffers && newNext != current
      && (next.Some? ==> next.value !in buffers && next.value != current && next.value != newNext)
      && newCurrent !in buffers && newCurrent != current && newCurrent != newNext
      && Apart(Members(buffers) + {current, newCurrent, newNext} + if next.Some? then {next.value} else {})
  {}

  /** The exchange, and what the back end then holds. */
  method TakeAll(front: AsyncLogging, newCurrent: FixedBuffer, newNext: FixedBuffer)
    returns (active: seq<FixedBuffer>, spare: Option<FixedBuffer>)
    requires front.Valid() && Spares(front, newCurrent, newNext)
    modifies front
    ensures front.Valid() && front.Contents() == old(Exchanged(front.Contents(), AsBuf(newCurrent), AsBuf(newNext)))
    ensures Taking(front, active, spare) && Members(active) <= old(front.Objects())
    ensures AsBufs(active) == Taken(old(front.Contents()))
    ensures spare == if old(front.next).None? then None else Some(newNext)
  {
    ghost var (buffers, current, next) := (front.buffers, front.current, front.next);
    ExchangeReady(front, newCurrent, newNext);
    AsMembers(buffers, current);
    active, spare := front.Exchange(newCurrent, newNext);
    ExchangeSeparates(front, buffers, current, next, newNext);
  }

  /** Writing changes no buffer of the front end. */
  method WriteBesideFront(front: AsyncLogging, active: seq<FixedBuffer>, first: LogFile, taken: nat -> nat)
    returns (log: LogFile)
    requires front.Valid() && AllValid(Members(active)) && forall i :: taken(i) > 0
    modifies first
    ensures front.Valid() && front.Contents() == old(front.Contents())
    ensures AllValid(Members(active)) && AsBufs(active) == old(AsBufs(active))
    ensures log.file == old(first.file) + Texts(old(AsBufs(active)))
    ensures log.writtenBytes == WrittenAfter(old(first.writtenBytes), old(AsBufs(active)))
  {
    log := WriteActive(first, active, taken);
  }

  /** Writing changes no buffer at all. */
  method WriteAside(front: AsyncLogging, active: seq<FixedBuffer>, spare: Option<FixedBuffer>,
                    first: LogFile, taken: nat -> nat)
    returns (log: LogFile)
    requires front.Valid() && Taking(front, active, spare) && forall i :: taken(i) > 0
    modifies first
    ensures front.Valid() && front.Contents() == old(front.Contents())
    ensures Taking(front, active, spare) && AsBufs(active) == old(AsBufs(active))
    ensures spare.Some? ==> AsBuf(spare.value) == old(AsBuf(spare.value))
    ensures log.file == old(first.file) + Texts(old(AsBufs(active)))
    ensures log.writtenBytes == WrittenAfter(old(first.writtenBytes), old(AsBufs(active)))
  {
    log := WriteBesideFront(front, active, first, taken);
  }

  /** An append leaves the back end's spares apart and as they are, so that rounds and appends may
      alternate. */
  method AppendAside(front: AsyncLogging, a: FixedBuffer, b: FixedBuffer, line: Text)
    returns (ok: bool, ghost made: FixedBuffer)
    requires front.Valid() && Spares(front, a, b)
    modifies front, front.Objects(), Memory(front.Objects())
    ensures front.Valid()
    ensures match Appended(old(front.Contents()), line, made)
            case Some(g) => ok && front.Contents() == g
            case None => !ok
    ensures Spares(front, a, b) && AsBuf(a) == old(AsBuf(a)) && AsBuf(b) == old(AsBuf(b))
  {
    MemoryApart(front.Objects(), {a, b});
    ok, made := front.Append(line);
  }

  lemma SparesFrom(front: AsyncLogging, active: seq<FixedBuffer>, spare: Option<FixedBuffer>,
                   a: FixedBuffer, b: FixedBuffer)
    requires Separate(front, active, spare) && a.Valid() && b.Valid() && a in active && a != b
    requires b in active || spare == Some(b)
             || (b !in front.Objects() && b.data !in Memory(front.Objects() + Members(active)))
    ensures Spares(front, a, b)
  {
    assert a.data in Memory(front.Objects() + Members(active));
    assert forall x | x in front.Objects() :: x.data in Memory(front.Objects() + Members(active));
  }

  /** Recycling changes nothing the front end holds. */
  method RecycleAside(front: AsyncLogging, active: seq<FixedBuffer>, spare: Option<FixedBuffer>)
    returns (nextCurrent: FixedBuffer, nextNext: FixedBuffer, ghost made: FixedBuffer)
    requires front.Valid() && Taking(front, active, spare)
    modifies Members(active), Memory(Members(active))
    ensures front.Valid() && front.Contents() == old(front.Contents())
    ensures nextCurrent.Valid() && nextNext.Valid()
    ensures Ready(AsBuf(nextCurrent), AsBuf(nextNext)) ==
            Recycled(old(AsBufs(active)), if spare.None? then None else Some(old(AsBuf(spare.value))), made)
    ensures nextCurrent in active && nextNext != nextCurrent
    ensures if spare.Some? then nextNext == spare.value
            else nextNext in active || (fresh(nextNext) && fresh(nextNext.data))
  {
    ghost var (objects, list) := (front.Objects(), front.buffers);
    MemoryApart(objects, Members(active));
    RecycleReady(front, active, spare);
    nextCurrent, nextNext, made := Recycle(active, spare);
  }

  lemma RecycleReady(front: AsyncLogging, active: seq<FixedBuffer>, spare: Option<FixedBuffer>)
    requires Taking(front, active, spare)
    ensures active != [] && AllValid(Members(active)) && Apart(Members(active))
            && (|active| > 1 ==> active[0] != active[1])
    ensures spare.Some? ==> spare.value !in active && spare.value.Valid() && Apart(Members(active) + {spare.value})
    ensures Members(active) !! front.Objects() && Apart(front.Objects() + Members(active))
  {}

  method RecycleApart(front: AsyncLogging, active: seq<FixedBuffer>, spare: Option<FixedBuffer>)
    returns (nextCurrent: FixedBuffer, nextNext: FixedBuffer, ghost made: FixedBuffer)
    requires front.Valid() && Taking(front, active, spare)
    modifies Members(active), Memory(Members(active))
    ensures front.Valid() && front.Contents() == old(front.Contents()) && Spares(front, nextCurrent, nextNext)
    ensures Ready(AsBuf(nextCurrent), AsBuf(nextNext)) ==
            Recycled(old(AsBufs(active)), if spare.None? then None else Some(old(AsBuf(spare.value))), made)
  {
    nextCurrent, nextNext, made := RecycleAside(front, active, spare);
    SparesFrom(front, active, spare, nextCurrent, nextNext);
  }

  /** One round of the back end: it takes what the front end holds, writes it and keeps two empty
      buffers that nobody else holds, ready for the next round. */
  method Round(front: AsyncLogging, newCurrent: FixedBuffer, newNext: FixedBuffer, first: LogFile, taken: nat -> nat)
    returns (nextCurrent: FixedBuffer, nextNext: FixedBuffer, log: LogFile, ghost made: FixedBuffer)
    requires front.Valid() && Spares(front, newCurrent, newNext) && forall i :: taken(i) > 0
    modifies front, first, front.Objects(), Memory(front.Objects())
    ensures front.Valid() && front.Contents() == old(Exchanged(front.Contents(), AsBuf(newCurrent), AsBuf(newNext)))
    ensures log.file == old(first.file) + Texts(old(Taken(front.Contents())))
    ensures log.writtenBytes == WrittenAfter(old(first.writtenBytes), old(Taken(front.Contents())))
    ensures Spares(front, nextCurrent, nextNext)
    ensures Ready(AsBuf(nextCurrent), AsBuf(nextNext)) ==
            Recycled(old(Taken(front.Contents())),
                     if old(front.next).None? then None else Some(old(AsBuf(newNext))), made)
  {
    var active, spare;
    active, spare := TakeAll(front, newCurrent, newNext);
    log := WriteAside(front, active, spare, first, taken);
    nextCurrent, nextNext, made := RecycleApart(front, active, spare);
  }
}
