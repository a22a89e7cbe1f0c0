/** The network byte buffer: `Buffer`, two indices over a growing array.

    `EnsureWritableBytes` computes the new write index after the read index has not yet moved,
    so compaction leaves it where it was.  The flag `repaired` selects that code as written
    (false) or with the readable length kept (true); every theorem says which one it is about. */
module ByteBuffer {

  const KPREPENDINDEX := 8

  /** The vector's elements and the two indices.  Before the first append the vector is empty
      and both indices point past its end. */
  datatype View = View(bytes: seq<char>, read: nat, write: nat)

  datatype Outcome = Done(view: View) | Overrun | Abort

  datatype Op = Append(data: seq<char>) | Retreive(len: nat) | RetreiveAll

  const INITIAL := View([], KPREPENDINDEX, KPREPENDINDEX)

  predicate Valid(v: View) {
    KPREPENDINDEX <= v.read <= v.write && (v.write <= |v.bytes| || v.read == v.write == KPREPENDINDEX)
  }

  /** What the buffer holds, oldest byte first. */
  function Contents(v: View): seq<char>
    requires Valid(v)
  {
    if v.write <= |v.bytes| then v.bytes[v.read..v.write] else []
  }

  function Writable(v: View): int {
    |v.bytes| - v.write
  }

  /** The guard of the compaction branch. */
  predicate Compacts(v: View, len: nat) {
    Writable(v) < len && Writable(v) + v.read >= len + KPREPENDINDEX
  }

  function Zeros(n: nat): seq<char> {
    seq(n, _ => 0 as char)
  }

  function EnsureWritable(v: View, len: nat, repaired: bool): View
    requires Valid(v)
  {
    if Writable(v) >= len then v
    else if !Compacts(v, len) then v.(bytes := v.bytes + Zeros(v.write + len - |v.bytes|))
    else
      var n := v.write - v.read;
      View(v.bytes[..KPREPENDINDEX] + v.bytes[v.read..v.write] + v.bytes[KPREPENDINDEX + n..],
           KPREPENDINDEX, if repaired then KPREPENDINDEX + n else v.write)
  }

  /** `Overrun` is a copy past the end of the vector, where the source's behaviour is undefined. */
  function AppendTo(v: View, data: seq<char>, repaired: bool): Outcome
    requires Valid(v)
  {
    var u := EnsureWritable(v, |data|, repaired);
    if u.write + |data| > |u.bytes| then Overrun
    else Done(View(u.bytes[..u.write] + data + u.bytes[u.write + |data|..], u.read, u.write + |data|))
  }

  function RetreiveFrom(v: View, len: nat): Outcome
    requires Valid(v)
  {
    if len > v.write - v.read then Abort
    else if len < v.write - v.read then Done(v.(read := v.read + len))
    else Done(v.(read := KPREPENDINDEX, write := KPREPENDINDEX))
  }

  function Apply(v: View, op: Op, repaired: bool): Outcome
    requires Valid(v)
  {
    match op
    case Append(data) => AppendTo(v, data, repaired)
    case Retreive(len) => RetreiveFrom(v, len)
    case RetreiveAll => Done(v.(read := KPREPENDINDEX, write := KPREPENDINDEX))
  }

  /** An append enqueues its bytes at the back exactly when it does not compact, or the
      compaction is the repaired one. */
  lemma AppendEnqueues(v: View, data: seq<char>, repaired: bool)
    requires Valid(v)
    ensures (repaired || !Compacts(v, |data|)) <==>
            (AppendTo(v, data, repaired).Done? && Valid(AppendTo(v, data, repaired).view) &&
             Contents(AppendTo(v, data, repaired).view) == Contents(v) + data)
    ensures !repaired && Compacts(v, |data|) ==> AppendTo(v, data, repaired).Overrun?
  {
    if repaired || !Compacts(v, |data|) {
      var u := EnsureWritable(v, |data|, repaired);
      assert Valid(u) && Contents(u) == Contents(v);
      var w := AppendTo(v, data, repaired).view;
      assert w.bytes[w.read..w.write] == u.bytes[u.read..u.write] + data;
    }
  }

  lemma RetreiveDequeues(v: View, len: nat)
    requires Valid(v)
    ensures RetreiveFrom(v, len).Done? <==> len <= |Contents(v)|
    ensures len <= |Contents(v)| ==>
              Valid(RetreiveFrom(v, len).view) && Contents(RetreiveFrom(v, len).view) == Contents(v)[len..]
  {
    if len < v.write - v.read {
      assert v.bytes[v.read + len..v.write] == v.bytes[v.read..v.write][len..];
    }
  }

  // ---------- Whole runs against a byte queue ----------

  datatype Queue = Queue(bytes: seq<char>) | Underflow

  function QueueRun(ops: seq<Op>): Queue {
    if ops == [] then Queue([])
    else match (QueueRun(ops[..|ops| - 1]), ops[|ops| - 1])
      case (Underflow, _) => Underflow
      case (Queue(q), Append(data)) => Queue(q + data)
      case (Queue(q), Retreive(len)) => if len <= |q| then Queue(q[len..]) else Underflow
      case (Queue(q), RetreiveAll) => Queue([])
  }

  function BufferRun(ops: seq<Op>, repaired: bool): (r: Outcome)
    ensures r.Done? ==> Valid(r.view)
  {
    if ops == [] then Done(INITIAL)
    else
      var before := BufferRun(ops[..|ops| - 1], repaired);
      if !before.Done? then before
      else
        AppendOrNot(before.view, ops[|ops| - 1], repaired);
        Apply(before.view, ops[|ops| - 1], repaired)
  }

  lemma AppendOrNot(v: View, op: Op, repaired: bool)
    requires Valid(v)
    ensures Apply(v, op, repaired).Done? ==> Valid(Apply(v, op, repaired).view)
  {
    if op.Append? { AppendEnqueues(v, op.data, repaired); }
    if op.Retreive? { RetreiveDequeues(v, op.len); }
  }

  /** Somewhere in the run an append takes the compaction branch. */
  ghost predicate EverCompacts(ops: seq<Op>, repaired: bool) {
    exists i :: 0 <= i < |ops| && CompactsAt(ops, i, repaired)
  }

  predicate CompactsAt(ops: seq<Op>, i: nat, repaired: bool)
    requires i < |ops|
  {
    ops[i].Append? && BufferRun(ops[..i], repaired).Done? && Compacts(BufferRun(ops[..i], repaired).view, |ops[i].data|)
  }

  ghost predicate Refines(ops: seq<Op>, repaired: bool) {
    match (QueueRun(ops), BufferRun(ops, repaired))
    case (Queue(q), Done(v)) => Contents(v) == q
    case (Underflow, Abort) => true
    case _ => false
  }

  lemma BeforeLast(ops: seq<Op>, repaired: bool)
    requires ops != []
    ensures EverCompacts(ops, repaired)
            <==> EverCompacts(ops[..|ops| - 1], repaired) || CompactsAt(ops, |ops| - 1, repaired)
  {
    var before := ops[..|ops| - 1];
    assert forall i | 0 <= i < |before| :: ops[..i] == before[..i];
    assert forall i | 0 <= i < |before| :: CompactsAt(ops, i, repaired) <==> CompactsAt(before, i, repaired);
  }

  /** Repaired, every run is a run of a byte queue.  As written, a run is one exactly when no
      append in it compacts; the run that does compact writes past the end of the vector. */
  lemma {:induction false} RunRefinesQueue(ops: seq<Op>, repaired: bool)
    ensures repaired ==> Refines(ops, repaired)
    ensures !repaired ==> (Refines(ops, repaired) <==> !EverCompacts(ops, repaired))
    ensures !repaired && EverCompacts(ops, repaired) ==> BufferRun(ops, repaired).Overrun?
  {
    if ops == [] {
    } else {
      var before, op := ops[..|ops| - 1], ops[|ops| - 1];
      RunRefinesQueue(before, repaired);
      BeforeLast(ops, repaired);
      if BufferRun(before, repaired).Done? {
        var v := BufferRun(before, repaired).view;
        if op.Append? { AppendEnqueues(v, op.data, repaired); }
        if op.Retreive? { RetreiveDequeues(v, op.len); }
      }
    }
  }

  /** If the operation takes a number of bytes, it takes all there are. */
  predicate TakesAll(ops: seq<Op>, i: nat)
    requires i < |ops|
  {
    ops[i].Retreive? ==> QueueRun(ops[..i]).Queue? && ops[i].len == |QueueRun(ops[..i]).bytes|
  }

  /** A buffer that is only ever emptied whole, as input buffers are before each read, never compacts
      as written, and keeps its read index where it began. */
  lemma {:induction false} WholeRetreivalsNeverCompact(ops: seq<Op>)
    requires forall i | 0 <= i < |ops| :: TakesAll(ops, i)
    ensures BufferRun(ops, false).Done? && BufferRun(ops, false).view.read == KPREPENDINDEX
    ensures !EverCompacts(ops, false) && Refines(ops, false)
  {
    if ops != [] {
      var before, op := ops[..|ops| - 1], ops[|ops| - 1];
      forall i | 0 <= i < |before| ensures TakesAll(before, i) {
        assert before[..i] == ops[..i];
        assert TakesAll(ops, i);
      }
      WholeRetreivalsNeverCompact(before);
      BeforeLast(ops, false);
      assert TakesAll(ops, |before|);
      if op.Append? { AppendEnqueues(BufferRun(before, false).view, op.data, false); }
    }
    RunRefinesQueue(ops, false);
  }

  /** Four bytes, two taken, one more: the output buffer as written runs past its vector. */
  lemma CompactionOverruns()
    ensures var ops := [Append("abcd"), Retreive(2), Append("e")];
            BufferRun(ops, false).Overrun? && QueueRun(ops) == Queue("cde") && Refines(ops, true)
  {
    var ops := [Append("abcd"), Retreive(2), Append("e")];
    assert ops[..2] == [Append("abcd"), Retreive(2)];
    assert ops[..2][..1] == [Append("abcd")];
    assert ops[..2][..1][..0] == [];
    assert BufferRun(ops[..2][..1], false) == AppendTo(INITIAL, "abcd", false);
    assert QueueRun(ops[..2][..1]) == Queue("abcd");
    RunRefinesQueue(ops, true);
  }

  // ---------- The class ----------

  /** A text that agrees with another but for `data` at `dst`. */
  lemma Pasted(now: seq<char>, was: seq<char>, dst: nat, data: seq<char>)
    requires |now| == |was| && dst + |data| <= |now|
    requires forall k :: dst <= k < dst + |data| ==> now[k] == data[k - dst]
    requires forall k :: 0 <= k < dst || dst + |data| <= k < |now| ==> now[k] == was[k]
    ensures now == was[..dst] + data + was[dst + |data|..]
  {}

  /** `std::copy` within one array, front to back; the ranges may overlap. */
  method CopyForward(a: array<char>, src: nat, dst: nat, n: nat)
    requires dst <= src && src + n <= a.Length
    modifies a
    ensures a[..] == old(a[..dst]) + old(a[src..src + n]) + old(a[dst + n..])
  {
    ghost var was := a[..];
    for i := 0 to n
      invariant forall k :: dst <= k < dst + i ==> a[k] == was[src + (k - dst)]
      invariant forall k :: 0 <= k < dst || dst + i <= k < a.Length ==> a[k] == was[k]
    {
      a[dst + i] := a[src + i];
    }
    Pasted(a[..], was, dst, was[src..src + n]);
  }

  /** `std::copy` of outside data into an array. */
  method CopyInto(data: seq<char>, a: array<char>, dst: nat)
    requires dst + |data| <= a.Length
    modifies a
    ensures a[..] == old(a[..dst]) + data + old(a[dst + |data|..])
  {
    ghost var was := a[..];
    for i := 0 to |data|
      invariant forall k :: dst <= k < dst + i ==> a[k] == data[k - dst]
      invariant forall k :: 0 <= k < dst || dst + i <= k < a.Length ==> a[k] == was[k]
    {
      a[dst + i] := data[i];
    }
    Pasted(a[..], was, dst, data);
  }

  class Buffer {
    var bytes: array<char>
    var readIndex: nat
    var writeIndex: nat

    ghost function Now(): View
      reads this, bytes
    {
      View(bytes[..], readIndex, writeIndex)
    }

    constructor ()
      ensures Now() == INITIAL && fresh(bytes)
    {
      bytes := new char[0];
      readIndex, writeIndex := KPREPENDINDEX, KPREPENDINDEX;
    }

    method EnsureWritableBytes(len: nat)
      requires Valid(Now())
      modifies this, bytes
      ensures Now() == EnsureWritable(old(Now()), len, false)
      ensures bytes == old(bytes) || fresh(bytes)
    {
      var writable := bytes.Length - writeIndex;
      if writable < len {
        if writable + readIndex < len + KPREPENDINDEX {
          var old_bytes := bytes;
          var grown := new char[writeIndex + len](i requires 0 <= i reads old_bytes =>
            if i < old_bytes.Length then old_bytes[i] else 0 as char);
          assert grown[..] == bytes[..] + Zeros(writeIndex + len - bytes.Length);
          bytes := grown;
        } else {
          CopyForward(bytes, readIndex, KPREPENDINDEX, writeIndex - readIndex);
          writeIndex := readIndex + (writeIndex - readIndex);
          readIndex := KPREPENDINDEX;
        }
      }
    }

    method Append(data: seq<char>) returns (overrun: bool)
      requires Valid(Now())
      modifies this, bytes
      ensures overrun <==> AppendTo(old(Now()), data, false).Overrun?
      ensures !overrun ==> AppendTo(old(Now()), data, false) == Done(Now())
      ensures bytes == old(bytes) || fresh(bytes)
    {
      EnsureWritableBytes(|data|);
      if writeIndex + |data| > bytes.Length {
        return true;
      }
      CopyInto(data, bytes, writeIndex);
      writeIndex := writeIndex + |data|;
      return false;
    }

    method Retreive(len: nat) returns (abort: bool)
      requires Valid(Now())
      modifies this`readIndex, this`writeIndex
      ensures abort <==> RetreiveFrom(old(Now()), len).Abort?
      ensures Now() == if abort then old(Now()) else RetreiveFrom(old(Now()), len).view
    {
      if len > writeIndex - readIndex {
        return true;
      }
      if len < writeIndex - readIndex {
        readIndex := readIndex + len;
      } else {
        RetreiveAll();
      }
      return false;
    }

    method RetreiveAll()
      modifies this`readIndex, this`writeIndex
      ensures readIndex == writeIndex == KPREPENDINDEX
    {
      writeIndex := KPREPENDINDEX;
      readIndex := KPREPENDINDEX;
    }

    /** `PeekAllString` and `RetreiveAllAsString`. */
    method RetreiveAllAsString() returns (result: seq<char>)
      requires Valid(Now())
      modifies this`readIndex, this`writeIndex
      ensures result == Contents(old(Now())) && readIndex == writeIndex == KPREPENDINDEX
    {
      result := if writeIndex <= bytes.Length then bytes[readIndex..writeIndex] else [];
      RetreiveAll();
    }
  }
}
