/** The asynchronous log: a front end that fills buffers and a back end that takes them, writes
    them and gives emptied ones back, in any interleaving of their critical sections.

    A buffer is its identity `T` (an address) and its text, so that two owners of one buffer can
    be told from two buffers with the same text. */
module Logging {
  import opened Options

  const SIZE := 4096 * 1000
  const FILEMAXIMUMSIZE := 1024 * 1024 * 1024

  type Text = seq<char>

  datatype Buf<T> = Buf(id: T, text: Text)

  /** The fields the mutex guards. */
  datatype Front<T> = Front(current: Buf<T>, next: Option<Buf<T>>, buffers: seq<Buf<T>>)

  /** The locals of the back end: at the head of its loop; past the loop's test, waiting to
      exchange; while it writes `active` and has written the first `k`; or after it returned. */
  datatype Back<T> =
    | Ready(newCurrent: Buf<T>, newNext: Buf<T>)
    | Waiting(newCurrent: Buf<T>, newNext: Buf<T>)
    | Writing(spare: Option<Buf<T>>, active: seq<Buf<T>>, k: nat)
    | Gone

  /** `file` is all that was written, over every log file; `written` counts the current one.
      `history` is all that was appended, `marked` what had been at the last exchange. */
  datatype State<T> = State(front: Front<T>, back: Back<T>, running: bool, file: Text, written: nat,
                            marked: Text, history: Text, halted: bool)

  function Emptied<T>(b: Buf<T>): Buf<T> { b.(text := "") }

  /** `FixedBuffer::Append`: a buffer is never filled to the last byte. */
  function Filled<T>(b: Buf<T>, line: Text): Option<Buf<T>> {
    if SIZE - |b.text| > |line| then Some(b.(text := b.text + line)) else None
  }

  /** `AsyncLogging::Append`; `id` is the address of a buffer if one is made. */
  function Appended<T>(f: Front<T>, line: Text, id: T): Option<Front<T>> {
    var g :=
      if SIZE - |f.current.text| < |line| then
        Front(if f.next.Some? then f.next.value else Buf(id, ""), None, f.buffers + [f.current])
      else f;
    match Filled(g.current, line)
    case Some(b) => Some(g.(current := b))
    case None => None
  }

  /** The back end's critical section. */
  function Exchanged<T>(f: Front<T>, newCurrent: Buf<T>, newNext: Buf<T>): Front<T> {
    Front(newCurrent, if f.next.None? then Some(newNext) else f.next, [])
  }

  function Taken<T>(f: Front<T>): seq<Buf<T>> { f.buffers + [f.current] }

  /** What the back end keeps of the buffers it has written: a new current and a new next. */
  function Recycled<T>(active: seq<Buf<T>>, spare: Option<Buf<T>>, id: T): Back<T>
    requires active != []
  {
    var kept := if |active| > 2 then active[..2] else active;
    var n := |kept|;
    Ready(Emptied(kept[n - 1]),
          match spare
          case Some(b) => b
          case None => if n > 1 then Emptied(kept[n - 2]) else Buf(id, ""))
  }

  datatype Action<T> =
    | Append(line: Text, id: T)
    | Enter
    | Exchange
    | WriteOne
    | Recycle(id: T)
    | Stop
    | Return

  /** Steps of a program that has not aborted. A thread that makes a buffer gets an address nobody
      holds. The loop tests `running` outside the lock, so a stop may come between the test and the
      exchange, whether or not the back end waits in between. */
  predicate Enabled<T(==)>(s: State<T>, a: Action<T>) {
    && !s.halted
    && match a
       case Append(_, id) => Held(s, id) == 0
       case Enter => s.running && s.back.Ready?
       case Exchange => s.back.Waiting?
       case WriteOne => s.back.Writing? && s.back.k < |s.back.active|
       case Recycle(id) => s.back.Writing? && s.back.k == |s.back.active| && s.back.active != [] && Held(s, id) == 0
       case Stop => true
       case Return => !s.running && s.back.Ready?
  }

  function Next<T(==)>(s: State<T>, a: Action<T>): State<T>
    requires Enabled(s, a)
  {
    match a
    case Append(line, id) =>
      (match Appended(s.front, line, id)
       case Some(f) => s.(front := f, history := s.history + line)
       case None => s.(halted := true))
    case Enter => s.(back := Waiting(s.back.newCurrent, s.back.newNext))
    case Exchange =>
      s.(front := Exchanged(s.front, s.back.newCurrent, s.back.newNext),
         back := Writing(if s.front.next.None? then None else Some(s.back.newNext), Taken(s.front), 0),
         marked := s.history)
    case WriteOne =>
      var text := s.back.active[s.back.k].text;
      s.(file := s.file + text, back := s.back.(k := s.back.k + 1),
         written := (if s.written >= FILEMAXIMUMSIZE then 0 else s.written) + |text|)
    case Recycle(id) => s.(back := Recycled(s.back.active, s.back.spare, id))
    case Stop => s.(running := false)
    case Return => s.(back := Gone)
  }

  // ---------- Who holds which buffer ----------

  function Is<T(==)>(b: Buf<T>, x: T): nat { if b.id == x then 1 else 0 }

  function IsSome<T(==)>(b: Option<Buf<T>>, x: T): nat { if b.Some? then Is(b.value, x) else 0 }

  function Among<T(==)>(bufs: seq<Buf<T>>, x: T): nat {
    if bufs == [] then 0 else Among(bufs[..|bufs| - 1], x) + Is(bufs[|bufs| - 1], x)
  }

  function InFront<T(==)>(f: Front<T>, x: T): nat { Is(f.current, x) + IsSome(f.next, x) + Among(f.buffers, x) }

  function InBack<T(==)>(b: Back<T>, x: T): nat {
    match b
    case Ready(c, n) => Is(c, x) + Is(n, x)
    case Waiting(c, n) => Is(c, x) + Is(n, x)
    case Writing(spare, active, _) => IsSome(spare, x) + Among(active, x)
    case Gone => 0
  }

  /** How many times either side holds the buffer `x`. */
  function Held<T(==)>(s: State<T>, x: T): nat { InFront(s.front, x) + InBack(s.back, x) }

  lemma AmongPush<T>(bufs: seq<Buf<T>>, b: Buf<T>, x: T)
    ensures Among(bufs + [b], x) == Among(bufs, x) + Is(b, x)
  {
    assert (bufs + [b])[..|bufs|] == bufs;
  }

  lemma {:induction false} AmongPrefix<T>(bufs: seq<Buf<T>>, n: nat, x: T)
    requires n <= |bufs|
    ensures Among(bufs[..n], x) <= Among(bufs, x)
    decreases |bufs|
  {
    if n < |bufs| {
      assert bufs[..|bufs| - 1][..n] == bufs[..n];
      AmongPrefix(bufs[..|bufs| - 1], n, x);
    } else {
      assert bufs[..n] == bufs;
    }
  }

  // ---------- Texts ----------

  function Texts<T>(bufs: seq<Buf<T>>): Text {
    if bufs == [] then "" else Texts(bufs[..|bufs| - 1]) + bufs[|bufs| - 1].text
  }

  /** What the front end holds, in the order it was appended. */
  function Pending<T>(f: Front<T>): Text { Texts(f.buffers) + f.current.text }

  /** What the back end has taken and not written. */
  function Unwritten<T>(b: Back<T>): Text {
    if b.Writing? && b.k <= |b.active| then Texts(b.active[b.k..]) else ""
  }

  lemma TextsPush<T>(bufs: seq<Buf<T>>, b: Buf<T>)
    ensures Texts(bufs + [b]) == Texts(bufs) + b.text
  {
    assert (bufs + [b])[..|bufs|] == bufs;
  }

  lemma TextsHead<T>(bufs: seq<Buf<T>>)
    requires bufs != []
    ensures Texts(bufs) == bufs[0].text + Texts(bufs[1..])
    decreases |bufs|
  {
    if |bufs| > 1 {
      var init := bufs[..|bufs| - 1];
      TextsHead(init);
      assert init[1..] == bufs[1..][..|bufs| - 2];
    }
  }

  // ---------- The invariant ----------

  predicate Fits<T(==)>(bufs: seq<Buf<T>>) { forall b | b in bufs :: |b.text| < SIZE }

  predicate Blank<T>(b: Option<Buf<T>>) { b.Some? ==> b.value.text == "" }

  /** Spare buffers are empty, and taken ones come from the front end. */
  ghost predicate SparesBlank<T>(s: State<T>) {
    && Blank(s.front.next)
    && match s.back
       case Ready(c, n) => c.text == "" && n.text == ""
       case Waiting(c, n) => c.text == "" && n.text == ""
       case Writing(spare, active, k) => Blank(spare) && k <= |active| && active != [] && Fits(active)
       case Gone => true
  }

  ghost predicate FrontFits<T>(f: Front<T>) { Fits(f.buffers) && |f.current.text| < SIZE }

  /** The file, what is being written and what the front end holds are all that was appended. */
  ghost predicate Conserved<T>(s: State<T>) {
    s.file + Unwritten(s.back) == s.marked && s.marked + Pending(s.front) == s.history
  }

  ghost predicate Inv<T>(s: State<T>) {
    SparesBlank(s) && FrontFits(s.front) && Conserved(s) && s.written < FILEMAXIMUMSIZE + SIZE
  }

  lemma AppendedIsPending<T>(f: Front<T>, line: Text, id: T)
    requires FrontFits(f) && Blank(f.next)
    ensures match Appended(f, line, id)
            case Some(g) => FrontFits(g) && Blank(g.next) && Pending(g) == Pending(f) + line
            case None => true
  {
    TextsPush(f.buffers, f.current);
    if SIZE - |f.current.text| < |line| {
      assert Fits(f.buffers + [f.current]);
    }
    assert Pending(f) + line == Texts(f.buffers) + (f.current.text + line);
  }

  /** `Append` aborts exactly when the line fills the buffer to the last byte or is no shorter than
      a whole buffer. */
  lemma AppendAbortsIff<T>(f: Front<T>, line: Text, id: T)
    requires FrontFits(f) && Blank(f.next)
    ensures Appended(f, line, id).None? <==> |line| == SIZE - |f.current.text| || |line| >= SIZE
  {}

  /** `Append` goes on to the next buffer exactly when the line is longer than the space left; else
      it touches nothing but the current buffer. */
  lemma AppendRotatesIff<T>(f: Front<T>, line: Text, id: T)
    requires Appended(f, line, id).Some?
    ensures var g := Appended(f, line, id).value;
            if SIZE - |f.current.text| < |line| then
              && g.buffers == f.buffers + [f.current] && g.next == None
              && g.current == Buf(if f.next.Some? then f.next.value.id else id,
                                  (if f.next.Some? then f.next.value.text else "") + line)
            else g == f.(current := Buf(f.current.id, f.current.text + line))
  {}

  lemma AppendKeeps<T>(s: State<T>, line: Text, id: T)
    requires Inv(s) && Enabled(s, Append(line, id))
    ensures Inv(Next(s, Append(line, id)))
  {
    AppendedIsPending(s.front, line, id);
    var t := Next(s, Append(line, id));
    if !t.halted { assert t.marked + Pending(t.front) == s.marked + Pending(s.front) + line; }
  }

  lemma ExchangeKeeps<T>(s: State<T>)
    requires Inv(s) && Enabled(s, Exchange)
    ensures Inv(Next(s, Exchange))
  {
    var t := Next(s, Exchange);
    TextsPush(s.front.buffers, s.front.current);
    assert t.back.active[0..] == t.back.active;
  }

  lemma WriteKeeps<T>(s: State<T>)
    requires Inv(s) && Enabled(s, WriteOne)
    ensures Inv(Next(s, WriteOne))
  {
    var (active, k) := (s.back.active, s.back.k);
    TextsHead(active[k..]);
    assert active[k..][1..] == active[k + 1..];
    assert active[k] in active;
  }

  lemma RecycleKeeps<T>(s: State<T>, id: T)
    requires Inv(s) && Enabled(s, Recycle(id))
    ensures Inv(Next(s, Recycle(id)))
  {
    assert s.back.active[s.back.k..] == [];
  }

  lemma NextKeeps<T>(s: State<T>, a: Action<T>)
    requires Inv(s) && Enabled(s, a)
    ensures Inv(Next(s, a))
  {
    match a
    case Append(line, id) => AppendKeeps(s, line, id);
    case Enter =>
    case Exchange => ExchangeKeeps(s);
    case WriteOne => WriteKeeps(s);
    case Recycle(id) => RecycleKeeps(s, id);
    case Stop =>
    case Return =>
  }

  // ---------- One owner each ----------

  lemma AppendedHeld<T>(f: Front<T>, line: Text, id: T, x: T)
    ensures match Appended(f, line, id)
            case Some(g) => InFront(g, x) <= InFront(f, x) + (if id == x then 1 else 0)
            case None => true
  {
    AmongPush(f.buffers, f.current, x);
  }

  /** The exchange moves every buffer and loses none. */
  lemma ExchangeKeepsBuffers<T>(s: State<T>, x: T)
    requires Enabled(s, Exchange)
    ensures Held(Next(s, Exchange), x) == Held(s, x)
  {
    AmongPush(s.front.buffers, s.front.current, x);
  }

  /** The back end reuses the first two of the buffers it took, and makes one only when it took a
      single buffer and got no spare back. */
  lemma RecycleReuses<T>(active: seq<Buf<T>>, spare: Option<Buf<T>>, id: T)
    requires active != []
    ensures var r := Recycled(active, spare, id);
            && r.newCurrent == Buf(if |active| == 1 then active[0].id else active[1].id, "")
            && r.newNext == if spare.Some? then spare.value else Buf(if |active| == 1 then id else active[0].id, "")
  {}

  lemma RecycledHeld<T>(active: seq<Buf<T>>, spare: Option<Buf<T>>, id: T, x: T)
    requires active != []
    ensures InBack(Recycled(active, spare, id), x) <= IsSome(spare, x) + Among(active, x) + (if id == x then 1 else 0)
  {
    var kept := if |active| > 2 then active[..2] else active;
    var n := |kept|;
    AmongPrefix(active, n, x);
    assert kept == active[..n];
    if n == 2 {
      assert kept[..1][..0] == [];
      assert Among(kept[..1], x) == Is(kept[0], x);
    }
  }

  lemma NextHeld<T>(s: State<T>, a: Action<T>, x: T)
    requires Inv(s) && Enabled(s, a) && Held(s, x) <= 1
    ensures Held(Next(s, a), x) <= 1
  {
    match a
    case Append(line, id) => AppendedHeld(s.front, line, id, x);
    case Enter =>
    case Exchange => AmongPush(s.front.buffers, s.front.current, x);
    case WriteOne =>
    case Recycle(id) => RecycledHeld(s.back.active, s.back.spare, id, x);
    case Stop =>
    case Return =>
  }

  // ---------- Any interleaving ----------

  ghost predicate IsInit<T>(s: State<T>) {
    && s.front.next.Some? && s.front.buffers == [] && s.back.Ready?
    && s.front.current.text == s.front.next.value.text == s.back.newCurrent.text == s.back.newNext.text == ""
    && s.running && !s.halted
    && s.file == s.marked == s.history == "" && s.written == 0
  }

  ghost predicate Reaches<T>(s: State<T>, run: seq<Action<T>>, t: State<T>)
    decreases |run|
  {
    if run == [] then s == t
    else Enabled(s, run[0]) && Reaches(Next(s, run[0]), run[1..], t)
  }

  lemma {:induction false} ReachesKeeps<T>(s: State<T>, run: seq<Action<T>>, t: State<T>)
    requires Inv(s) && Reaches(s, run, t)
    ensures Inv(t)
    decreases |run|
  {
    if run != [] {
      NextKeeps(s, run[0]);
      ReachesKeeps(Next(s, run[0]), run[1..], t);
    }
  }

  lemma {:induction false} ReachesHeld<T>(s: State<T>, run: seq<Action<T>>, t: State<T>, x: T)
    requires Inv(s) && Reaches(s, run, t) && Held(s, x) <= 1
    ensures Held(t, x) <= 1
    decreases |run|
  {
    if run != [] {
      NextKeeps(s, run[0]);
      NextHeld(s, run[0], x);
      ReachesHeld(Next(s, run[0]), run[1..], t, x);
    }
  }

  /** In every interleaving the file, the buffers being written and the front end's buffers are, in
      that order, exactly what was appended; at the head of its loop the back end has two empty
      spares and has written everything appended before its last exchange; and a log file stays
      below its bound plus one buffer. */
  lemma {:induction false} LogIsConserved<T>(s: State<T>, run: seq<Action<T>>, t: State<T>)
    requires IsInit(s) && Reaches(s, run, t)
    ensures t.file + Unwritten(t.back) + Pending(t.front) == t.history
    ensures t.written < FILEMAXIMUMSIZE + SIZE
    ensures t.back.Ready? || t.back.Waiting? ==> t.back.newCurrent.text == t.back.newNext.text == ""
    ensures !t.back.Writing? ==> t.file == t.marked
  {
    assert Unwritten(s.back) == "" && Pending(s.front) == "";
    ReachesKeeps(s, run, t);
    assert t.marked + Pending(t.front) == t.history;
  }

  /** If the four first buffers are four, no buffer ever has two owners. */
  lemma {:induction false} NoBufferIsShared<T>(s: State<T>, run: seq<Action<T>>, t: State<T>, x: T)
    requires IsInit(s) && Reaches(s, run, t)
    requires var (a, b, c, d) := (s.front.current.id, s.front.next.value.id, s.back.newCurrent.id, s.back.newNext.id);
             a != b && a != c && a != d && b != c && b != d && c != d
    ensures Held(t, x) <= 1
    ensures t.back.Ready? || t.back.Waiting? ==> t.back.newCurrent.id != t.back.newNext.id
  {
    assert Inv(s) by { assert Unwritten(s.back) == "" && Pending(s.front) == ""; }
    ReachesHeld(s, run, t, x);
    if t.back.Ready? || t.back.Waiting? { ReachesHeld(s, run, t, t.back.newCurrent.id); }
  }

  /** After the back end has returned, what the front end still holds is never written: nothing was
      lost exactly when nothing was appended after the last exchange. */
  lemma {:induction false} LostAfterReturn<T>(s: State<T>, run: seq<Action<T>>, t: State<T>)
    requires IsInit(s) && Reaches(s, run, t) && t.back.Gone?
    ensures t.file == t.history <==> Pending(t.front) == ""
    ensures t.file == t.history <==> t.history == t.marked
  {
    LogIsConserved(s, run, t);
    assert |t.file| + |Pending(t.front)| == |t.history|;
  }

  /** A line appended while the back end writes nothing, then a stop: the line is never written. */
  lemma LastLineIsLost<T>(s: State<T>, id: T) returns (run: seq<Action<T>>, t: State<T>)
    requires IsInit(s) && Held(s, id) == 0
    ensures Reaches(s, run, t) && t.back.Gone? && t.history == "x" && t.file == ""
  {
    var (a, b, c) := (Append("x", id), Action<T>.Stop, Action<T>.Return);
    run := [a, b, c];
    var (s1, s2) := (Next(s, a), Next(Next(s, a), b));
    t := Next(s2, c);
    assert run[1..] == [b, c] && [b, c][1..] == [c] && [c][1..] == [];
    assert Reaches(s2, [c], t);
    assert Reaches(s1, [b, c], t);
  }

  /** A line of one byte aborts when the buffer has one byte left. */
  lemma ExactFitAborts<T>(s: State<T>, line: Text, id: T) returns (t: State<T>)
    requires IsInit(s) && Held(s, id) == 0 && |line| == SIZE - 1
    ensures Reaches(s, [Append(line, id), Append("x", id)], t) && t.halted
  {
    var (a, b) := (Append(line, id), Append("x", id));
    var s1 := Next(s, a);
    t := Next(s1, b);
    assert [a, b][1..] == [b] && [b][1..] == [];
    assert Reaches(s1, [b], t);
  }

  /** Once the back end is gone the file does not change, whatever is appended. */
  lemma {:induction false} GoneForGood<T>(s: State<T>, run: seq<Action<T>>, t: State<T>)
    requires s.back.Gone? && Reaches(s, run, t)
    ensures t.back.Gone? && t.file == s.file
    decreases |run|
  {
    if run != [] { GoneForGood(Next(s, run[0]), run[1..], t); }
  }

  // ---------- A stop during the wait ----------

  function Exchanges<T>(run: seq<Action<T>>): nat
    decreases |run|
  {
    if run == [] then 0 else (if run[0].Exchange? then 1 else 0) + Exchanges(run[1..])
  }

  /** What is sure to be written: everything appended so far if the back end is waiting. */
  predicate Secured<T>(s: State<T>, text: Text) {
    if s.back.Waiting? then text <= s.history else text <= s.marked
  }

  lemma {:induction false} SecuredStays<T>(s: State<T>, run: seq<Action<T>>, t: State<T>, text: Text)
    requires Inv(s) && Reaches(s, run, t) && Secured(s, text)
    ensures Secured(t, text)
    decreases |run|
  {
    if run != [] {
      NextKeeps(s, run[0]);
      SecuredStays(Next(s, run[0]), run[1..], t, text);
    }
  }

  lemma {:induction false} ExchangesAfterStop<T>(s: State<T>, run: seq<Action<T>>, t: State<T>)
    requires Reaches(s, run, t) && !s.running
    ensures !t.running && Exchanges(run) == if s.back.Waiting? && !t.back.Waiting? then 1 else 0
    ensures t.back.Waiting? ==> s.back.Waiting?
    decreases |run|
  {
    if run != [] { ExchangesAfterStop(Next(s, run[0]), run[1..], t); }
  }

  /** A stop while the back end waits is followed by exactly one exchange, and by the time the back
      end returns everything appended before the stop is in the file, however the threads
      interleave. */
  lemma {:induction false} StopDuringWait<T>(s: State<T>, run: seq<Action<T>>, t: State<T>)
    requires Inv(s) && !s.halted && s.back.Waiting? && Reaches(Next(s, Stop), run, t) && t.back.Gone?
    ensures Exchanges(run) == 1 && s.history <= t.file
  {
    var u := Next(s, Stop);
    NextKeeps(s, Stop);
    ExchangesAfterStop(u, run, t);
    SecuredStays(u, run, t, s.history);
    ReachesKeeps(u, run, t);
    assert t.file == t.marked;
  }

  // ---------- One round of the back end ----------

  lemma {:induction false} WritesAll<T>(s: State<T>, id: T) returns (run: seq<Action<T>>, t: State<T>)
    requires Inv(s) && !s.halted && s.back.Writing? && Held(s, id) == 0
    ensures Reaches(s, run, t) && t.back.Ready? && t.file == s.marked && t.front == s.front && t.history == s.history
    ensures |run| == |s.back.active| - s.back.k + 1
    decreases |s.back.active| - s.back.k
  {
    if s.back.k == |s.back.active| {
      run, t := [Recycle(id)], Next(s, Recycle(id));
      RecycleKeeps(s, id);
    } else {
      WriteKeeps(s);
      var rest;
      rest, t := WritesAll(Next(s, WriteOne), id);
      run := [WriteOne] + rest;
      assert run[1..] == rest;
    }
  }

  /** One undisturbed round of the back end, from its loop test or its wait on, writes everything
      appended so far; from its wait on, whether or not the program is stopping. */
  lemma {:induction false} RoundWritesAll<T>(s: State<T>, id: T) returns (run: seq<Action<T>>, t: State<T>)
    requires Inv(s) && !s.halted && (s.back.Waiting? || (s.back.Ready? && s.running)) && Held(s, id) == 0
    ensures Reaches(s, run, t) && t.back.Ready? && t.file == t.history == s.history && Pending(t.front) == ""
  {
    if s.back.Ready? {
      var rest;
      rest, t := WaitWritesAll(Next(s, Enter), id);
      run := [Enter] + rest;
      assert run[1..] == rest;
    } else {
      run, t := WaitWritesAll(s, id);
    }
  }

  lemma {:induction false} WaitWritesAll<T>(s: State<T>, id: T) returns (run: seq<Action<T>>, t: State<T>)
    requires Inv(s) && !s.halted && s.back.Waiting? && Held(s, id) == 0
    ensures Reaches(s, run, t) && t.back.Ready? && t.file == t.history == s.history && Pending(t.front) == ""
  {
    ExchangeKeeps(s);
    var u := Next(s, Exchange);
    ExchangeKeepsBuffers(s, id);
    var rest;
    rest, t := WritesAll(u, id);
    run := [Exchange] + rest;
    assert run[1..] == rest;
  }

  // ---------- The log files ----------

  /** The sizes of the log files once another text is written. */
  function Grown(sizes: seq<nat>, n: nat): seq<nat>
    requires sizes != []
  {
    var last := |sizes| - 1;
    if sizes[last] >= FILEMAXIMUMSIZE then sizes + [n] else sizes[last := sizes[last] + n]
  }

  function Sizes<T(==)>(s: State<T>, run: seq<Action<T>>, sizes: seq<nat>): seq<nat>
    requires sizes != []
    decreases |run|
  {
    if run == [] || !Enabled(s, run[0]) then sizes
    else
      Sizes(Next(s, run[0]), run[1..],
            if run[0].WriteOne? then Grown(sizes, |s.back.active[s.back.k].text|) else sizes)
  }

  function Sum(sizes: seq<nat>): nat {
    if sizes == [] then 0 else Sum(sizes[..|sizes| - 1]) + sizes[|sizes| - 1]
  }

  /** The sizes are those of the files: only the last may be short of the bound, and it is the one
      the counter counts. */
  ghost predicate SizesOf<T>(s: State<T>, sizes: seq<nat>) {
    && sizes != [] && Sum(sizes) == |s.file| && s.written == sizes[|sizes| - 1]
    && forall i | 0 <= i < |sizes| - 1 :: FILEMAXIMUMSIZE <= sizes[i] < FILEMAXIMUMSIZE + SIZE
  }

  lemma SizesGrow<T>(s: State<T>, sizes: seq<nat>)
    requires Inv(s) && Enabled(s, WriteOne) && SizesOf(s, sizes)
    ensures SizesOf(Next(s, WriteOne), Grown(sizes, |s.back.active[s.back.k].text|))
  {
    var n := |s.back.active[s.back.k].text|;
    assert (sizes + [n])[..|sizes|] == sizes;
    var last := |sizes| - 1;
    assert sizes[last := sizes[last] + n][..last] == sizes[..last];
  }

  lemma {:induction false} SizesFrom<T>(s: State<T>, run: seq<Action<T>>, t: State<T>, sizes: seq<nat>)
    requires Inv(s) && Reaches(s, run, t) && SizesOf(s, sizes)
    ensures SizesOf(t, Sizes(s, run, sizes))
    decreases |run|
  {
    if run != [] {
      NextKeeps(s, run[0]);
      if run[0].WriteOne? { SizesGrow(s, sizes); }
      SizesFrom(Next(s, run[0]), run[1..], t,
                if run[0].WriteOne? then Grown(sizes, |s.back.active[s.back.k].text|) else sizes);
    }
  }

  /** In every interleaving the log is cut into files that have reached the bound by less than a
      buffer, and the last one, whose size the counter is. */
  lemma FilesAreBounded<T>(s: State<T>, run: seq<Action<T>>, t: State<T>)
    requires IsInit(s) && Reaches(s, run, t)
    ensures SizesOf(t, Sizes(s, run, [0]))
  {
    assert Unwritten(s.back) == "" && Pending(s.front) == "";
    assert Sum([0]) == 0;
    SizesFrom(s, run, t, [0]);
  }
}
