/** How `cpplint.py` keeps its nesting stack across preprocessor branches.

    What one line does to the nesting stack (namespaces, classes, braces, assembly) is a parameter:
    the results hold for any such effect. */
module Nesting {
  import opened Options

  /** What the directive tests say of a line: `#if`, `#ifdef` or `#ifndef`; `#else` or `#elif`;
      `#endif`; anything else. */
  datatype Kind = If | Else | Endif | Plain

  datatype Line<L> = Line(kind: Kind, what: L)

  type Effect<!L, !B> = (Line<L>, seq<B>) -> seq<B>

  /** `_PreprocessorInfo` */
  datatype Checkpoint<B> = Checkpoint(beforeIf: seq<B>, beforeElse: seq<B>, seenElse: bool)

  /** The two stacks of `NestingState`. */
  datatype State<B> = State(stack: seq<B>, pp: seq<Checkpoint<B>>)

  function Last<T>(s: seq<T>): T
    requires s != []
  { s[|s| - 1] }

  function Init<T>(s: seq<T>): seq<T>
    requires s != []
  { s[..|s| - 1] }

  function UpdatePreprocessor<B>(kind: Kind, s: State<B>): State<B> {
    match kind
    case If => s.(pp := s.pp + [Checkpoint(s.stack, [], false)])
    case Else =>
      if s.pp == [] then s
      else
        var top := Last(s.pp);
        State(top.beforeIf,
              Init(s.pp) + [if top.seenElse then top else Checkpoint(top.beforeIf, s.stack, true)])
    case Endif =>
      if s.pp == [] then s
      else State(if Last(s.pp).seenElse then Last(s.pp).beforeElse else s.stack, Init(s.pp))
    case Plain => s
  }

  function Update<L, B>(line: Line<L>, effect: Effect<L, B>, s: State<B>): State<B> {
    var t := UpdatePreprocessor(line.kind, s);
    t.(stack := effect(line, t.stack))
  }

  function Run<L, B>(lines: seq<Line<L>>, effect: Effect<L, B>, s: State<B>): State<B> {
    if lines == [] then s
    else Update(Last(lines), effect, Run(Init(lines), effect, s))
  }

  lemma {:induction false} RunAppend<L, B>(a: seq<Line<L>>, b: seq<Line<L>>, effect: Effect<L, B>, s: State<B>)
    ensures Run(a + b, effect, s) == Run(b, effect, Run(a, effect, s))
    decreases |b|
  {
    if b == [] {
      assert a + b == a;
    } else {
      assert Init(a + b) == a + Init(b);
      RunAppend(a, Init(b), effect, s);
    }
  }

  // ---------- Well-nested text ----------

  /** A line that is no directive, or a conditional with its branches. */
  datatype Item<L> =
    | Single(line: L)
    | Conditional(opening: L, first: Text<L>, others: Branches<L>, closing: L)

  datatype Text<L> = Empty | More(item: Item<L>, rest: Text<L>)

  datatype Branches<L> = NoBranch | Branch(directive: L, text: Text<L>, others: Branches<L>)

  function ItemLines<L>(item: Item<L>): seq<Line<L>>
  {
    match item
    case Single(line) => [Line(Plain, line)]
    case Conditional(opening, first, others, closing) =>
      [Line(If, opening)] + (TextLines(first) + (BranchLines(others) + [Line(Endif, closing)]))
  }

  function TextLines<L>(text: Text<L>): seq<Line<L>>
  {
    match text
    case Empty => []
    case More(item, rest) => ItemLines(item) + TextLines(rest)
  }

  function BranchLines<L>(branches: Branches<L>): seq<Line<L>>
  {
    match branches
    case NoBranch => []
    case Branch(directive, text, others) => [Line(Else, directive)] + (TextLines(text) + BranchLines(others))
  }

  /** What the text does to the stack if every conditional has its first branch only. */
  function ItemMeaning<L, B>(item: Item<L>, effect: Effect<L, B>, stack: seq<B>): seq<B>
  {
    match item
    case Single(line) => effect(Line(Plain, line), stack)
    case Conditional(opening, first, _, closing) =>
      effect(Line(Endif, closing), Meaning(first, effect, effect(Line(If, opening), stack)))
  }

  function Meaning<L, B>(text: Text<L>, effect: Effect<L, B>, stack: seq<B>): seq<B>
  {
    match text
    case Empty => stack
    case More(item, rest) => Meaning(rest, effect, ItemMeaning(item, effect, stack))
  }

  lemma RunOne<L, B>(line: Line<L>, effect: Effect<L, B>, s: State<B>)
    ensures Run([line], effect, s) == Update(line, effect, s)
  {
    assert Init([line]) == [];
  }

  /** From any state, a well-nested text leaves the stack as its first branches alone would, and
      the stack of checkpoints as it was. */
  lemma {:induction false} FirstBranchesDecide<L, B>(text: Text<L>, effect: Effect<L, B>, s: State<B>)
    ensures Run(TextLines(text), effect, s) == State(Meaning(text, effect, s.stack), s.pp)
    decreases text
  {
    match text
    case Empty =>
    case More(item, rest) =>
      RunAppend(ItemLines(item), TextLines(rest), effect, s);
      ItemDecides(item, effect, s);
      FirstBranchesDecide(rest, effect, State(ItemMeaning(item, effect, s.stack), s.pp));
  }

  lemma {:induction false} ItemDecides<L, B>(item: Item<L>, effect: Effect<L, B>, s: State<B>)
    ensures Run(ItemLines(item), effect, s) == State(ItemMeaning(item, effect, s.stack), s.pp)
    decreases item
  {
    match item
    case Single(line) => RunOne(Line(Plain, line), effect, s);
    case Conditional(opening, first, others, closing) =>
      var (open, close) := (Line(If, opening), Line(Endif, closing));
      var after := BranchLines(others) + [close];
      RunAppend([open], TextLines(first) + after, effect, s);
      RunOne(open, effect, s);
      var s1 := Update(open, effect, s);
      RunAppend(TextLines(first), after, effect, s1);
      FirstBranchesDecide(first, effect, s1);
      var s2 := State(Meaning(first, effect, s1.stack), s1.pp);
      RunAppend(BranchLines(others), [close], effect, s2);
      BranchesAreSkipped(others, effect, s2);
      RunOne(close, effect, Run(BranchLines(others), effect, s2));
  }

  /** What `#endif` will put back. */
  function Restored<B>(s: State<B>): State<B>
    requires s.pp != []
  {
    UpdatePreprocessor(Endif, s)
  }

  lemma {:induction false} BranchesAreSkipped<L, B>(branches: Branches<L>, effect: Effect<L, B>, s: State<B>)
    requires s.pp != []
    ensures var t := Run(BranchLines(branches), effect, s);
            t.pp != [] && Restored(t) == Restored(s)
    decreases branches
  {
    match branches
    case NoBranch =>
    case Branch(directive, text, others) =>
      var line := Line(Else, directive);
      RunAppend([line], TextLines(text) + BranchLines(others), effect, s);
      RunOne(line, effect, s);
      var s1 := Update(line, effect, s);
      RunAppend(TextLines(text), BranchLines(others), effect, s1);
      FirstBranchesDecide(text, effect, s1);
      BranchesAreSkipped(others, effect, State(Meaning(text, effect, s1.stack), s1.pp));
  }

  // ---------- Any text ----------

  /** For each open conditional, whether its first branch is over. */
  function Flags(kind: Kind, flags: seq<bool>): seq<bool> {
    match kind
    case If => flags + [false]
    case Else => if flags == [] then [] else Init(flags) + [true]
    case Endif => if flags == [] then [] else Init(flags)
    case Plain => flags
  }

  function FlagsOf<L>(lines: seq<Line<L>>): seq<bool> {
    if lines == [] then [] else Flags(Last(lines).kind, FlagsOf(Init(lines)))
  }

  /** The stack after the lines that are in no later branch. */
  function Kept<L, B>(lines: seq<Line<L>>, effect: Effect<L, B>, stack: seq<B>): seq<B> {
    if lines == [] then stack
    else
      var before := Kept(Init(lines), effect, stack);
      if true in FlagsOf(lines) then before else effect(Last(lines), before)
  }

  /** The stack there would be if every open conditional ended now. */
  function Unwound<B>(s: State<B>): seq<B>
    decreases |s.pp|
  {
    if s.pp == [] then s.stack else Unwound(Restored(s))
  }

  ghost predicate Agree<B>(s: State<B>, flags: seq<bool>) {
    |flags| == |s.pp| && forall j | 0 <= j < |flags| :: flags[j] == s.pp[j].seenElse
  }

  lemma {:induction false} DirectivesKeepUnwound<B>(kind: Kind, s: State<B>)
    ensures Unwound(UpdatePreprocessor(kind, s)) == Unwound(s)
  {
    var t := UpdatePreprocessor(kind, s);
    if kind == If { assert Restored(t) == s; }
    if kind == Else && s.pp != [] { assert Restored(t) == Restored(s); }
  }

  /** What a line does reaches the stack that counts unless some conditional is past its first branch. */
  lemma {:induction false} EffectReaches<L, B>(line: Line<L>, effect: Effect<L, B>, s: State<B>, flags: seq<bool>)
    requires Agree(s, flags)
    ensures Unwound(s.(stack := effect(line, s.stack))) ==
            if true in flags then Unwound(s) else effect(line, Unwound(s))
    decreases |s.pp|
  {
    if s.pp != [] {
      var t := s.(stack := effect(line, s.stack));
      assert flags == Init(flags) + [Last(flags)];
      if Last(flags) {
        assert Restored(t) == Restored(s);
      } else {
        EffectReaches(line, effect, Restored(s), Init(flags));
        assert true in flags <==> true in Init(flags);
      }
    }
  }

  lemma {:induction false} NoFlagNoChange<B>(s: State<B>, flags: seq<bool>)
    requires Agree(s, flags) && true !in flags
    ensures Unwound(s) == s.stack
    decreases |s.pp|
  {
    if s.pp != [] {
      assert forall j | 0 <= j < |flags| :: flags[j] in flags;
      NoFlagNoChange(Restored(s), Init(flags));
    }
  }

  lemma FlagsAgree<B>(kind: Kind, s: State<B>, flags: seq<bool>)
    requires Agree(s, flags)
    ensures Agree(UpdatePreprocessor(kind, s), Flags(kind, flags))
  {}

  lemma UpdateUnwound<L, B>(line: Line<L>, effect: Effect<L, B>, s: State<B>, flags: seq<bool>)
    requires Agree(s, flags)
    ensures var next := Flags(line.kind, flags);
            && Agree(Update(line, effect, s), next)
            && Unwound(Update(line, effect, s)) == if true in next then Unwound(s) else effect(line, Unwound(s))
  {
    FlagsAgree(line.kind, s, flags);
    DirectivesKeepUnwound(line.kind, s);
    EffectReaches(line, effect, UpdatePreprocessor(line.kind, s), Flags(line.kind, flags));
  }

  lemma {:induction false} UnwoundIsKept<L, B>(lines: seq<Line<L>>, effect: Effect<L, B>, stack: seq<B>)
    ensures var s := Run(lines, effect, State(stack, []));
            Agree(s, FlagsOf(lines)) && Unwound(s) == Kept(lines, effect, stack)
    decreases |lines|
  {
    if lines != [] {
      UnwoundIsKept(Init(lines), effect, stack);
      UpdateUnwound(Last(lines), effect, Run(Init(lines), effect, State(stack, [])), FlagsOf(Init(lines)));
    }
  }

  /** For every sequence of lines, well-nested or not: outside later branches the nesting stack is
      the one the kept lines alone would build, and inside one, that stack is what the `#endif`s
      will bring back. */
  lemma {:induction false} KeptLinesDecide<L, B>(lines: seq<Line<L>>, effect: Effect<L, B>, stack: seq<B>)
    ensures var s := Run(lines, effect, State(stack, []));
            && Unwound(s) == Kept(lines, effect, stack)
            && |s.pp| == |FlagsOf(lines)|
            && (true !in FlagsOf(lines) ==> s.stack == Kept(lines, effect, stack))
  {
    UnwoundIsKept(lines, effect, stack);
    if true !in FlagsOf(lines) { NoFlagNoChange(Run(lines, effect, State(stack, [])), FlagsOf(lines)); }
  }

  // ---------- Inside a later branch ----------

  /** In a later branch, too, the stack is what the branch makes of the stack before the `#if`,
      whatever the earlier branches did. */
  lemma LaterBranchStartsOver<L, B>(opening: L, first: Text<L>, others: Branches<L>, directive: L, text: Text<L>,
                                    effect: Effect<L, B>, s: State<B>)
    ensures var before := [Line(If, opening)] + (TextLines(first) + (BranchLines(others) + [Line(Else, directive)]));
            Run(before + TextLines(text), effect, s).stack ==
            Meaning(text, effect, effect(Line(Else, directive), s.stack))
  {
    var (open, other) := (Line(If, opening), Line(Else, directive));
    var before := [open] + (TextLines(first) + (BranchLines(others) + [other]));
    RunAppend(before, TextLines(text), effect, s);
    RunAppend([open], TextLines(first) + (BranchLines(others) + [other]), effect, s);
    RunOne(open, effect, s);
    var s1 := Update(open, effect, s);
    RunAppend(TextLines(first), BranchLines(others) + [other], effect, s1);
    FirstBranchesDecide(first, effect, s1);
    var s2 := State(Meaning(first, effect, s1.stack), s1.pp);
    RunAppend(BranchLines(others), [other], effect, s2);
    BranchesKeepBeforeIf(others, effect, s2);
    RunOne(other, effect, Run(BranchLines(others), effect, s2));
    FirstBranchesDecide(text, effect, Run(before, effect, s));
  }

  lemma {:induction false} BranchesKeepBeforeIf<L, B>(branches: Branches<L>, effect: Effect<L, B>, s: State<B>)
    requires s.pp != []
    ensures var t := Run(BranchLines(branches), effect, s);
            t.pp != [] && Last(t.pp).beforeIf == Last(s.pp).beforeIf
    decreases branches
  {
    match branches
    case NoBranch =>
    case Branch(directive, text, others) =>
      var line := Line(Else, directive);
      RunAppend([line], TextLines(text) + BranchLines(others), effect, s);
      RunOne(line, effect, s);
      var s1 := Update(line, effect, s);
      RunAppend(TextLines(text), BranchLines(others), effect, s1);
      FirstBranchesDecide(text, effect, s1);
      BranchesKeepBeforeIf(others, effect, State(Meaning(text, effect, s1.stack), s1.pp));
  }

  /** An open conditional: where its `#if` is, and its first `#else` if it has come. */
  datatype Place = Place(opening: nat, firstElse: Option<nat>)

  /** What the directive at index `n` does to the open conditionals. */
  function Moved(kind: Kind, n: nat, places: seq<Place>): seq<Place> {
    match kind
    case If => places + [Place(n, None)]
    case Else =>
      if places == [] || Last(places).firstElse.Some? then places
      else Init(places) + [Place(Last(places).opening, Some(n))]
    case Endif => if places == [] then [] else Init(places)
    case Plain => places
  }

  /** The conditionals still open after the lines. */
  function Places<L>(lines: seq<Line<L>>): (places: seq<Place>)
    ensures forall p | p in places :: p.opening < |lines| && (p.firstElse.Some? ==> p.firstElse.value < |lines|)
  {
    if lines == [] then [] else Moved(Last(lines).kind, |lines| - 1, Places(Init(lines)))
  }

  /** How many of the `n` lines before a directive still count when it comes: an `#else` drops its
      conditional's lines, and an `#endif` those from the first `#else` on. */
  function Counting(kind: Kind, n: nat, places: seq<Place>): nat {
    if places == [] then n
    else match kind
      case Else => Last(places).opening
      case Endif => if Last(places).firstElse.Some? then Last(places).firstElse.value else n
      case _ => n
  }

  /** The lines that make up the stack. */
  function Active<L>(lines: seq<Line<L>>): seq<Line<L>>
    decreases |lines|
  {
    if lines == [] then []
    else
      var places := Places(Init(lines));
      assert places != [] ==> Last(places) in places;
      Active(lines[..Counting(Last(lines).kind, |lines| - 1, places)]) + [Last(lines)]
  }

  /** The stack that the lines build if none of them is a directive. */
  function Built<L, B>(lines: seq<Line<L>>, effect: Effect<L, B>, stack: seq<B>): seq<B> {
    if lines == [] then stack else effect(Last(lines), Built(Init(lines), effect, stack))
  }

  /** The checkpoint holds the stacks before the conditional and before its first `#else`, where
      `built(k)` is the stack before line `k`. */
  ghost predicate Remembers<B>(c: Checkpoint<B>, p: Place, built: nat -> seq<B>) {
    && c.beforeIf == built(p.opening) && c.seenElse == p.firstElse.Some?
    && (p.firstElse.Some? ==> c.beforeElse == built(p.firstElse.value))
  }

  ghost predicate AllRemember<B>(pp: seq<Checkpoint<B>>, places: seq<Place>, built: nat -> seq<B>) {
    |pp| == |places| && forall j | 0 <= j < |pp| :: Remembers(pp[j], places[j], built)
  }

  /** What the directive test of line `n` leaves is what the lines that still count built. */
  lemma DirectiveRemembers<B>(kind: Kind, n: nat, s: State<B>, places: seq<Place>, built: nat -> seq<B>)
    requires s.stack == built(n) && AllRemember(s.pp, places, built)
    ensures var t := UpdatePreprocessor(kind, s);
            t.stack == built(Counting(kind, n, places)) && AllRemember(t.pp, Moved(kind, n, places), built)
  {
    if places != [] { assert Remembers(Last(s.pp), Last(places), built); }
  }

  function BuiltBefore<L, B>(lines: seq<Line<L>>, effect: Effect<L, B>, stack: seq<B>): nat -> seq<B> {
    (k: nat) => if k <= |lines| then Built(Active(lines[..k]), effect, stack) else stack
  }

  lemma AllRememberLater<L, B>(pp: seq<Checkpoint<B>>, lines: seq<Line<L>>, effect: Effect<L, B>, stack: seq<B>)
    requires lines != [] && AllRemember(pp, Places(Init(lines)), BuiltBefore(Init(lines), effect, stack))
    ensures AllRemember(pp, Places(Init(lines)), BuiltBefore(lines, effect, stack))
  {
    var places := Places(Init(lines));
    forall j | 0 <= j < |pp| ensures Remembers(pp[j], places[j], BuiltBefore(lines, effect, stack)) {
      var p := places[j];
      assert Remembers(pp[j], p, BuiltBefore(Init(lines), effect, stack)) && p in places;
      assert Init(lines)[..p.opening] == lines[..p.opening];
      assert p.firstElse.Some? ==> Init(lines)[..p.firstElse.value] == lines[..p.firstElse.value];
    }
  }

  lemma BuiltPush<L, B>(lines: seq<Line<L>>, effect: Effect<L, B>, stack: seq<B>)
    requires lines != []
    ensures var counting := Counting(Last(lines).kind, |lines| - 1, Places(Init(lines)));
            && counting < |lines|
            && Built(Active(lines), effect, stack) ==
               effect(Last(lines), BuiltBefore(lines, effect, stack)(counting))
  {
    var places := Places(Init(lines));
    assert places != [] ==> Last(places) in places;
    assert Init(Active(lines)) == Active(lines[..Counting(Last(lines).kind, |lines| - 1, places)]);
  }

  /** For every sequence of lines, well-nested or not, in every branch: the stack is the one the
      active lines alone would build. */
  lemma {:induction false} ActiveLinesDecide<L, B>(lines: seq<Line<L>>, effect: Effect<L, B>, stack: seq<B>)
    ensures var s := Run(lines, effect, State(stack, []));
            && s.stack == Built(Active(lines), effect, stack)
            && AllRemember(s.pp, Places(lines), BuiltBefore(lines, effect, stack))
    decreases |lines|
  {
    if lines != [] {
      var before := Init(lines);
      ActiveLinesDecide(before, effect, stack);
      var s := Run(before, effect, State(stack, []));
      AllRememberLater(s.pp, lines, effect, stack);
      assert before == lines[..|lines| - 1];
      DirectiveRemembers(Last(lines).kind, |before|, s, Places(before), BuiltBefore(lines, effect, stack));
      BuiltPush(lines, effect, stack);
    }
  }
}
