/** The nesting stack as the objects of `cpplint.py`: lists of references to blocks that lines
    change in place, and checkpoints that hold copies of whole lists. */
module NestingStates {
  import opened Nesting

  /** `_BlockInfo` and its subclasses; `info` stands for all the fields of one. */
  class BlockInfo<B> {
    var info: B

    constructor (info: B)
      ensures this.info == info
    {
      this.info := info;
    }
  }

  /** `_PreprocessorInfo`: reached only through its place in the stack of checkpoints, so a value,
      but a value that holds references. */
  datatype PreprocessorInfo<!B> = PreprocessorInfo(
    stackBeforeIf: seq<BlockInfo<B>>, stackBeforeElse: seq<BlockInfo<B>>, seenElse: bool)

  ghost predicate Distinct<T>(list: seq<T>) {
    list == [] || (Last(list) !in Init(list) && Distinct(Init(list)))
  }

  ghost function Blocks<B>(list: seq<BlockInfo<B>>): set<BlockInfo<B>> { set b | b in list }

  ghost predicate Apart<T>(a: seq<T>, b: set<T>) { forall x | x in a :: x !in b }

  /** The blocks the checkpoints hold. */
  ghost function Held<B>(pps: seq<PreprocessorInfo<B>>): set<BlockInfo<B>> {
    if pps == [] then {} else Held(Init(pps)) + Blocks(Last(pps).stackBeforeIf) + Blocks(Last(pps).stackBeforeElse)
  }

  /** What a checkpoint will hand back shares no block with the checkpoints below it. */
  ghost predicate Separate<B>(pps: seq<PreprocessorInfo<B>>) {
    || pps == []
    || (&& Separate(Init(pps))
        && Distinct(Last(pps).stackBeforeElse)
        && Apart(Last(pps).stackBeforeElse, Held(Init(pps))))
  }

  function Infos<B>(list: seq<BlockInfo<B>>): seq<B>
    reads list
  {
    if list == [] then [] else Infos(Init(list)) + [Last(list).info]
  }

  ghost function Saved<B>(pps: seq<PreprocessorInfo<B>>): seq<Checkpoint<B>>
    reads Held(pps)
  {
    if pps == [] then []
    else
      var top := Last(pps);
      Saved(Init(pps)) + [Checkpoint(Infos(top.stackBeforeIf), Infos(top.stackBeforeElse), top.seenElse)]
  }

  lemma HeldAllocated<B>(pps: seq<PreprocessorInfo<B>>)
    ensures forall b | b in Held(pps) :: allocated(b)
  {}

  lemma HeldPush<B>(pps: seq<PreprocessorInfo<B>>, info: PreprocessorInfo<B>)
    requires Separate(pps) && Distinct(info.stackBeforeElse) && Apart(info.stackBeforeElse, Held(pps))
    ensures Separate(pps + [info])
    ensures Held(pps + [info]) == Held(pps) + Blocks(info.stackBeforeIf) + Blocks(info.stackBeforeElse)
    ensures Saved(pps + [info]) ==
            Saved(pps) + [Checkpoint(Infos(info.stackBeforeIf), Infos(info.stackBeforeElse), info.seenElse)]
  {
    InitOfAppend(pps, info);
  }

  lemma InitOfAppend<T>(s: seq<T>, x: T)
    ensures Init(s + [x]) == s && Last(s + [x]) == x
  {}

  /** `copy.deepcopy` of a list of blocks. */
  method DeepCopy<B>(list: seq<BlockInfo<B>>) returns (copy: seq<BlockInfo<B>>)
    ensures Distinct(copy) && forall b | b in copy :: fresh(b)
    ensures Infos(copy) == Infos(list)
  {
    copy := [];
    for i := 0 to |list|
      invariant Distinct(copy) && forall b | b in copy :: fresh(b)
      invariant Infos(copy) == Infos(list[..i])
    {
      var block := new BlockInfo(list[i].info);
      InitOfAppend(list[..i], list[i]);
      assert list[..i + 1] == list[..i] + [list[i]];
      InitOfAppend(copy, block);
      copy := copy + [block];
    }
    assert list[..|list|] == list;
  }

  /** What a line does to the stack of blocks: it pushes, pops and changes the block on top. */
  datatype Edit<B> = Push(block: B) | Pop | Change(block: B)

  function Edited<B>(edit: Edit<B>, stack: seq<B>): seq<B> {
    match edit
    case Push(b) => stack + [b]
    case Pop => if stack == [] then [] else Init(stack)
    case Change(b) => if stack == [] then [] else Init(stack) + [b]
  }

  function AllEdited<B>(edits: seq<Edit<B>>, stack: seq<B>): seq<B> {
    if edits == [] then stack else Edited(Last(edits), AllEdited(Init(edits), stack))
  }

  /** A pop takes back a push, a change replaces what was pushed, and nothing happens to an empty
      stack but a push. */
  lemma EditsOfTop<B>(stack: seq<B>, a: B, b: B)
    ensures Edited(Pop, Edited(Push(a), stack)) == stack
    ensures Edited(Change(b), Edited(Push(a), stack)) == Edited(Push(b), stack)
    ensures Edited(Push(a), stack) != [] && Last(Edited(Push(a), stack)) == a
    ensures Edited(Pop, []) == Edited(Change(b), []) == []
  {
    assert Init(stack + [a]) == stack;
  }

  lemma {:induction false} EditsInOrder<B>(first: seq<Edit<B>>, rest: seq<Edit<B>>, stack: seq<B>)
    ensures AllEdited(first + rest, stack) == AllEdited(rest, AllEdited(first, stack))
    decreases |rest|
  {
    if rest == [] {
      assert first + rest == first;
    } else {
      assert Init(first + rest) == first + Init(rest);
      EditsInOrder(first, Init(rest), stack);
    }
  }

  lemma OneEdit<B>(edit: Edit<B>, stack: seq<B>)
    ensures AllEdited([edit], stack) == Edited(edit, stack)
  {
    assert Init([edit]) == [];
  }

  /** The edits a line makes, from the line and the blocks on the stack. */
  type Plan<!L, !B> = (Line<L>, seq<B>) -> seq<Edit<B>>

  function EffectOf<L, B>(plan: Plan<L, B>): Effect<L, B> {
    (line, stack) => AllEdited(plan(line, stack), stack)
  }

  /** No block joins that was not made in the meantime. */
  twostate predicate Grown<B>(before: set<BlockInfo<B>>, new after: set<BlockInfo<B>>) {
    forall b | b in after :: b in before || fresh(b)
  }

  class NestingState<!B> {
    var stack: seq<BlockInfo<B>>
    var ppStack: seq<PreprocessorInfo<B>>

    /** The stack shares no block with any checkpoint. */
    ghost predicate Valid()
      reads this
    {
      Distinct(stack) && Separate(ppStack) && Apart(stack, Held(ppStack))
    }

    ghost function Repr(): set<BlockInfo<B>>
      reads this
    {
      Blocks(stack) + Held(ppStack)
    }

    ghost function Contents(): State<B>
      reads this, Repr()
    {
      State(Infos(stack), Saved(ppStack))
    }

    constructor ()
      ensures Valid() && Contents() == State([], [])
    {
      stack := [];
      ppStack := [];
    }

    method PushCheckpoint(info: PreprocessorInfo<B>)
      requires Valid() && Distinct(info.stackBeforeElse) && Apart(info.stackBeforeElse, Held(ppStack))
      requires Apart(stack, Blocks(info.stackBeforeIf)) && Apart(stack, Blocks(info.stackBeforeElse))
      modifies this`ppStack
      ensures Valid() && Repr() == old(Repr()) + Blocks(info.stackBeforeIf) + Blocks(info.stackBeforeElse)
      ensures ppStack == old(ppStack) + [info]
      ensures Contents() == old(Contents()).(pp := old(Contents()).pp
                + [Checkpoint(Infos(info.stackBeforeIf), Infos(info.stackBeforeElse), info.seenElse)])
    {
      HeldPush(ppStack, info);
      ppStack := ppStack + [info];
    }

    method PopCheckpoint() returns (top: PreprocessorInfo<B>)
      requires Valid() && ppStack != []
      modifies this`ppStack
      ensures Valid() && ppStack == Init(old(ppStack)) && top == Last(old(ppStack))
      ensures Repr() <= old(Repr()) && Blocks(top.stackBeforeIf) + Blocks(top.stackBeforeElse) <= old(Held(ppStack))
      ensures Distinct(top.stackBeforeElse) && Apart(top.stackBeforeElse, Held(ppStack))
      ensures var c := Checkpoint(Infos(top.stackBeforeIf), Infos(top.stackBeforeElse), top.seenElse);
              old(Contents()) == Contents().(pp := Contents().pp + [c])
    {
      var n := |ppStack| - 1;
      top := ppStack[n];
      var rest := ppStack[..n];
      assert rest == Init(ppStack) && Held(rest) <= Held(ppStack);
      ppStack := rest;
      assert Saved(rest) == old(Saved(rest));
    }

    /** At `#if`: saves a copy of the stack. */
    method BeginConditional()
      requires Valid()
      modifies this`ppStack
      ensures Valid() && Grown(old(Repr()), Repr())
      ensures Contents() == Nesting.UpdatePreprocessor(If, old(Contents()))
    {
      HeldAllocated(ppStack);
      var copy := DeepCopy(stack);
      PushCheckpoint(PreprocessorInfo(copy, [], false));
    }

    /** Stores a list in the last checkpoint. */
    method StoreBranch(copy: seq<BlockInfo<B>>)
      requires Valid() && ppStack != []
      requires Distinct(copy) && Apart(copy, Held(ppStack)) && Apart(stack, Blocks(copy))
      modifies this`ppStack
      ensures Valid() && Repr() <= old(Repr()) + Blocks(copy)
      ensures Contents() == old(Contents()).(pp := Init(old(Contents()).pp)
                + [Checkpoint(Last(old(Contents()).pp).beforeIf, Infos(copy), true)])
    {
      var top := PopCheckpoint();
      InitOfAppend(Saved(ppStack), Checkpoint(Infos(top.stackBeforeIf), Infos(top.stackBeforeElse), top.seenElse));
      PushCheckpoint(PreprocessorInfo(top.stackBeforeIf, copy, true));
    }

    /** At the first `#else` or `#elif`: remembers a copy of the stack. */
    method RememberBranch()
      requires Valid() && ppStack != [] && !Last(ppStack).seenElse
      modifies this`ppStack
      ensures Valid() && Grown(old(Repr()), Repr())
      ensures Contents() == old(Contents()).(pp := Init(old(Contents()).pp)
                + [Checkpoint(Last(old(Contents()).pp).beforeIf, Infos(stack), true)])
    {
      HeldAllocated(ppStack);
      var copy := DeepCopy(stack);
      StoreBranch(copy);
    }

    /** Restores a copy of the stack before the `#if`. */
    method RestoreBeforeIf()
      requires Valid() && ppStack != []
      modifies this`stack
      ensures Valid() && Grown(old(Repr()), Repr())
      ensures Contents() == old(Contents()).(stack := Last(old(Contents()).pp).beforeIf)
    {
      HeldAllocated(ppStack);
      stack := DeepCopy(ppStack[|ppStack| - 1].stackBeforeIf);
    }

    /** At `#endif`: takes back what was remembered, without a copy. */
    method EndConditional()
      requires Valid() && ppStack != []
      modifies this
      ensures Valid() && Grown(old(Repr()), Repr())
      ensures Contents() == Nesting.UpdatePreprocessor(Endif, old(Contents()))
    {
      var top := PopCheckpoint();
      InitOfAppend(Saved(ppStack), Checkpoint(Infos(top.stackBeforeIf), Infos(top.stackBeforeElse), top.seenElse));
      if top.seenElse { stack := top.stackBeforeElse; }
    }

    method UpdatePreprocessor(kind: Kind)
      requires Valid()
      modifies this
      ensures Valid() && Grown(old(Repr()), Repr())
      ensures Contents() == Nesting.UpdatePreprocessor(kind, old(Contents()))
    {
      match kind {
        case If => BeginConditional();
        case Else =>
          if ppStack != [] {
            if !ppStack[|ppStack| - 1].seenElse { RememberBranch(); }
            RestoreBeforeIf();
          }
        case Endif =>
          if ppStack != [] { EndConditional(); }
        case Plain =>
      }
    }

    method PushBlock(info: B)
      requires Valid()
      modifies this`stack
      ensures Valid() && Grown(old(Repr()), Repr())
      ensures Contents() == old(Contents()).(stack := Edited(Push(info), old(Contents().stack)))
    {
      HeldAllocated(ppStack);
      var block := new BlockInfo(info);
      InitOfAppend(stack, block);
      stack := stack + [block];
    }

    method PopBlock()
      requires Valid()
      modifies this`stack
      ensures Valid() && Grown(old(Repr()), Repr())
      ensures Contents() == old(Contents()).(stack := Edited(Pop, old(Contents().stack)))
    {
      if stack != [] { stack := stack[..|stack| - 1]; }
    }

    method ChangeTop(info: B)
      requires Valid()
      modifies this`stack, stack
      ensures Valid() && Grown(old(Repr()), Repr())
      ensures Contents() == old(Contents()).(stack := Edited(Change(info), old(Contents().stack)))
    {
      if stack != [] {
        stack[|stack| - 1].info := info;
        assert Infos(Init(stack)) == old(Infos(Init(stack))) && Saved(ppStack) == old(Saved(ppStack));
      }
    }

    method Apply(edit: Edit<B>)
      requires Valid()
      modifies this`stack, stack
      ensures Valid() && Grown(old(Repr()), Repr())
      ensures Contents() == old(Contents()).(stack := Edited(edit, old(Contents().stack)))
    {
      match edit {
        case Push(b) => PushBlock(b);
        case Pop => PopBlock();
        case Change(b) => ChangeTop(b);
      }
    }

    method ApplyAll(edits: seq<Edit<B>>)
      requires Valid()
      modifies this`stack, Repr()
      ensures Valid() && Grown(old(Repr()), Repr())
      ensures Contents() == old(Contents()).(stack := AllEdited(edits, old(Contents().stack)))
    {
      ghost var before := Contents();
      for i := 0 to |edits|
        invariant Valid() && Grown(old(Repr()), Repr())
        invariant Contents() == before.(stack := AllEdited(edits[..i], before.stack))
      {
        Apply(edits[i]);
        assert edits[..i + 1] == edits[..i] + [edits[i]];
      }
      assert edits[..|edits|] == edits;
    }

    method Update<L>(line: Line<L>, plan: Plan<L, B>)
      requires Valid()
      modifies this, Repr()
      ensures Valid() && Grown(old(Repr()), Repr())
      ensures Contents() == Nesting.Update(line, EffectOf(plan), old(Contents()))
    {
      UpdatePreprocessor(line.kind);
      var edits := plan(line, Infos(stack));
      ApplyAll(edits);
    }

    method UpdateAll<L>(lines: seq<Line<L>>, plan: Plan<L, B>)
      requires Valid()
      modifies this, Repr()
      ensures Valid() && Grown(old(Repr()), Repr())
      ensures Contents() == Run(lines, EffectOf(plan), old(Contents()))
    {
      for i := 0 to |lines|
        invariant Valid() && Grown(old(Repr()), Repr())
        invariant Contents() == Run(lines[..i], EffectOf(plan), old(Contents()))
      {
        Update(lines[i], plan);
        assert lines[..i + 1] == lines[..i] + [lines[i]];
      }
      assert lines[..|lines|] == lines;
    }
  }
}
