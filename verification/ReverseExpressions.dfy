/** The backward scan finds what the forward scan left, and the scan for the text inside a pair
    agrees with both. */
module ReverseExpressions {
  import opened Brackets
  import opened Expressions
  import opened Options

  /** `(m, e)` is at or after the first character of its line and before `(l, n)`. */
  predicate Before(lines: seq<string>, m: nat, e: nat, l: nat, n: nat) {
    m <= l < |lines| && e < |lines[m]| && n <= |lines[l]| && (m == l ==> e < n)
  }

  /** Read from its right end, the text from `(m, e)` to `(l, n)` is what it takes to empty `s`. */
  predicate ReachesBack(lines: seq<string>, m: nat, e: nat, l: nat, n: nat, s: seq<char>) {
    Before(lines, m, e, l, n) && ShutsAt(Mirror(Span(lines, m, e, l, n)), s)
  }

  lemma SpanLast(lines: seq<string>, m: nat, e: nat, l: nat, n: nat)
    requires Before(lines, m, e, l, n) && n > 0
    ensures var v := Span(lines, m, e, l, n - 1);
            && Span(lines, m, e, l, n) == v + [lines[l][n - 1]]
            && (v == "" <==> m == l && e == n - 1)
  {
    if m == l {
      assert lines[l][e..n] == lines[l][e..n - 1] + [lines[l][n - 1]];
    } else {
      SpanLastBelow(lines, m + 1, l, n);
      assert lines[m][e..] != "";
    }
  }

  lemma SpanLastBelow(lines: seq<string>, m: nat, l: nat, n: nat)
    requires m <= l < |lines| && 0 < n <= |lines[l]|
    ensures Span(lines, m, 0, l, n) == Span(lines, m, 0, l, n - 1) + [lines[l][n - 1]]
    decreases l - m
  {
    if m < l { SpanLastBelow(lines, m + 1, l, n); }
  }

  lemma SpanPreviousLine(lines: seq<string>, m: nat, e: nat, l: nat)
    requires m < l < |lines| && e <= |lines[m]|
    ensures Span(lines, m, e, l, 0) == Span(lines, m, e, l - 1, |lines[l - 1]|)
    decreases l - m
  {
    if m + 1 < l { SpanPreviousLine(lines, m + 1, 0, l); }
  }

  lemma MirrorLast(v: string, ch: char)
    ensures Mirror(v + [ch]) == [Swap(ch)] + Mirror(v)
    ensures Mirror(v) == "" <==> v == ""
  {
    MirrorAppend(v, [ch]);
    assert [ch][1..] == "";
    assert Mirror([ch]) == Mirror("") + [Swap(ch)];
  }

  lemma ReachesBackStep(lines: seq<string>, m: nat, e: nat, l: nat, n: nat, s: seq<char>)
    requires l < |lines| && 0 < n <= |lines[l]|
    ensures ReachesBack(lines, m, e, l, n, s) <==>
            match Turn(Swap(lines[l][n - 1]), s)
            case Clash => false
            case Ok(t) => if t == [] then m == l && e == n - 1 else ReachesBack(lines, m, e, l, n - 1, t)
  {
    if Before(lines, m, e, l, n) {
      SpanLast(lines, m, e, l, n);
      var v := Span(lines, m, e, l, n - 1);
      MirrorLast(v, lines[l][n - 1]);
      ShutsStep(Swap(lines[l][n - 1]), Mirror(v), s);
    }
  }

  lemma ReachesPreviousLine(lines: seq<string>, m: nat, e: nat, l: nat, s: seq<char>)
    requires 0 < l < |lines|
    ensures ReachesBack(lines, m, e, l, 0, s) <==> ReachesBack(lines, m, e, l - 1, |lines[l - 1]|, s)
  {
    if m < l && e < |lines[m]| { SpanPreviousLine(lines, m, e, l); }
  }

  predicate IsBracket(ch: char) { IsOpen(ch) || IsClose(ch) }

  lemma OperatorEndsPlain(s: string)
    requires EndsWithOperator(s)
    ensures s != "" && !IsBracket(s[|s| - 1])
  {
    if !IsSpace(s[|s| - 1]) {
      assert Stripped(s) == s;
      assert s[|s| - 8..][7] == "operator"[7];
    }
  }

  /** What the backward scan passes over in one go is no bracket. */
  lemma SkipsNoBracket(line: string, i: nat)
    requires i < |line| && Skips(line, i)
    ensures !IsBracket(line[i]) && !IsBracket(line[i - 1])
  {
    if line[i] == '>' && EndsWithOperator(line[..i]) { OperatorEndsPlain(line[..i]); }
  }

  lemma AwaitedKeepsBottom(stack: seq<char>)
    requires Grounded(stack, '>')
    ensures Awaited(stack) != []
  {
    CoreKeepsBottom(stack, '>');
  }

  lemma ReachesBackSkip(lines: seq<string>, m: nat, e: nat, l: nat, n: nat, s: seq<char>)
    requires l < |lines| && 0 < n <= |lines[l]| && Skips(lines[l], n - 1) && s != []
    ensures ReachesBack(lines, m, e, l, n, s) <==> ReachesBack(lines, m, e, l, n - 2, s)
  {
    SkipsNoBracket(lines[l], n - 1);
    ReachesBackStep(lines, m, e, l, n, s);
    ReachesBackStep(lines, m, e, l, n - 1, s);
  }

  lemma StartTurns(line: string, i: nat, stack: seq<char>)
    requires i < |line| && Grounded(stack, '>')
    ensures var read := Turn(Swap(line[i]), Awaited(stack));
            match StartChar(line, i, stack)
            case Found(p) => p == i && read == Ok([])
            case Unclosed => read == Clash
            case Continue(t) => Grounded(t, '>') && read == Ok(Awaited(t)) && Awaited(t) != []
  {
    if IsOpen(line[i]) { StartTurnsAtOpening(line, i, stack); } else { StartTurnsElsewhere(line, i, stack); }
    if StartChar(line, i, stack).Continue? { AwaitedKeepsBottom(StartChar(line, i, stack).stack); }
  }

  /** What one character not passed over means for both sides of `OpenMeets`. */
  lemma OpenStep(lines: seq<string>, m: nat, e: nat, l: nat, n: nat, stack: seq<char>)
    requires l < |lines| && 0 < n <= |lines[l]| && Grounded(stack, '>') && !Skips(lines[l], n - 1)
    ensures var scan := OpenFrom(lines, l, n, stack); var back := ReachesBack(lines, m, e, l, n, Awaited(stack));
            match StartChar(lines[l], n - 1, stack)
            case Continue(t) =>
              Grounded(t, '>') && scan == OpenFrom(lines, l, n - 1, t)
              && (back <==> ReachesBack(lines, m, e, l, n - 1, Awaited(t)))
            case _ => scan == At(m, e) <==> back
  {
    ReachesBackStep(lines, m, e, l, n, Awaited(stack));
    StartTurns(lines[l], n - 1, stack);
  }

  lemma {:induction false} OpenMeets(lines: seq<string>, m: nat, e: nat, l: nat, n: nat, stack: seq<char>)
    requires l < |lines| && n <= |lines[l]| && Grounded(stack, '>')
    ensures OpenFrom(lines, l, n, stack) == At(m, e) <==> ReachesBack(lines, m, e, l, n, Awaited(stack))
    decreases l, n
  {
    AwaitedKeepsBottom(stack);
    if n == 0 {
      if l > 0 {
        ReachesPreviousLine(lines, m, e, l, Awaited(stack));
        OpenMeets(lines, m, e, l - 1, |lines[l - 1]|, stack);
      }
    } else if Skips(lines[l], n - 1) {
      ReachesBackSkip(lines, m, e, l, n, Awaited(stack));
      OpenMeets(lines, m, e, l, n - 2, stack);
    } else {
      OpenStep(lines, m, e, l, n, stack);
      var scan := StartChar(lines[l], n - 1, stack);
      if scan.Continue? { OpenMeets(lines, m, e, l, n - 1, scan.stack); }
    }
  }

  lemma OpenStarts(lines: seq<string>, l: nat, pos: nat)
    requires Inside(lines, l, pos) && IsClose(lines[l][pos])
    ensures Open(lines, l, pos) == OpenFrom(lines, l, pos, [lines[l][pos]])
    ensures Awaited([lines[l][pos]]) == [Swap(lines[l][pos])]
  {
    AwaitedOne(lines[l][pos]);
    assert StartChar(lines[l], pos, []) == Continue([lines[l][pos]]);
  }

  lemma AwaitedOne(ch: char)
    requires IsClose(ch)
    ensures Awaited([ch]) == [Swap(ch)]
  {
    CorePush([], ch, '>');
    SwappedPush([], ch);
    assert [] + [ch] == [ch] && [] + [Swap(ch)] == [Swap(ch)];
  }

  lemma BackIsLastBalanced(lines: seq<string>, l: nat, pos: nat, m: nat, e: nat)
    requires Inside(lines, l, pos) && IsClose(lines[l][pos]) && Before(lines, m, e, l, pos + 1)
    ensures ReachesBack(lines, m, e, l, pos, [Swap(lines[l][pos])]) <==> LastBalanced(Span(lines, m, e, l, pos + 1))
  {
    var c := lines[l][pos];
    SpanLast(lines, m, e, l, pos + 1);
    var v := Span(lines, m, e, l, pos);
    MirrorLast(v, c);
    assert ([Swap(c)] + Mirror(v))[1..] == Mirror(v);
    ShutsIsFirst(Mirror(v + [c]));
    MirrorFirst(v + [c]);
  }

  /** From a closing bracket, `ReverseCloseExpression` finds the start of the last balanced text,
      and nothing if there is none. */
  lemma {:induction false} OpenIsLastBalanced(lines: seq<string>, l: nat, pos: nat, m: nat, e: nat)
    requires Inside(lines, l, pos) && IsClose(lines[l][pos])
    ensures Open(lines, l, pos) == At(m, e) <==>
            Before(lines, m, e, l, pos + 1) && LastBalanced(Span(lines, m, e, l, pos + 1))
  {
    OpenStarts(lines, l, pos);
    OpenMeets(lines, m, e, l, pos, [lines[l][pos]]);
    if Before(lines, m, e, l, pos + 1) { BackIsLastBalanced(lines, l, pos, m, e); }
  }

  // ---------- Forward and backward are inverse ----------

  /** Over any number of lines, going to the end of a bracketed text and coming back from its last
      character are inverse, in both directions. */
  lemma {:induction false} CloseAndOpenAreInverse(lines: seq<string>, l: nat, pos: nat, m: nat, e: nat)
    requires Inside(lines, l, pos) && Inside(lines, m, e)
    ensures IsOpen(lines[l][pos]) && Close(lines, l, pos) == At(m, e + 1) <==>
            IsClose(lines[m][e]) && Open(lines, m, e) == At(l, pos)
  {
    assert Past(lines, l, pos, m, e + 1) <==> Before(lines, l, pos, m, e + 1);
    if IsOpen(lines[l][pos]) { CloseIsFirstBalanced(lines, l, pos, m, e + 1); }
    if IsClose(lines[m][e]) { OpenIsLastBalanced(lines, m, e, l, pos); }
    if Past(lines, l, pos, m, e + 1) {
      SpanStep(lines, l, pos, m, e + 1);
      SpanLast(lines, l, pos, m, e + 1);
      var w := Span(lines, l, pos, m, e + 1);
      FirstIsLast(w);
      if FirstBalanced(w) { FirstEnds(w); }
    }
  }

  // ---------- The text inside a pair ----------

  /** The loop of `_GetTextInside`: where the expected closing brackets have all been met. */
  function InsideEnd(text: string, position: nat, expected: seq<char>): Option<nat>
    requires position <= |text|
    decreases |text| - position
  {
    if expected == [] then Some(position)
    else if position == |text| then None
    else
      var ch := text[position];
      if ch == Top(expected) then InsideEnd(text, position + 1, Popped(expected))
      else if IsClose(ch) then None
      else InsideEnd(text, position + 1, if IsOpen(ch) then expected + [Swap(ch)] else expected)
  }

  /** `start` is where the match of the caller's pattern ended. */
  method GetTextInside(text: string, start: nat) returns (inside: Option<string>)
    requires 0 < start <= |text| && IsOpen(text[start - 1])
    ensures match InsideEnd(text, start, [Swap(text[start - 1])])
      case None => inside == None
      case Some(e) => start < e <= |text| && inside == Some(text[start..e - 1])
  {
    var expected := [Swap(text[start - 1])];
    var position := start;
    while expected != [] && position < |text|
      invariant start <= position <= |text|
      invariant position == start ==> expected != []
      invariant InsideEnd(text, position, expected) == InsideEnd(text, start, [Swap(text[start - 1])])
      decreases |text| - position
    {
      var ch := text[position];
      if ch == expected[|expected| - 1] {
        expected := expected[..|expected| - 1];
      } else if ch == ')' || ch == '}' || ch == ']' {
        return None;
      } else if ch == '(' || ch == '{' || ch == '[' {
        expected := expected + [Swap(ch)];
      }
      position := position + 1;
    }
    if expected != [] { return None; }
    return Some(text[start..position - 1]);
  }

  predicate AllClose(s: seq<char>) { forall i | 0 <= i < |s| :: IsClose(s[i]) }

  lemma SwappedTop(s: seq<char>)
    requires s != []
    ensures |Swapped(s)| == |s| && Top(Swapped(s)) == Swap(Top(s)) && Popped(Swapped(s)) == Swapped(Popped(s))
  {
    SwappedLength(Popped(s));
  }

  lemma SwappedLength(s: seq<char>)
    ensures |Swapped(s)| == |s|
  {}

  lemma ShutsSlice(text: string, position: nat, s: seq<char>, e: nat)
    requires position < e <= |text|
    ensures ShutsAt(text[position..e], s) <==>
            match Turn(text[position], s)
            case Clash => false
            case Ok(t) => if t == [] then e == position + 1 else position + 1 < e && ShutsAt(text[position + 1..e], t)
  {
    assert text[position..e] == [text[position]] + text[position + 1..e];
    ShutsStep(text[position], text[position + 1..e], s);
  }

  lemma ExpectedTurns(ch: char, expected: seq<char>)
    requires expected != [] && AllClose(expected)
    ensures Turn(ch, Swapped(expected)) ==
            if ch == Top(expected) then Ok(Swapped(Popped(expected)))
            else if IsClose(ch) then Clash
            else Ok(Swapped(if IsOpen(ch) then expected + [Swap(ch)] else expected))
  {
    SwappedTop(expected);
    SwappedPush(expected, Swap(ch));
  }

  /** The expected closing brackets are the open ones, swapped. */
  lemma {:induction false} InsideMeets(text: string, position: nat, expected: seq<char>, e: nat)
    requires position <= |text| && expected != [] && AllClose(expected)
    ensures InsideEnd(text, position, expected) == Some(e) <==>
            position < e <= |text| && ShutsAt(text[position..e], Swapped(expected))
    decreases |text| - position
  {
    if position < |text| {
      var ch := text[position];
      ExpectedTurns(ch, expected);
      if position < e <= |text| { ShutsSlice(text, position, Swapped(expected), e); }
      if ch == Top(expected) {
        SwappedLength(Popped(expected));
        if Popped(expected) != [] { InsideMeets(text, position + 1, Popped(expected), e); }
      } else if !IsClose(ch) {
        var next := if IsOpen(ch) then expected + [Swap(ch)] else expected;
        SwappedLength(next);
        InsideMeets(text, position + 1, next, e);
      }
    }
  }

  lemma SwappedOne(ch: char, expected: seq<char>)
    requires IsOpen(ch) && expected == [Swap(ch)]
    ensures AllClose(expected) && Swapped(expected) == [ch]
  {
    SwappedPush([], Swap(ch));
  }

  lemma InsideEndIsClose(text: string, lines: seq<string>, start: nat, expected: seq<char>, e: nat)
    requires 0 < start <= |text| && IsOpen(text[start - 1])
    requires lines == [text] && expected == [Swap(text[start - 1])]
    ensures InsideEnd(text, start, expected) == Some(e) <==> Close(lines, 0, start - 1) == At(0, e)
  {
    SwappedOne(text[start - 1], expected);
    InsideMeets(text, start, expected, e);
    CloseStarts(lines, 0, start - 1);
    var open := Swapped(expected);
    CloseMeets(lines, 0, start, open, 0, e);
    if start < e <= |text| { assert Span(lines, 0, start, 0, e) == text[start..e]; }
  }

  /** On one line, the text inside a pair ends where `CloseExpression` says it does, and there is
      none when it finds nothing. */
  lemma {:induction false} InsideAgreesWithClose(text: string, start: nat)
    requires 0 < start <= |text| && IsOpen(text[start - 1])
    ensures Close([text], 0, start - 1) ==
            match InsideEnd(text, start, [Swap(text[start - 1])])
            case Some(e) => At(0, e)
            case None => NotFound
  {
    var (lines, expected) := ([text], [Swap(text[start - 1])]);
    match InsideEnd(text, start, expected)
    case Some(e) => InsideEndIsClose(text, lines, start, expected, e);
    case None =>
      match Close(lines, 0, start - 1)
      case NotFound =>
      case At(m, e) =>
        CloseIsFirstBalanced(lines, 0, start - 1, m, e);
        InsideEndIsClose(text, lines, start, expected, e);
  }
}
