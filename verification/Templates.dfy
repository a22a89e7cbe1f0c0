/** What `CloseExpression` and `ReverseCloseExpression` find from an angle bracket. */
module Templates {
  import opened Brackets
  import opened Expressions
  import opened Options
  import opened ReverseExpressions

  // ---------- The regular expressions ----------

  /** `\s` and `\w` on ASCII, by code. */
  lemma Classes(ch: char)
    ensures IsSpace(ch) <==> 9 <= ch as int <= 13 || ch as int == 32
    ensures IsWord(ch) <==>
            48 <= ch as int <= 57 || 65 <= ch as int <= 90 || ch as int == 95 || 97 <= ch as int <= 122
  {}

  /** The word `operator` at `k`, and nothing but white space after it. */
  ghost predicate OperatorAt(s: string, k: nat) {
    && k + 8 <= |s| && s[k..k + 8] == "operator" && (k > 0 ==> !IsWord(s[k - 1]))
    && forall i | k + 8 <= i < |s| :: IsSpace(s[i])
  }

  lemma OperatorThenSpace(s: string, t: string, k: nat)
    requires s != "" && t == s[..|s| - 1] && IsSpace(s[|s| - 1])
    ensures OperatorAt(s, k) <==> OperatorAt(t, k)
  {
    if k + 8 <= |t| {
      assert s[k..k + 8] == t[k..k + 8];
    } else if k + 8 == |s| {
      assert s[k..k + 8][7] == s[|s| - 1];
    }
  }

  lemma OperatorAtEnd(s: string)
    requires s == "" || !IsSpace(s[|s| - 1])
    ensures EndsWithOperator(s) <==> |s| >= 8 && OperatorAt(s, |s| - 8)
    ensures forall k: nat | OperatorAt(s, k) :: k + 8 == |s|
  {
    assert Stripped(s) == s;
    if |s| >= 8 { assert s[|s| - 8..] == s[|s| - 8..|s| - 8 + 8]; }
    forall k: nat | OperatorAt(s, k) ensures k + 8 == |s| { NothingFollows(s, k); }
  }

  lemma NothingFollows(s: string, k: nat)
    requires OperatorAt(s, k) && !IsSpace(s[|s| - 1])
    ensures k + 8 == |s|
  {}

  /** `\boperator\s*$` */
  lemma {:induction false} OperatorIff(s: string)
    ensures EndsWithOperator(s) <==> exists k: nat :: OperatorAt(s, k)
    decreases |s|
  {
    if s != "" && IsSpace(s[|s| - 1]) {
      var t := s[..|s| - 1];
      OperatorIff(t);
      forall k: nat ensures OperatorAt(s, k) <==> OperatorAt(t, k) { OperatorThenSpace(s, t, k); }
    } else {
      OperatorAtEnd(s);
    }
  }

  /** `<[<=]` and `\s>=\s`, at a position. */
  lemma StartsIff(line: string, i: nat)
    requires i <= |line|
    ensures IsShiftOrLess(line[i..]) <==> HoldsAt(line, "<<", i) || HoldsAt(line, "<=", i)
    ensures IsSpacedGreater(line[i..]) <==>
            i + 4 <= |line| && IsSpace(line[i]) && HoldsAt(line, ">=", i + 1) && IsSpace(line[i + 3])
  {
    if i + 2 <= |line| { assert line[i..i + 2] == [line[i], line[i + 1]]; }
    if i + 4 <= |line| { assert line[i + 1..i + 3] == [line[i + 1], line[i + 2]]; }
  }

  predicate HoldsAt(line: string, s: string, i: nat) {
    i + |s| <= |line| && line[i..i + |s|] == s
  }

  lemma TwoHeld(line: string, s: string, i: nat)
    requires |s| == 2
    ensures HoldsAt(line, s, i) <==> i + 2 <= |line| && line[i] == s[0] && line[i + 1] == s[1]
  {
    if i + 2 <= |line| { assert line[i..i + 2] == [line[i], line[i + 1]]; }
  }

  /** The backward scan passes over the angle of an arrow, of a spaced `>=` or of `operator>`, and over
      a shift. */
  lemma SkipsIff(line: string, i: nat)
    requires 0 < i < |line|
    ensures Skips(line, i) <==>
            || HoldsAt(line, "->", i - 1) || HoldsAt(line, "<<", i - 1)
            || (line[i] == '>'
                && ((IsSpace(line[i - 1]) && HoldsAt(line, ">=", i) && i + 2 < |line| && IsSpace(line[i + 2]))
                    || exists k: nat :: OperatorAt(line[..i], k)))
  {
    TwoHeld(line, "->", i - 1);
    TwoHeld(line, "<<", i - 1);
    StartsIff(line, i - 1);
    OperatorIff(line[..i]);
  }

  /** Nothing is found from a character that opens or closes nothing. */
  lemma OnlyFromBrackets(lines: seq<string>, l: nat, pos: nat)
    requires Inside(lines, l, pos)
    ensures !IsOpen(lines[l][pos]) && lines[l][pos] != '<' ==> Close(lines, l, pos) == NotFound
    ensures !IsClose(lines[l][pos]) && lines[l][pos] != '>' ==> Open(lines, l, pos) == NotFound
  {}

  // ---------- What the scans look for ----------

  /** What closes an opening angle: its partner or, read forward, the second `<` of a shift, which
      tells that the first was none. */
  predicate IsCloser(ch: char) { ch == '>' || ch == '^' }

  /** Signs that are neither brackets nor angles nor the end of a statement. */
  predicate IsText(ch: char) { !IsOpen(ch) && !IsClose(ch) && ch != '<' && !IsCloser(ch) && ch != ';' }

  /** The grammar of template arguments: text, bracketed text in which angles do not count, and
      arguments in angles. */
  ghost predicate Args(w: string)
    decreases |w|, 1
  {
    || w == ""
    || (IsText(w[0]) && Args(w[1..]))
    || (exists k :: 0 < k < |w| && Group(w, k))
    || (exists k :: 0 < k < |w| && Angled(w, k))
  }

  ghost predicate Group(w: string, k: nat)
    requires 0 < k < |w|
    decreases |w|, 0
  {
    Pair(w[0], w[k]) && Balanced(w[1..k]) && Args(w[k + 1..])
  }

  ghost predicate Angled(w: string, k: nat)
    requires 0 < k < |w|
    decreases |w|, 0
  {
    w[0] == '<' && IsCloser(w[k]) && Args(w[1..k]) && Args(w[k + 1..])
  }

  /** Arguments between a pair of angles. */
  ghost predicate IsTemplate(w: string) {
    |w| >= 2 && w[0] == '<' && w[|w| - 1] == '>' && Args(w[1..|w| - 1])
  }

  // ---------- The stack that recognises them ----------

  datatype Reading = Shut | Stuck | Left(stack: seq<char>)

  /** One sign against the stack of open brackets and angles. */
  function TurnSign(ch: char, s: seq<char>): Reading {
    if IsOpen(ch) || ch == '<' then Left(s + [ch])
    else if IsClose(ch) then
      var rest := Unangled(s, '<');
      if rest == [] || !Pair(Top(rest), ch) then Stuck else if Popped(rest) == [] then Shut else Left(Popped(rest))
    else if IsCloser(ch) && s != [] && Top(s) == '<' then
      if Popped(s) != [] then Left(Popped(s)) else if ch == '>' then Shut else Stuck
    else if ch == ';' then (if Unangled(s, '<') == [] then Stuck else Left(Unangled(s, '<')))
    else Left(s)
  }

  /** Reading `w` from `s` empties the stack with the last sign. */
  predicate ShutsOn(w: string, s: seq<char>)
    decreases |w|
  {
    && w != ""
    && match TurnSign(w[0], s)
       case Stuck => false
       case Shut => |w| == 1
       case Left(t) => ShutsOn(w[1..], t)
  }

  function ReadSigns(w: string, s: seq<char>): Reading
    decreases |w|
  {
    if w == "" then Left(s)
    else match TurnSign(w[0], s)
      case Left(t) => ReadSigns(w[1..], t)
      case r => r
  }

  lemma {:induction false} ReadThenShut(a: string, b: string, s: seq<char>)
    requires ReadSigns(a, s).Left?
    ensures ShutsOn(a + b, s) <==> ShutsOn(b, ReadSigns(a, s).stack)
    ensures ReadSigns(a + b, s) == ReadSigns(b, ReadSigns(a, s).stack)
    decreases |a|
  {
    if a == "" {
      assert a + b == b;
    } else {
      assert (a + b)[1..] == a[1..] + b;
      ReadThenShut(a[1..], b, TurnSign(a[0], s).stack);
    }
  }

  /** Inside a bracket, pending angles do not matter. */
  predicate Under(s: seq<char>, base: seq<char>) { base != [] && Unangled(s, '<') == base }

  lemma {:induction false} UnangledTop(s: seq<char>)
    ensures var rest := Unangled(s, '<'); rest == [] || Top(rest) != '<'
    decreases |s|
  {
    if s != [] && Top(s) == '<' { UnangledTop(Popped(s)); }
  }

  lemma UnangledPush(s: seq<char>, ch: char)
    ensures Unangled(s + [ch], '<') == if ch == '<' then Unangled(s, '<') else s + [ch]
  {
    assert Popped(s + [ch]) == s;
  }

  lemma UnderTurn(ch: char, s: seq<char>, base: seq<char>)
    requires Under(s, base) && !IsOpen(ch) && !IsClose(ch)
    ensures TurnSign(ch, s).Left? && Under(TurnSign(ch, s).stack, base)
  {
    UnangledPush(s, '<');
    UnangledTop(s);
  }

  lemma GroupTurn(o: char, c: char, s: seq<char>, t: seq<char>)
    requires Pair(o, c) && s != [] && Under(t, s + [o])
    ensures TurnSign(c, t) == Left(s)
  {
    PoppedPush(s, o);
  }

  lemma SplitAt(w: string, k: nat)
    requires 0 < k < |w|
    ensures w == [w[0]] + (w[1..k] + ([w[k]] + w[k + 1..]))
  {}

  lemma {:induction false} BalancedStaysUnder(w: string, s: seq<char>, base: seq<char>)
    requires Balanced(w) && Under(s, base)
    ensures ReadSigns(w, s).Left? && Under(ReadSigns(w, s).stack, base)
    decreases |w|
  {
    if w == "" {
    } else if !IsOpen(w[0]) && !IsClose(w[0]) {
      UnderTurn(w[0], s, base);
      BalancedStaysUnder(w[1..], TurnSign(w[0], s).stack, base);
    } else {
      var k :| 0 < k < |w| && Encloses(w, k);
      GroupIsRead(w, k, s);
      BalancedStaysUnder(w[k + 1..], s, base);
    }
  }

  /** A bracketed text leaves the stack as it was. */
  lemma {:induction false} GroupIsRead(w: string, k: nat, s: seq<char>)
    requires 0 < k < |w| && Pair(w[0], w[k]) && Balanced(w[1..k]) && s != []
    ensures ReadSigns(w, s) == ReadSigns(w[k + 1..], s)
    decreases |w|, 0
  {
    var (o, c, inner, rest) := (w[0], w[k], w[1..k], w[k + 1..]);
    SplitAt(w, k);
    UnangledPush(s, o);
    BalancedStaysUnder(inner, s + [o], s + [o]);
    var t := ReadSigns(inner, s + [o]).stack;
    GroupTurn(o, c, s, t);
    ReadThenShut(inner, [c] + rest, s + [o]);
    assert w[1..] == inner + ([c] + rest) && ([c] + rest)[1..] == rest;
  }

  lemma {:induction false} ArgsAreNeutral(w: string, s: seq<char>)
    requires Args(w) && s != [] && Top(s) == '<'
    ensures ReadSigns(w, s) == Left(s)
    decreases |w|
  {
    if w == "" {
    } else if IsText(w[0]) && Args(w[1..]) {
      ArgsAreNeutral(w[1..], s);
    } else if k :| 0 < k < |w| && Group(w, k) {
      GroupIsRead(w, k, s);
      ArgsAreNeutral(w[k + 1..], s);
    } else if k :| 0 < k < |w| && Angled(w, k) {
      ArgsAreNeutral(w[1..k], s + ['<']);
      ArgsAreNeutral(w[k + 1..], s);
      AngledIsRead(w, k, s);
    }
  }

  lemma AngledIsRead(w: string, k: nat, s: seq<char>)
    requires 0 < k < |w| && w[0] == '<' && IsCloser(w[k]) && s != []
    requires ReadSigns(w[1..k], s + ['<']) == Left(s + ['<'])
    ensures ReadSigns(w, s) == ReadSigns(w[k + 1..], s)
  {
    var (inner, rest) := (w[1..k], w[k + 1..]);
    assert w[1..] == inner + ([w[k]] + rest) && ([w[k]] + rest)[1..] == rest;
    ReadThenShut(inner, [w[k]] + rest, s + ['<']);
    PoppedPush(s, '<');
  }

  lemma PoppedPush(s: seq<char>, ch: char)
    ensures Popped(s + [ch]) == s && Top(s + [ch]) == ch
  {}

  lemma PrefixParts(w: string, i: nat, k: nat)
    requires i + 2 <= k <= |w|
    ensures w[..k][1..i + 1] == w[1..][..i] && w[..k][i + 2..] == w[i + 2..][..k - i - 2]
  {}

  lemma BalancedGroup(w: string, i: nat, k: nat)
    requires i + 2 <= k <= |w| && Pair(w[0], w[i + 1]) && Balanced(w[1..][..i]) && Balanced(w[i + 2..][..k - i - 2])
    ensures Balanced(w[..k])
  {
    var v := w[..k];
    PrefixParts(w, i, k);
    assert Encloses(v, i + 1);
  }

  lemma BalancedText(w: string, k: nat)
    requires 0 < k <= |w| && !IsOpen(w[0]) && !IsClose(w[0]) && Balanced(w[1..][..k - 1])
    ensures Balanced(w[..k])
  {
    assert w[..k][1..] == w[1..][..k - 1];
  }

  /** The innermost bracket `o` is closed at `k`; the rest is read from `base`. */
  ghost predicate GroupEndsAt(w: string, base: seq<char>, o: char, k: nat) {
    k < |w| && Balanced(w[..k]) && Pair(o, w[k]) && ShutsOn(w[k + 1..], base)
  }

  lemma AfterGroup(w: string, i: nat, base: seq<char>, o: char, j: nat)
    requires i + 1 < |w| && Balanced(w[1..][..i]) && Pair(w[0], w[1..][i]) && GroupEndsAt(w[i + 2..], base, o, j)
    ensures GroupEndsAt(w, base, o, i + 2 + j)
  {
    assert w[i + 2..][j + 1..] == w[i + 2 + j + 1..];
    BalancedGroup(w, i, i + 2 + j);
  }

  lemma AfterText(w: string, base: seq<char>, o: char, j: nat)
    requires w != "" && !IsOpen(w[0]) && !IsClose(w[0]) && GroupEndsAt(w[1..], base, o, j)
    ensures GroupEndsAt(w, base, o, j + 1)
  {
    assert w[1..][j + 1..] == w[j + 2..];
    BalancedText(w, j + 1);
  }

  lemma AtClosing(w: string, t: seq<char>, base: seq<char>, o: char)
    requires ShutsOn(w, t) && Under(t, base + [o]) && base != [] && IsOpen(o) && IsClose(w[0])
    ensures GroupEndsAt(w, base, o, 0)
  {
    PoppedPush(base, o);
  }

  lemma DropTwice(w: string, i: nat)
    requires i + 1 < |w|
    ensures w[1..][i + 1..] == w[i + 2..]
  {}

  /** Where the innermost bracket is closed. */
  lemma {:induction false} GroupEnds(w: string, t: seq<char>, base: seq<char>, o: char) returns (k: nat)
    requires ShutsOn(w, t) && Under(t, base + [o]) && base != [] && IsOpen(o)
    ensures GroupEndsAt(w, base, o, k)
    decreases |w|
  {
    var ch := w[0];
    if IsClose(ch) {
      AtClosing(w, t, base, o);
      k := 0;
    } else if IsOpen(ch) {
      UnangledPush(t, ch);
      var i := GroupEnds(w[1..], t + [ch], t, ch);
      DropTwice(w, i);
      var j := GroupEnds(w[i + 2..], t, base, o);
      AfterGroup(w, i, base, o, j);
      k := i + 2 + j;
    } else {
      UnderTurn(ch, t, base + [o]);
      var j := GroupEnds(w[1..], TurnSign(ch, t).stack, base, o);
      AfterText(w, base, o, j);
      k := j + 1;
    }
  }

  predicate AllAngles(s: seq<char>) { forall i | 0 <= i < |s| :: s[i] == '<' }

  lemma {:induction false} NoBracketLeft(s: seq<char>)
    requires AllAngles(s)
    ensures Unangled(s, '<') == []
    decreases |s|
  {
    if s != [] { NoBracketLeft(Popped(s)); }
  }

  lemma ArgsText(w: string, k: nat)
    requires 0 < k <= |w| && IsText(w[0]) && Args(w[1..][..k - 1])
    ensures Args(w[..k])
  {
    assert w[..k][1..] == w[1..][..k - 1];
  }

  lemma ArgsGroup(w: string, i: nat, k: nat)
    requires i + 2 <= k <= |w| && Pair(w[0], w[i + 1]) && Balanced(w[1..][..i]) && Args(w[i + 2..][..k - i - 2])
    ensures Args(w[..k])
  {
    var v := w[..k];
    PrefixParts(w, i, k);
    assert Group(v, i + 1);
  }

  lemma ArgsAngled(w: string, i: nat, k: nat)
    requires i + 2 <= k <= |w| && w[0] == '<' && IsCloser(w[i + 1])
    requires Args(w[1..][..i]) && Args(w[i + 2..][..k - i - 2])
    ensures Args(w[..k])
  {
    var v := w[..k];
    PrefixParts(w, i, k);
    assert Angled(v, i + 1);
  }

  /** The arguments of the innermost angle end at `k`; `rest` is what is read after them. */
  ghost predicate EndAt(w: string, s: seq<char>, k: nat) {
    && k < |w| && Args(w[..k]) && IsCloser(w[k])
    && (if |s| == 1 then w[k] == '>' && k == |w| - 1 else |s| > 1 && ShutsOn(w[k + 1..], Popped(s)))
  }

  lemma EndAfterGroup(w: string, s: seq<char>, i: nat, j: nat)
    requires i + 1 < |w| && Pair(w[0], w[1..][i]) && Balanced(w[1..][..i]) && EndAt(w[i + 2..], s, j)
    ensures EndAt(w, s, i + 2 + j)
  {
    assert w[i + 2..][j + 1..] == w[i + 2 + j + 1..];
    ArgsGroup(w, i, i + 2 + j);
  }

  lemma EndAfterAngles(w: string, s: seq<char>, i: nat, j: nat)
    requires i + 1 < |w| && w[0] == '<' && IsCloser(w[1..][i]) && Args(w[1..][..i]) && EndAt(w[i + 2..], s, j)
    ensures EndAt(w, s, i + 2 + j)
  {
    assert w[i + 2..][j + 1..] == w[i + 2 + j + 1..];
    ArgsAngled(w, i, i + 2 + j);
  }

  lemma EndAfterText(w: string, s: seq<char>, j: nat)
    requires w != "" && IsText(w[0]) && EndAt(w[1..], s, j)
    ensures EndAt(w, s, j + 1)
  {
    assert w[1..][j + 1..] == w[j + 2..];
    ArgsText(w, j + 1);
  }

  lemma AtCloser(w: string, s: seq<char>)
    requires ShutsOn(w, s) && s != [] && AllAngles(s) && IsCloser(w[0])
    ensures EndAt(w, s, 0)
  {}

  lemma AtBracket(w: string, s: seq<char>) returns (i: nat)
    requires ShutsOn(w, s) && s != [] && AllAngles(s) && IsOpen(w[0])
    ensures GroupEndsAt(w[1..], s, w[0], i)
  {
    UnangledPush(s, w[0]);
    i := GroupEnds(w[1..], s + [w[0]], s, w[0]);
  }

  lemma NoEndHere(w: string, s: seq<char>)
    requires ShutsOn(w, s) && s != [] && AllAngles(s)
    ensures !IsClose(w[0]) && w[0] != ';'
  {
    NoBracketLeft(s);
  }

  /** Where the innermost angle is closed. */
  lemma {:induction false} ArgsEnd(w: string, s: seq<char>) returns (k: nat)
    requires ShutsOn(w, s) && s != [] && AllAngles(s)
    ensures EndAt(w, s, k)
    decreases |w|
  {
    NoEndHere(w, s);
    if IsCloser(w[0]) {
      AtCloser(w, s);
      k := 0;
    } else if IsText(w[0]) {
      var j := ArgsEnd(w[1..], s);
      EndAfterText(w, s, j);
      k := j + 1;
    } else if w[0] == '<' {
      var i := ArgsEnd(w[1..], s + ['<']);
      PoppedPush(s, '<');
      DropTwice(w, i);
      var j := ArgsEnd(w[i + 2..], s);
      EndAfterAngles(w, s, i, j);
      k := i + 2 + j;
    } else {
      var i := AtBracket(w, s);
      DropTwice(w, i);
      var j := ArgsEnd(w[i + 2..], s);
      EndAfterGroup(w, s, i, j);
      k := i + 2 + j;
    }
  }

  /** The stack recognises exactly the grammar. */
  lemma ShutsIsTemplate(w: string)
    requires w != "" && w[0] == '<'
    ensures IsTemplate(w) <==> ShutsOn(w[1..], ['<'])
  {
    var n := |w| - 1;
    if IsTemplate(w) {
      ArgsAreNeutral(w[1..n], ['<']);
      assert w[1..] == w[1..n] + ['>'];
      ReadThenShut(w[1..n], ['>'], ['<']);
    }
    if ShutsOn(w[1..], ['<']) {
      var k := ArgsEnd(w[1..], ['<']);
      assert w[1..][..k] == w[1..n];
    }
  }

  // ---------- Forward ----------

  /** What the forward scan takes a character for: a `>` after `-`, or one character after the word
      `operator`, is text, and so is a `<` after that word; the second `<` of a shift takes back the
      first. */
  function Sign(line: string, i: nat): char
    requires i < |line|
  {
    match line[i]
    case '<' =>
      if i > 0 && line[i - 1] == '<' then '^' else if i > 0 && EndsWithOperator(line[..i]) then ' ' else '<'
    case '>' => if i > 0 && (line[i - 1] == '-' || EndsWithOperator(line[..i - 1])) then ' ' else '>'
    case ch => if IsOpen(ch) || IsClose(ch) || ch == ';' then ch else ' '
  }

  function Signs(line: string): (signs: string)
    ensures |signs| == |line| && forall i | 0 <= i < |line| :: signs[i] == Sign(line, i)
  {
    seq(|line|, i requires 0 <= i < |line| => Sign(line, i))
  }

  function AllSigns(lines: seq<string>): (signs: seq<string>)
    ensures |signs| == |lines| && forall l | 0 <= l < |lines| :: signs[l] == Signs(lines[l])
  {
    seq(|lines|, l requires 0 <= l < |lines| => Signs(lines[l]))
  }

  /** The body of the forward scan's loop, on signs. */
  lemma EndCharTurns(line: string, i: nat, s: seq<char>)
    requires i < |line| && s != []
    ensures EndChar(line, i, s) ==
            match TurnSign(Sign(line, i), s)
            case Shut => Found(i + 1)
            case Stuck => Unclosed
            case Left(t) => Continue(t)
    ensures TurnSign(Sign(line, i), s).Left? ==> TurnSign(Sign(line, i), s).stack != []
  {}

  predicate ShutsAcross(signs: seq<string>, l: nat, i: nat, m: nat, e: nat, s: seq<char>) {
    Past(signs, l, i, m, e) && ShutsOn(Span(signs, l, i, m, e), s)
  }

  lemma ShutsOnStep(ch: char, v: string, s: seq<char>)
    ensures ShutsOn([ch] + v, s) <==>
            match TurnSign(ch, s)
            case Stuck => false
            case Shut => v == ""
            case Left(t) => ShutsOn(v, t)
  {
    assert ([ch] + v)[1..] == v;
  }

  lemma ShutsAcrossStep(signs: seq<string>, l: nat, i: nat, m: nat, e: nat, s: seq<char>)
    requires Inside(signs, l, i)
    ensures ShutsAcross(signs, l, i, m, e, s) <==>
            match TurnSign(signs[l][i], s)
            case Stuck => false
            case Shut => m == l && e == i + 1
            case Left(t) => ShutsAcross(signs, l, i + 1, m, e, t)
  {
    if Past(signs, l, i, m, e) {
      SpanStep(signs, l, i, m, e);
      ShutsOnStep(signs[l][i], Span(signs, l, i + 1, m, e), s);
    }
  }

  lemma ShutsAcrossNextLine(signs: seq<string>, l: nat, m: nat, e: nat, s: seq<char>)
    requires l < |signs|
    ensures ShutsAcross(signs, l, |signs[l]|, m, e, s) <==> ShutsAcross(signs, l + 1, 0, m, e, s)
  {
    if l < m < |signs| && e <= |signs[m]| {
      assert Span(signs, l, |signs[l]|, m, e) == Span(signs, l + 1, 0, m, e);
    }
  }

  lemma {:induction false} CloseShuts(lines: seq<string>, l: nat, i: nat, s: seq<char>, m: nat, e: nat)
    requires l < |lines| && i <= |lines[l]| && s != []
    ensures CloseFrom(lines, l, i, s) == At(m, e) <==> ShutsAcross(AllSigns(lines), l, i, m, e, s)
    decreases |lines| - l, |lines[l]| - i
  {
    var signs := AllSigns(lines);
    if i == |lines[l]| {
      ShutsAcrossNextLine(signs, l, m, e, s);
      if l + 1 < |lines| { CloseShuts(lines, l + 1, 0, s, m, e); }
    } else {
      ShutsAcrossStep(signs, l, i, m, e, s);
      EndCharTurns(lines[l], i, s);
      var r := TurnSign(Sign(lines[l], i), s);
      if r.Left? { CloseShuts(lines, l, i + 1, r.stack, m, e); }
    }
  }

  lemma AcrossIsTemplate(signs: seq<string>, l: nat, pos: nat, m: nat, e: nat)
    requires Past(signs, l, pos, m, e) && pos < |signs[l]| && signs[l][pos] == '<'
    ensures ShutsAcross(signs, l, pos + 1, m, e, ['<']) <==> IsTemplate(Span(signs, l, pos, m, e))
  {
    SpanStep(signs, l, pos, m, e);
    var v := Span(signs, l, pos + 1, m, e);
    assert (['<'] + v)[1..] == v;
    ShutsIsTemplate(['<'] + v);
  }

  /** From an opening angle `CloseExpression` finds the end of the template arguments, over any
      number of lines, and nothing if there is none or a shift or comparison starts there. */
  lemma {:induction false} CloseIsTemplate(lines: seq<string>, l: nat, pos: nat, m: nat, e: nat)
    requires Inside(lines, l, pos) && Sign(lines[l], pos) == '<'
    ensures Close(lines, l, pos) == At(m, e) <==>
            && !IsShiftOrLess(lines[l][pos..])
            && Past(lines, l, pos, m, e) && IsTemplate(Span(AllSigns(lines), l, pos, m, e))
  {
    AngleStarts(lines, l, pos);
    CloseShuts(lines, l, pos + 1, ['<'], m, e);
    if Past(lines, l, pos, m, e) { AcrossIsTemplate(AllSigns(lines), l, pos, m, e); }
  }

  lemma AngleStarts(lines: seq<string>, l: nat, pos: nat)
    requires Inside(lines, l, pos) && Sign(lines[l], pos) == '<'
    ensures Close(lines, l, pos) ==
            if IsShiftOrLess(lines[l][pos..]) then NotFound else CloseFrom(lines, l, pos + 1, ['<'])
  {
    assert EndChar(lines[l], pos, []) == Continue(['<']);
  }

  // ---------- Backward ----------

  function BackSign(ch: char): char {
    if IsOpen(ch) || IsClose(ch) || ch == '<' || ch == '>' || ch == ';' then ch else ' '
  }

  /** What the backward scan from position `n` takes the characters before it for: a `->`, a spaced
      `>=`, an `operator>` and a `<<` are text. */
  function BackSigns(line: string, n: nat): (signs: string)
    requires n <= |line|
    ensures |signs| == n && forall i | 0 <= i < n :: signs[i] != '^'
  {
    if n == 0 then ""
    else if Skips(line, n - 1) then BackSigns(line, n - 2) + "  "
    else BackSigns(line, n - 1) + [BackSign(line[n - 1])]
  }

  /** The signs of the lines up to position `n` of line `l`. */
  function AllBackSigns(lines: seq<string>, l: nat, n: nat): (signs: seq<string>)
    requires l < |lines| && n <= |lines[l]|
    ensures |signs| == l + 1 && IsBack(lines, signs, l, n) && |signs[l]| == n
  {
    seq(l + 1, k requires 0 <= k <= l => BackSigns(lines[k], if k < l then |lines[k]| else n))
  }

  predicate IsBack(lines: seq<string>, signs: seq<string>, l: nat, n: nat) {
    && l < |lines| && l < |signs| && n <= |lines[l]| && n <= |signs[l]| && signs[l][..n] == BackSigns(lines[l], n)
    && forall k | 0 <= k < l :: signs[k] == BackSigns(lines[k], |lines[k]|)
  }

  lemma {:induction false} UnangledSwapped(s: seq<char>)
    ensures Unangled(Swapped(s), '<') == Swapped(Unangled(s, '>'))
    decreases |s|
  {
    if s != [] {
      SwappedTop(s);
      if Top(s) == '>' { UnangledSwapped(Popped(s)); }
    }
  }

  lemma SwapTwice(ch: char)
    ensures Swap(Swap(ch)) == ch && (IsOpen(Swap(ch)) <==> IsClose(ch)) && (IsClose(Swap(ch)) <==> IsOpen(ch))
  {}

  lemma StartOpens(ch: char, s: seq<char>)
    requires IsOpen(ch) && s != []
    ensures var rest := Unangled(s, '>');
            TurnSign(Swap(ch), Swapped(s)) ==
            if rest == [] || !Pair(ch, Top(rest)) then Stuck
            else if Popped(rest) == [] then Shut else Left(Swapped(Popped(rest)))
  {
    UnangledSwapped(s);
    var rest := Unangled(s, '>');
    SwapTwice(ch);
    SwappedLength(rest);
    if rest != [] {
      SwappedTop(rest);
      SwapTwice(Top(rest));
      SwappedLength(Popped(rest));
    }
  }

  lemma StartCloses(ch: char, s: seq<char>)
    requires IsClose(ch) || ch == '>'
    ensures TurnSign(Swap(ch), Swapped(s)) == Left(Swapped(s + [ch]))
  {
    SwappedPush(s, ch);
    SwapTwice(ch);
  }

  lemma StartAngles(s: seq<char>)
    requires s != []
    ensures TurnSign('>', Swapped(s)) ==
            if Top(s) == '>' then (if Popped(s) == [] then Shut else Left(Swapped(Popped(s)))) else Left(Swapped(s))
  {
    SwappedTop(s);
    SwappedLength(Popped(s));
  }

  lemma StartStatement(s: seq<char>)
    ensures TurnSign(';', Swapped(s)) ==
            if Unangled(s, '>') == [] then Stuck else Left(Swapped(Unangled(s, '>')))
  {
    UnangledSwapped(s);
    SwappedLength(Unangled(s, '>'));
  }

  /** The body of the backward scan's loop, on signs. */
  lemma StartCharTurns(line: string, i: nat, s: seq<char>)
    requires i < |line| && s != []
    ensures var r := TurnSign(Swap(BackSign(line[i])), Swapped(s));
            match StartChar(line, i, s)
            case Found(p) => p == i && r == Shut
            case Unclosed => r == Stuck
            case Continue(t) => t != [] && r == Left(Swapped(t))
  {
    var ch := line[i];
    if IsOpen(ch) {
      StartOpens(ch, s);
    } else if IsClose(ch) || ch == '>' {
      StartCloses(ch, s);
    } else if ch == '<' {
      StartAngles(s);
    } else if ch == ';' {
      StartStatement(s);
    }
  }

  predicate ShutsBack(signs: seq<string>, m: nat, e: nat, l: nat, n: nat, s: seq<char>) {
    Before(signs, m, e, l, n) && ShutsOn(Mirror(Span(signs, m, e, l, n)), s)
  }

  lemma ShutsBackStep(signs: seq<string>, m: nat, e: nat, l: nat, n: nat, s: seq<char>)
    requires l < |signs| && 0 < n <= |signs[l]|
    ensures ShutsBack(signs, m, e, l, n, s) <==>
            match TurnSign(Swap(signs[l][n - 1]), s)
            case Stuck => false
            case Shut => m == l && e == n - 1
            case Left(t) => ShutsBack(signs, m, e, l, n - 1, t)
  {
    if Before(signs, m, e, l, n) {
      SpanLast(signs, m, e, l, n);
      var v := Span(signs, m, e, l, n - 1);
      MirrorLast(v, signs[l][n - 1]);
      ShutsOnStep(Swap(signs[l][n - 1]), Mirror(v), s);
    }
  }

  lemma ShutsPreviousLine(signs: seq<string>, m: nat, e: nat, l: nat, s: seq<char>)
    requires 0 < l < |signs|
    ensures ShutsBack(signs, m, e, l, 0, s) <==> ShutsBack(signs, m, e, l - 1, |signs[l - 1]|, s)
  {
    if m < l && e < |signs[m]| { SpanPreviousLine(signs, m, e, l); }
  }

  lemma SkippedSigns(signs: seq<string>, m: nat, e: nat, l: nat, n: nat, s: seq<char>)
    requires l < |signs| && 1 < n <= |signs[l]| && signs[l][n - 1] == signs[l][n - 2] == ' '
    ensures ShutsBack(signs, m, e, l, n, s) <==> ShutsBack(signs, m, e, l, n - 2, s)
  {
    ShutsBackStep(signs, m, e, l, n, s);
    ShutsBackStep(signs, m, e, l, n - 1, s);
  }

  lemma IsBackBefore(lines: seq<string>, signs: seq<string>, l: nat, n: nat)
    requires IsBack(lines, signs, l, n) && n > 0
    ensures var k := if Skips(lines[l], n - 1) then n - 2 else n - 1;
            && IsBack(lines, signs, l, k)
            && (k == n - 2 ==> signs[l][n - 1] == signs[l][n - 2] == ' ')
            && (k == n - 1 ==> signs[l][n - 1] == BackSign(lines[l][n - 1]))
  {
    var k := if Skips(lines[l], n - 1) then n - 2 else n - 1;
    var now := BackSigns(lines[l], n);
    assert signs[l][..k] == signs[l][..n][..k] && now[..k] == BackSigns(lines[l], k);
    assert signs[l][n - 1] == signs[l][..n][n - 1];
    if k == n - 2 { assert signs[l][n - 2] == signs[l][..n][n - 2]; }
  }

  lemma {:induction false} OpenShuts(lines: seq<string>, signs: seq<string>, m: nat, e: nat, l: nat, n: nat,
                                     s: seq<char>)
    requires IsBack(lines, signs, l, n) && s != []
    ensures OpenFrom(lines, l, n, s) == At(m, e) <==> ShutsBack(signs, m, e, l, n, Swapped(s))
    decreases l, n
  {
    if n == 0 {
      if l > 0 {
        var before := |lines[l - 1]|;
        assert signs[l - 1][..before] == signs[l - 1];
        ShutsPreviousLine(signs, m, e, l, Swapped(s));
        OpenShuts(lines, signs, m, e, l - 1, before, s);
      }
    } else {
      IsBackBefore(lines, signs, l, n);
      if Skips(lines[l], n - 1) {
        SkippedSigns(signs, m, e, l, n, Swapped(s));
        OpenShuts(lines, signs, m, e, l, n - 2, s);
      } else {
        ShutsBackStep(signs, m, e, l, n, Swapped(s));
        StartCharTurns(lines[l], n - 1, s);
        var r := StartChar(lines[l], n - 1, s);
        if r.Continue? { OpenShuts(lines, signs, m, e, l, n - 1, r.stack); }
      }
    }
  }

  // ---------- The grammar read from the right ----------

  predicate NoShift(w: string) { forall i | 0 <= i < |w| :: w[i] != '^' }

  lemma {:induction false} ArgsAppend(a: string, b: string)
    requires Args(a) && Args(b)
    ensures Args(a + b)
    decreases |a|
  {
    if a == "" {
      assert a + b == b;
    } else if IsText(a[0]) && Args(a[1..]) {
      ArgsAppend(a[1..], b);
      assert (a + b)[1..] == a[1..] + b;
    } else if k :| 0 < k < |a| && Group(a, k) {
      ArgsAppend(a[k + 1..], b);
      assert (a + b)[1..k] == a[1..k] && (a + b)[k + 1..] == a[k + 1..] + b;
      assert Group(a + b, k);
    } else if k :| 0 < k < |a| && Angled(a, k) {
      ArgsAppend(a[k + 1..], b);
      assert (a + b)[1..k] == a[1..k] && (a + b)[k + 1..] == a[k + 1..] + b;
      assert Angled(a + b, k);
    }
  }

  lemma EnclosedArgs(o: char, inner: string, c: string)
    requires |c| == 1
    requires (Pair(o, c[0]) && Balanced(inner)) || (o == '<' && c == ">" && Args(inner))
    ensures Args([o] + (inner + c))
  {
    var w := [o] + (inner + c);
    var k := |w| - 1;
    assert w[1..k] == inner && w[k + 1..] == "";
    if Pair(o, c[0]) { assert Group(w, k); } else { assert Angled(w, k); }
  }

  lemma {:induction false} MirrorArgs(w: string)
    requires Args(w) && NoShift(w)
    ensures Args(Mirror(w))
    decreases |w|
  {
    if w == "" {
    } else if IsText(w[0]) && Args(w[1..]) {
      MirrorArgs(w[1..]);
      assert [w[0]][1..] == "";
      ArgsAppend(Mirror(w[1..]), [w[0]]);
    } else if k :| 0 < k < |w| && Group(w, k) {
      MirrorArgs(w[k + 1..]);
      MirrorBalanced(w[1..k]);
      MirrorEnclosed(w, k);
      EnclosedArgs(Swap(w[k]), Mirror(w[1..k]), [Swap(w[0])]);
      ArgsAppend(Mirror(w[k + 1..]), [Swap(w[k])] + (Mirror(w[1..k]) + [Swap(w[0])]));
    } else if k :| 0 < k < |w| && Angled(w, k) {
      MirrorArgs(w[1..k]);
      MirrorArgs(w[k + 1..]);
      MirrorEnclosed(w, k);
      EnclosedArgs(Swap(w[k]), Mirror(w[1..k]), [Swap(w[0])]);
      ArgsAppend(Mirror(w[k + 1..]), [Swap(w[k])] + (Mirror(w[1..k]) + [Swap(w[0])]));
    }
  }

  lemma {:induction false} MirrorNoShift(w: string)
    requires NoShift(w)
    ensures NoShift(Mirror(w))
    decreases |w|
  {
    if w != "" { MirrorNoShift(w[1..]); }
  }

  lemma Bracketed(inner: string, none: string)
    requires none == "" && Args(inner)
    ensures IsTemplate(Mirror(none) + (['<'] + (inner + ['>'])))
  {
    var v := ['<'] + (inner + ['>']);
    assert Mirror(none) + v == v && v[1..|v| - 1] == inner;
  }

  lemma TemplateOfMirror(w: string)
    requires NoShift(w) && IsTemplate(w)
    ensures IsTemplate(Mirror(w))
  {
    var inner := w[1..|w| - 1];
    MirrorArgs(inner);
    MirrorEnclosed(w, |w| - 1);
    Bracketed(Mirror(inner), w[|w|..]);
  }

  lemma MirrorTemplate(w: string)
    requires NoShift(w)
    ensures IsTemplate(Mirror(w)) <==> IsTemplate(w)
  {
    MirrorNoShift(w);
    MirrorTwice(w);
    if IsTemplate(w) { TemplateOfMirror(w); }
    if IsTemplate(Mirror(w)) { TemplateOfMirror(Mirror(w)); }
  }

  lemma {:induction false} SpanNoShift(signs: seq<string>, m: nat, e: nat, l: nat, n: nat)
    requires m <= l < |signs| && e <= |signs[m]| && n <= |signs[l]| && (m == l ==> e <= n)
    requires forall k | 0 <= k < |signs| :: NoShift(signs[k])
    ensures NoShift(Span(signs, m, e, l, n))
    decreases l - m
  {
    if m < l { SpanNoShift(signs, m + 1, 0, l, n); }
  }

  lemma BackNoShift(lines: seq<string>, l: nat, n: nat)
    requires l < |lines| && n <= |lines[l]|
    ensures forall k | 0 <= k <= l :: NoShift(AllBackSigns(lines, l, n)[k])
  {
    var signs := AllBackSigns(lines, l, n);
    forall k | 0 <= k <= l ensures NoShift(signs[k]) {
      assert signs[k] == BackSigns(lines[k], if k < l then |lines[k]| else n);
    }
  }

  lemma ShutsBackIsTemplate(signs: seq<string>, m: nat, e: nat, l: nat, n: nat)
    requires Before(signs, m, e, l, n + 1) && signs[l][n] == '>'
    requires forall k | 0 <= k < |signs| :: NoShift(signs[k])
    ensures ShutsBack(signs, m, e, l, n, ['<']) <==> IsTemplate(Span(signs, m, e, l, n + 1))
  {
    SpanLast(signs, m, e, l, n + 1);
    var v := Span(signs, m, e, l, n);
    MirrorLast(v, '>');
    assert (['<'] + Mirror(v))[1..] == Mirror(v);
    ShutsIsTemplate(Mirror(v + ['>']));
    SpanNoShift(signs, m, e, l, n + 1);
    MirrorTemplate(v + ['>']);
  }

  lemma SwappedAngle()
    ensures Swapped(['>']) == ['<']
  {
    assert ['>'] == [] + ['>'];
    SwappedPush([], '>');
    assert Swap('>') == '<';
  }

  lemma AngleEnds(lines: seq<string>, l: nat, pos: nat)
    requires Inside(lines, l, pos) && lines[l][pos] == '>' && !Skips(lines[l], pos)
    ensures Open(lines, l, pos) == OpenFrom(lines, l, pos, ['>'])
  {
    assert StartChar(lines[l], pos, []) == Continue(['>']);
  }

  lemma OpenMeetsTemplate(lines: seq<string>, signs: seq<string>, l: nat, pos: nat, m: nat, e: nat)
    requires IsBack(lines, signs, l, pos) && pos < |signs[l]| && signs[l][pos] == '>'
    requires forall k | 0 <= k < |signs| :: NoShift(signs[k])
    ensures OpenFrom(lines, l, pos, ['>']) == At(m, e) <==>
            Before(signs, m, e, l, pos + 1) && IsTemplate(Span(signs, m, e, l, pos + 1))
  {
    OpenShuts(lines, signs, m, e, l, pos, ['>']);
    SwappedAngle();
    if Before(signs, m, e, l, pos + 1) { ShutsBackIsTemplate(signs, m, e, l, pos); }
  }

  /** From a closing angle `ReverseCloseExpression` finds the start of the template arguments, and
      nothing if there is none. */
  lemma {:induction false} OpenIsTemplate(lines: seq<string>, l: nat, pos: nat, m: nat, e: nat)
    requires Inside(lines, l, pos) && lines[l][pos] == '>' && !Skips(lines[l], pos)
    ensures var signs := AllBackSigns(lines, l, pos + 1);
            Open(lines, l, pos) == At(m, e) <==>
            Before(signs, m, e, l, pos + 1) && IsTemplate(Span(signs, m, e, l, pos + 1))
  {
    var signs := AllBackSigns(lines, l, pos + 1);
    IsBackBefore(lines, signs, l, pos + 1);
    AngleEnds(lines, l, pos);
    BackNoShift(lines, l, pos + 1);
    OpenMeetsTemplate(lines, signs, l, pos, m, e);
  }

  // ---------- Angles that open or close nothing ----------

  /** The first bracket or angle that opens something, with nothing but text and stray closing angles
      before it. */
  function NextOpening(line: string, i: nat): Option<nat>
    decreases |line| - i
  {
    if i >= |line| then None
    else
      var sign := Sign(line, i);
      if IsOpen(sign) || sign == '<' then Some(i)
      else if IsClose(sign) || sign == ';' then None
      else NextOpening(line, i + 1)
  }

  lemma EndCharOnNothing(line: string, i: nat)
    requires i < |line|
    ensures var sign := Sign(line, i);
            EndChar(line, i, []) ==
            if IsOpen(sign) || sign == '<' then Continue([line[i]])
            else if IsClose(sign) || sign == ';' then Unclosed
            else Continue([])
  {}

  lemma {:induction false} CloseFromNothing(lines: seq<string>, l: nat, i: nat)
    requires l < |lines| && i <= |lines[l]|
    ensures CloseFrom(lines, l, i, []) ==
            match NextOpening(lines[l], i)
            case None => NotFound
            case Some(j) => if j < |lines[l]| then CloseFrom(lines, l, j + 1, [lines[l][j]]) else NotFound
    decreases |lines[l]| - i
  {
    if i < |lines[l]| {
      EndCharOnNothing(lines[l], i);
      var sign := Sign(lines[l], i);
      if !IsOpen(sign) && sign != '<' && !IsClose(sign) && sign != ';' { CloseFromNothing(lines, l, i + 1); }
    }
  }

  /** From a `<` that opens nothing, the second of a shift or that of `operator<`, `CloseExpression`
      goes on to what next opens on the line. */
  lemma StrayAngleFindsNext(lines: seq<string>, l: nat, pos: nat)
    requires Inside(lines, l, pos) && lines[l][pos] == '<' && Sign(lines[l], pos) != '<'
    ensures Close(lines, l, pos) ==
            match NextOpening(lines[l], pos + 1)
            case Some(j) =>
              if IsShiftOrLess(lines[l][pos..]) || j >= |lines[l]| then NotFound
              else CloseFrom(lines, l, j + 1, [lines[l][j]])
            case None => NotFound
  {
    EndCharOnNothing(lines[l], pos);
    CloseFromNothing(lines, l, pos + 1);
    if !IsShiftOrLess(lines[l][pos..]) { assert Close(lines, l, pos) == CloseFrom(lines, l, pos + 1, []); }
  }

  /** The last bracket or angle before `n` that closes something, with nothing but text and stray
      opening angles after it. */
  function PreviousClosing(line: string, n: nat): (j: Option<nat>)
    requires n <= |line|
    ensures j.Some? ==> j.value < n
  {
    if n == 0 then None
    else if Skips(line, n - 1) then PreviousClosing(line, n - 2)
    else
      var ch := line[n - 1];
      if IsClose(ch) || ch == '>' then Some(n - 1)
      else if IsOpen(ch) || ch == ';' then None
      else PreviousClosing(line, n - 1)
  }

  /** From a `>` that closes nothing, `ReverseCloseExpression` goes on to what is last closed before
      it on the line. */
  lemma {:induction false} OpenFromNothing(lines: seq<string>, l: nat, n: nat)
    requires l < |lines| && n <= |lines[l]|
    ensures OpenFrom(lines, l, n, []) ==
            match PreviousClosing(lines[l], n)
            case None => NotFound
            case Some(j) => OpenFrom(lines, l, j, [lines[l][j]])
    decreases n
  {
    if n > 0 {
      var ch := lines[l][n - 1];
      if Skips(lines[l], n - 1) {
        OpenFromNothing(lines, l, n - 2);
      } else if !IsClose(ch) && ch != '>' && !IsOpen(ch) && ch != ';' {
        OpenFromNothing(lines, l, n - 1);
      } else {
        assert StartChar(lines[l], n - 1, []) == if IsClose(ch) || ch == '>' then Continue([ch]) else Unclosed;
      }
    }
  }

  // ---------- Ordinary text ----------

  predicate NestingPair(o: char, c: char) { Pair(o, c) || (o == '<' && c == '>') }

  /** Balanced in all four kinds of brackets, without the end of a statement. */
  ghost predicate Nested(w: string)
    decreases |w|, 1
  {
    || w == ""
    || (IsText(BackSign(w[0])) && Nested(w[1..]))
    || exists k :: 0 < k < |w| && NestedAt(w, k)
  }

  ghost predicate NestedAt(w: string, k: nat)
    requires 0 < k < |w|
    decreases |w|, 0
  {
    NestingPair(w[0], w[k]) && Nested(w[1..k]) && Nested(w[k + 1..])
  }

  ghost predicate FirstNested(w: string) {
    w != "" && Nested(w) && forall k | 0 < k < |w| :: !Nested(w[..k])
  }

  /** Every angle is a bracket. */
  function Plain(w: string): (signs: string)
    ensures |signs| == |w| && forall i | 0 <= i < |w| :: signs[i] == BackSign(w[i])
  {
    seq(|w|, i requires 0 <= i < |w| => BackSign(w[i]))
  }

  lemma PlainSlice(w: string, i: nat, j: nat)
    requires i <= j <= |w|
    ensures Plain(w)[i..j] == Plain(w[i..j])
  {}

  lemma PlainTail(w: string)
    requires w != ""
    ensures Plain(w)[1..] == Plain(w[1..])
  {}

  lemma BalancedAppend(a: string, b: string)
    requires Balanced(a) && Balanced(b)
    ensures Balanced(a + b)
  {
    StackIsGrammar(a);
    StackIsGrammar(b);
    ReadAppend(a, b, []);
    StackIsGrammar(a + b);
  }

  lemma BalancedInAngles(w: string, k: nat)
    requires 0 < k < |w| && w[0] == '<' && w[k] == '>' && Balanced(w[1..k]) && Balanced(w[k + 1..])
    ensures Balanced(w)
  {
    var rest := ['>'] + w[k + 1..];
    assert rest[1..] == w[k + 1..] && w[1..] == w[1..k] + rest;
    BalancedAppend(w[1..k], rest);
  }

  lemma PlainParts(w: string, k: nat)
    requires 0 < k < |w|
    ensures Plain(w)[1..k] == Plain(w[1..k]) && Plain(w)[k + 1..] == Plain(w[k + 1..])
  {
    PlainSlice(w, 1, k);
    PlainSlice(w, k + 1, |w|);
  }

  lemma {:induction false} NestedIsBalanced(w: string)
    requires Nested(w)
    ensures Balanced(Plain(w))
    decreases |w|
  {
    if w == "" {
    } else if IsText(BackSign(w[0])) && Nested(w[1..]) {
      NestedIsBalanced(w[1..]);
      PlainTail(w);
    } else if k :| 0 < k < |w| && NestedAt(w, k) {
      NestedIsBalanced(w[1..k]);
      NestedIsBalanced(w[k + 1..]);
      PlainParts(w, k);
      if w[0] == '<' { BalancedInAngles(Plain(w), k); } else { assert Encloses(Plain(w), k); }
    }
  }

  lemma {:induction false} NestedIsArgs(w: string)
    requires Nested(w)
    ensures Args(Plain(w))
    decreases |w|
  {
    if w == "" {
    } else if IsText(BackSign(w[0])) && Nested(w[1..]) {
      NestedIsArgs(w[1..]);
      PlainTail(w);
    } else if k :| 0 < k < |w| && NestedAt(w, k) {
      NestedIsBalanced(w[1..k]);
      NestedIsArgs(w[1..k]);
      NestedIsArgs(w[k + 1..]);
      PlainParts(w, k);
      if w[0] == '<' { assert Angled(Plain(w), k); } else { assert Group(Plain(w), k); }
    }
  }

  lemma AngleEnd(w: string) returns (k: nat)
    requires Nested(w) && w != "" && w[0] == '<'
    ensures 0 < k < |w| && NestedAt(w, k)
  {
    if j: nat :| 0 < j < |w| && NestedAt(w, j) {
      k := j;
    } else {
      assert false;
    }
  }

  lemma FirstNestedIsTemplate(w: string)
    requires FirstNested(w) && w[0] == '<'
    ensures IsTemplate(Plain(w))
  {
    var k := AngleEnd(w);
    var v := w[..k + 1];
    assert v[1..k] == w[1..k] && v[k + 1..] == "";
    assert NestedAt(v, k);
    assert k == |w| - 1 && w[..|w|] == w;
    NestedIsArgs(w[1..k]);
    PlainParts(w, k);
  }

  ghost predicate Holds(line: string, s: string) {
    exists i: nat :: HoldsAt(line, s, i)
  }

  /** The line holds no shift, no arrow, no spaced `>=` and not the word `operator`. */
  ghost predicate Ordinary(line: string) {
    && !Holds(line, "<<") && !Holds(line, "->") && !Holds(line, "operator")
    && forall i | 0 <= i <= |line| :: !IsSpacedGreater(line[i..])
  }

  lemma {:induction false} StrippedIsPrefix(s: string)
    ensures |Stripped(s)| <= |s| && Stripped(s) == s[..|Stripped(s)|]
    decreases |s|
  {
    if s != "" && IsSpace(s[|s| - 1]) { StrippedIsPrefix(s[..|s| - 1]); }
  }

  lemma OperatorIsHeld(line: string, i: nat)
    requires i <= |line| && EndsWithOperator(line[..i])
    ensures Holds(line, "operator")
  {
    var t := Stripped(line[..i]);
    StrippedIsPrefix(line[..i]);
    assert t == line[..|t|] && t[|t| - 8..] == line[|t| - 8..|t|];
    assert HoldsAt(line, "operator", |t| - 8);
  }

  lemma PairIsHeld(line: string, i: nat, s: string)
    requires 0 < i < |line| && |s| == 2 && line[i - 1] == s[0] && line[i] == s[1]
    ensures Holds(line, s)
  {
    assert HoldsAt(line, s, i - 1);
  }

  lemma OrdinaryAngle(line: string, i: nat)
    requires Ordinary(line) && i < |line|
    ensures Sign(line, i) == BackSign(line[i]) && !Skips(line, i)
  {
    if EndsWithOperator(line[..i]) { OperatorIsHeld(line, i); }
    if i > 0 {
      if EndsWithOperator(line[..i - 1]) { OperatorIsHeld(line, i - 1); }
      if line[i - 1] == '<' && line[i] == '<' { PairIsHeld(line, i, "<<"); }
      if line[i - 1] == '-' && line[i] == '>' { PairIsHeld(line, i, "->"); }
    }
  }

  lemma OrdinarySigns(line: string)
    requires Ordinary(line)
    ensures Signs(line) == Plain(line)
  {
    forall i | 0 <= i < |line| ensures Signs(line)[i] == Plain(line)[i] { OrdinaryAngle(line, i); }
  }

  lemma {:induction false} OrdinaryBackSigns(line: string, n: nat)
    requires Ordinary(line) && n <= |line|
    ensures BackSigns(line, n) == Plain(line)[..n]
    decreases n
  {
    if n > 0 {
      OrdinaryAngle(line, n - 1);
      OrdinaryBackSigns(line, n - 1);
      assert Plain(line)[..n] == Plain(line)[..n - 1] + [BackSign(line[n - 1])];
    }
  }

  /** Two texts that agree from `(l, pos)` to `(m, e)`. */
  lemma {:induction false} SpanSame(a: seq<string>, b: seq<string>, l: nat, pos: nat, m: nat, e: nat)
    requires l <= m < |a| && m < |b| && pos <= |a[l]| && e <= |a[m]| && e <= |b[m]| && (l == m ==> pos <= e)
    requires (forall k | l <= k < m :: a[k] == b[k]) && a[m][..e] == b[m][..e]
    ensures pos <= |b[l]| && Span(a, l, pos, m, e) == Span(b, l, pos, m, e)
    decreases m - l
  {
    if l < m {
      SpanSame(a, b, l + 1, 0, m, e);
    } else {
      assert a[m][pos..e] == a[m][..e][pos..] && b[m][pos..e] == b[m][..e][pos..];
    }
  }

  function AllPlain(lines: seq<string>): (signs: seq<string>)
    ensures |signs| == |lines| && forall l | 0 <= l < |lines| :: signs[l] == Plain(lines[l])
  {
    seq(|lines|, l requires 0 <= l < |lines| => Plain(lines[l]))
  }

  lemma {:induction false} SpanPlain(lines: seq<string>, l: nat, pos: nat, m: nat, e: nat)
    requires l <= m < |lines| && pos <= |lines[l]| && e <= |lines[m]| && (l == m ==> pos <= e)
    ensures Span(AllPlain(lines), l, pos, m, e) == Plain(Span(lines, l, pos, m, e))
    decreases m - l
  {
    if l == m {
      PlainSlice(lines[l], pos, e);
    } else {
      SpanPlain(lines, l + 1, 0, m, e);
      PlainSlice(lines[l], pos, |lines[l]|);
      PlainAppend(lines[l][pos..], Span(lines, l + 1, 0, m, e));
    }
  }

  lemma PlainAppend(a: string, b: string)
    ensures Plain(a + b) == Plain(a) + Plain(b)
  {}

  lemma OrdinarySpans(lines: seq<string>, l: nat, pos: nat, m: nat, e: nat)
    requires l <= m < |lines| && pos <= |lines[l]| && e <= |lines[m]| && (l == m ==> pos <= e)
    requires forall line | line in lines :: Ordinary(line)
    ensures Span(AllSigns(lines), l, pos, m, e) == Plain(Span(lines, l, pos, m, e))
    ensures pos <= |AllBackSigns(lines, m, e)[l]|
    ensures Span(AllBackSigns(lines, m, e), l, pos, m, e) == Plain(Span(lines, l, pos, m, e))
  {
    var (plain, signs, back) := (AllPlain(lines), AllSigns(lines), AllBackSigns(lines, m, e));
    forall k | l <= k <= m ensures signs[k] == plain[k] { OrdinarySigns(lines[k]); }
    SpanSame(signs, plain, l, pos, m, e);
    forall k | l <= k < m ensures plain[k] == back[k] {
      OrdinaryBackSigns(lines[k], |lines[k]|);
      assert plain[k][..|lines[k]|] == plain[k];
    }
    OrdinaryBackSigns(lines[m], e);
    SpanSame(plain, back, l, pos, m, e);
    SpanPlain(lines, l, pos, m, e);
  }

  /** In lines without shifts, arrows, spaced `>=` or the word `operator`, going from an opening angle
      to the end of its arguments and coming back from there are inverse; both find the arguments
      that the angles and brackets as they stand enclose. */
  lemma AnglesAreInverse(lines: seq<string>, l: nat, pos: nat, m: nat, e: nat)
    requires Inside(lines, l, pos) && Inside(lines, m, e) && lines[l][pos] == '<' && lines[m][e] == '>'
    requires (forall line | line in lines :: Ordinary(line)) && !IsShiftOrLess(lines[l][pos..])
    ensures Close(lines, l, pos) == At(m, e + 1) <==> Open(lines, m, e) == At(l, pos)
    ensures Close(lines, l, pos) == At(m, e + 1) <==>
            Past(lines, l, pos, m, e + 1) && IsTemplate(Plain(Span(lines, l, pos, m, e + 1)))
  {
    OrdinaryAngle(lines[l], pos);
    OrdinaryAngle(lines[m], e);
    CloseIsTemplate(lines, l, pos, m, e + 1);
    OpenIsTemplate(lines, m, e, l, pos);
    if Past(lines, l, pos, m, e + 1) { OrdinarySpans(lines, l, pos, m, e + 1); }
    BackIsBefore(lines, l, pos, m, e + 1);
  }

  lemma BackIsBefore(lines: seq<string>, l: nat, pos: nat, m: nat, n: nat)
    requires m < |lines| && 0 < n <= |lines[m]| && Inside(lines, l, pos)
    ensures Before(AllBackSigns(lines, m, n), l, pos, m, n) <==> Past(lines, l, pos, m, n)
  {}

  /** In such lines, the first text from an opening angle that is balanced in all four kinds of
      brackets is what both scans find. */
  lemma NestedIsFound(lines: seq<string>, l: nat, pos: nat, m: nat, e: nat)
    requires Inside(lines, l, pos) && lines[l][pos] == '<'
    requires (forall line | line in lines :: Ordinary(line)) && !IsShiftOrLess(lines[l][pos..])
    requires Past(lines, l, pos, m, e) && FirstNested(Span(lines, l, pos, m, e))
    ensures Close(lines, l, pos) == At(m, e) && Open(lines, m, e - 1) == At(l, pos)
  {
    SpanStep(lines, l, pos, m, e);
    SpanLast(lines, l, pos, m, e);
    FirstNestedIsTemplate(Span(lines, l, pos, m, e));
    AnglesAreInverse(lines, l, pos, m, e - 1);
  }

  lemma TextInAngles(line: string, e: nat)
    requires 2 < e < |line| && Sign(line, 1) == '<' && Sign(line, e) == '>' && line[2] != '<' && line[2] != '='
    requires forall i | 2 <= i < e :: Sign(line, i) == ' '
    ensures Close([line], 0, 1) == At(0, e + 1)
  {
    var (signs, w) := (AllSigns([line]), Signs(line)[1..e + 1]);
    assert Span(signs, 0, 1, 0, e + 1) == w;
    AllText(w[1..|w| - 1]);
    CloseIsTemplate([line], 0, 1, 0, e + 1);
  }

  lemma OperatorSigns(line: string)
    requires line == "a<operator>b>"
    ensures Sign(line, 1) == '<' && Sign(line, 10) == '>' && forall i | 2 <= i < 10 :: Sign(line, i) == ' '
  {
    assert Stripped(line[..9]) == line[..9] && line[..9][1] != "operator"[0];
    assert Stripped(line[..1]) == line[..1];
  }

  lemma {:induction false} AllText(w: string)
    requires forall ch | ch in w :: IsText(ch)
    ensures Args(w)
    decreases |w|
  {
    if w != "" {
      assert w[0] in w;
      AllText(w[1..]);
    }
  }

  lemma OperatorIsSkippedBack(line: string)
    requires line == "a<operator>b>"
    ensures Skips(line, 10)
  {
    assert Stripped(line[..10]) == line[..10] && line[..10][2..] == "operator";
  }

  /** The test for `operator>` looks one character too early: read forward, that angle closes a
      template, although it is passed over backward. */
  lemma OperatorGreaterCloses()
    ensures Close(["a<operator>b>"], 0, 1) == At(0, 11) && Skips("a<operator>b>", 10)
  {
    OperatorSigns("a<operator>b>");
    OperatorIsSkippedBack("a<operator>b>");
    TextInAngles("a<operator>b>", 10);
  }
}
