/** Bracket matching in `cpplint.py`: the forward scan, the backward scan and the scan for the
    text inside a pair, each with its guesses about `<`, `>` and `;`. */
module Expressions {
  import opened Brackets
  import opened Options

  /** What a scan of one line comes to: `(pos, None)`, `(-1, None)` or `(-1, stack)`. */
  datatype Scan = Found(pos: nat) | Unclosed | Continue(stack: seq<char>)

  /** A place in the file, or the marker for none. */
  datatype Place = At(line: nat, pos: nat) | NotFound

  // ---------- The regular expressions ----------

  predicate IsSpace(ch: char) { ch == ' ' || '\t' <= ch <= '\r' }

  predicate IsWord(ch: char) { 'a' <= ch <= 'z' || 'A' <= ch <= 'Z' || '0' <= ch <= '9' || ch == '_' }

  function Stripped(s: string): string {
    if s != "" && IsSpace(s[|s| - 1]) then Stripped(s[..|s| - 1]) else s
  }

  /** `\boperator\s*$` */
  predicate EndsWithOperator(s: string) {
    var t := Stripped(s);
    && |t| >= 8 && t[|t| - 8..] == "operator"
    && (|t| == 8 || !IsWord(t[|t| - 9]))
  }

  /** `<[<=]`, at the beginning */
  predicate IsShiftOrLess(s: string) {
    |s| >= 2 && s[0] == '<' && (s[1] == '<' || s[1] == '=')
  }

  /** `\s>=\s`, at the beginning */
  predicate IsSpacedGreater(s: string) {
    |s| >= 4 && IsSpace(s[0]) && s[1] == '>' && s[2] == '=' && IsSpace(s[3])
  }

  // ---------- One character ----------

  /** Drops pending `angle`s: they were operators. */
  function Unangled(stack: seq<char>, angle: char): seq<char> {
    if stack != [] && stack[|stack| - 1] == angle then Unangled(stack[..|stack| - 1], angle) else stack
  }

  function Top(stack: seq<char>): char
    requires stack != []
  { stack[|stack| - 1] }

  function Popped(stack: seq<char>): seq<char>
    requires stack != []
  { stack[..|stack| - 1] }

  /** The body of the loop of `FindEndOfExpressionInLine`. */
  function EndChar(line: string, i: nat, stack: seq<char>): Scan
    requires i < |line|
  {
    var ch := line[i];
    if IsOpen(ch) then Continue(stack + [ch])
    else if ch == '<' then
      if i > 0 && line[i - 1] == '<' then
        if stack != [] && Top(stack) == '<' then
          if Popped(stack) == [] then Unclosed else Continue(Popped(stack))
        else Continue(stack)
      else if i > 0 && EndsWithOperator(line[..i]) then Continue(stack)
      else Continue(stack + ['<'])
    else if IsClose(ch) then
      var rest := Unangled(stack, '<');
      if rest == [] || !Pair(Top(rest), ch) then Unclosed
      else if Popped(rest) == [] then Found(i + 1)
      else Continue(Popped(rest))
    else if ch == '>' then
      if i > 0 && (line[i - 1] == '-' || EndsWithOperator(line[..i - 1])) then Continue(stack)
      else if stack != [] && Top(stack) == '<' then
        if Popped(stack) == [] then Found(i + 1) else Continue(Popped(stack))
      else Continue(stack)
    else if ch == ';' then
      var rest := Unangled(stack, '<');
      if rest == [] then Unclosed else Continue(rest)
    else Continue(stack)
  }

  /** A `>` that is part of `->`, `>=` or `operator>`, or the second `<` of a shift: the backward
      scan passes over it and the character before it. */
  predicate Skips(line: string, i: nat)
    requires i < |line|
  {
    && i > 0
    && match line[i]
       case '>' => line[i - 1] == '-' || IsSpacedGreater(line[i - 1..]) || EndsWithOperator(line[..i])
       case '<' => line[i - 1] == '<'
       case _ => false
  }

  /** The body of the loop of `FindStartOfExpressionInLine` for a character not passed over. */
  function StartChar(line: string, i: nat, stack: seq<char>): Scan
    requires i < |line|
  {
    var ch := line[i];
    if IsClose(ch) then Continue(stack + [ch])
    else if ch == '>' then Continue(stack + ['>'])
    else if ch == '<' then
      if stack != [] && Top(stack) == '>' then
        if Popped(stack) == [] then Found(i) else Continue(Popped(stack))
      else Continue(stack)
    else if IsOpen(ch) then
      var rest := Unangled(stack, '>');
      if rest == [] || !Pair(ch, Top(rest)) then Unclosed
      else if Popped(rest) == [] then Found(i)
      else Continue(Popped(rest))
    else if ch == ';' then
      var rest := Unangled(stack, '>');
      if rest == [] then Unclosed else Continue(rest)
    else Continue(stack)
  }

  // ---------- One line ----------

  function EndScan(line: string, i: nat, stack: seq<char>): Scan
    decreases |line| - i
  {
    if i >= |line| then Continue(stack)
    else match EndChar(line, i, stack)
      case Found(p) => Found(p)
      case Unclosed => Unclosed
      case Continue(t) => EndScan(line, i + 1, t)
  }

  /** The backward scan of the first `n` characters. */
  function StartScan(line: string, n: nat, stack: seq<char>): Scan
    requires n <= |line|
    decreases n
  {
    if n == 0 then Continue(stack)
    else if Skips(line, n - 1) then StartScan(line, n - 2, stack)
    else match StartChar(line, n - 1, stack)
      case Found(p) => Found(p)
      case Unclosed => Unclosed
      case Continue(t) => StartScan(line, n - 1, t)
  }

  function Encoded(scan: Scan): (int, Option<seq<char>>) {
    match scan
    case Found(p) => (p as int, None)
    case Unclosed => (-1, None)
    case Continue(t) => (-1, Some(t))
  }

  method DropAngles(stack: seq<char>, angle: char) returns (rest: seq<char>)
    ensures rest == Unangled(stack, angle)
  {
    rest := stack;
    while rest != [] && rest[|rest| - 1] == angle
      invariant Unangled(rest, angle) == Unangled(stack, angle)
    {
      rest := rest[..|rest| - 1];
    }
  }

  method FindEndOfExpressionInLine(line: string, startpos: nat, stack: seq<char>)
    returns (pos: int, rest: Option<seq<char>>)
    ensures (pos, rest) == Encoded(EndScan(line, startpos, stack))
  {
    var open := stack;
    var i := startpos;
    while i < |line|
      invariant EndScan(line, i, open) == EndScan(line, startpos, stack)
    {
      var ch := line[i];
      if ch == '(' || ch == '[' || ch == '{' {
        open := open + [ch];
      } else if ch == '<' {
        if i > 0 && line[i - 1] == '<' {
          if open != [] && open[|open| - 1] == '<' {
            open := open[..|open| - 1];
            if open == [] { return -1, None; }
          }
        } else if i > 0 && EndsWithOperator(line[..i]) {
        } else {
          open := open + ['<'];
        }
      } else if ch == ')' || ch == ']' || ch == '}' {
        open := DropAngles(open, '<');
        if open == [] { return -1, None; }
        if Pair(open[|open| - 1], ch) {
          open := open[..|open| - 1];
          if open == [] { return i + 1, None; }
        } else {
          return -1, None;
        }
      } else if ch == '>' {
        if i > 0 && (line[i - 1] == '-' || EndsWithOperator(line[..i - 1])) {
        } else if open != [] && open[|open| - 1] == '<' {
          open := open[..|open| - 1];
          if open == [] { return i + 1, None; }
        }
      } else if ch == ';' {
        open := DropAngles(open, '<');
        if open == [] { return -1, None; }
      }
      i := i + 1;
    }
    return -1, Some(open);
  }

  method FindStartOfExpressionInLine(line: string, endpos: int, stack: seq<char>)
    returns (pos: int, rest: Option<seq<char>>)
    requires -1 <= endpos < |line|
    ensures (pos, rest) == Encoded(StartScan(line, endpos + 1, stack))
  {
    var open := stack;
    var i := endpos;
    while i >= 0
      invariant -1 <= i < |line|
      invariant StartScan(line, i + 1, open) == StartScan(line, endpos + 1, stack)
    {
      var ch := line[i];
      if ch == ')' || ch == ']' || ch == '}' {
        open := open + [ch];
      } else if ch == '>' {
        if i > 0 && (line[i - 1] == '-' || IsSpacedGreater(line[i - 1..]) || EndsWithOperator(line[..i])) {
          i := i - 1;
        } else {
          open := open + ['>'];
        }
      } else if ch == '<' {
        if i > 0 && line[i - 1] == '<' {
          i := i - 1;
        } else if open != [] && open[|open| - 1] == '>' {
          open := open[..|open| - 1];
          if open == [] { return i, None; }
        }
      } else if ch == '(' || ch == '[' || ch == '{' {
        open := DropAngles(open, '>');
        if open == [] { return -1, None; }
        if Pair(ch, open[|open| - 1]) {
          open := open[..|open| - 1];
          if open == [] { return i, None; }
        } else {
          return -1, None;
        }
      } else if ch == ';' {
        open := DropAngles(open, '>');
        if open == [] { return -1, None; }
      }
      i := i - 1;
    }
    return -1, Some(open);
  }

  // ---------- The whole file ----------

  function CloseFrom(lines: seq<string>, l: nat, i: nat, stack: seq<char>): Place
    requires l < |lines|
    decreases |lines| - l
  {
    match EndScan(lines[l], i, stack)
    case Found(p) => At(l, p)
    case Unclosed => NotFound
    case Continue(t) => if t == [] || l + 1 == |lines| then NotFound else CloseFrom(lines, l + 1, 0, t)
  }

  function OpenFrom(lines: seq<string>, l: nat, n: nat, stack: seq<char>): Place
    requires l < |lines| && n <= |lines[l]|
    decreases l
  {
    match StartScan(lines[l], n, stack)
    case Found(p) => At(l, p)
    case Unclosed => NotFound
    case Continue(t) => if t == [] || l == 0 then NotFound else OpenFrom(lines, l - 1, |lines[l - 1]|, t)
  }

  predicate Inside(lines: seq<string>, l: nat, pos: nat) {
    l < |lines| && pos < |lines[l]|
  }

  function Close(lines: seq<string>, l: nat, pos: nat): Place
    requires Inside(lines, l, pos)
  {
    if !(IsOpen(lines[l][pos]) || lines[l][pos] == '<') || IsShiftOrLess(lines[l][pos..]) then NotFound
    else CloseFrom(lines, l, pos, [])
  }

  function Open(lines: seq<string>, l: nat, pos: nat): Place
    requires Inside(lines, l, pos)
  {
    if IsClose(lines[l][pos]) || lines[l][pos] == '>' then OpenFrom(lines, l, pos + 1, [])
    else NotFound
  }

  method CloseExpression(lines: seq<string>, linenum: nat, pos: nat) returns (line: string, end: nat, endPos: int)
    requires Inside(lines, linenum, pos)
    ensures match Close(lines, linenum, pos)
      case At(m, e) => m < |lines| && end == m && endPos == e && line == lines[m]
      case NotFound => end == |lines| && endPos == -1 && line in lines
  {
    line := lines[linenum];
    if (line[pos] != '(' && line[pos] != '{' && line[pos] != '[' && line[pos] != '<') || IsShiftOrLess(line[pos..]) {
      return line, |lines|, -1;
    }
    var l := linenum;
    var stack;
    endPos, stack := FindEndOfExpressionInLine(line, pos, []);
    if endPos > -1 { return line, l, endPos; }
    while stack != None && stack.value != [] && l < |lines| - 1
      invariant l < |lines| && line == lines[l]
      invariant Close(lines, linenum, pos) ==
                (match stack
                 case None => NotFound
                 case Some(t) => if t == [] || l + 1 == |lines| then NotFound else CloseFrom(lines, l + 1, 0, t))
      decreases |lines| - l
    {
      l := l + 1;
      line := lines[l];
      endPos, stack := FindEndOfExpressionInLine(line, 0, stack.value);
      if endPos > -1 { return line, l, endPos; }
    }
    return line, |lines|, -1;
  }

  method ReverseCloseExpression(lines: seq<string>, linenum: nat, pos: nat)
    returns (line: string, start: nat, startPos: int)
    requires Inside(lines, linenum, pos)
    ensures match Open(lines, linenum, pos)
      case At(m, s) => m < |lines| && start == m && startPos == s && line == lines[m]
      case NotFound => start == 0 && startPos == -1 && line in lines
  {
    line := lines[linenum];
    if line[pos] != ')' && line[pos] != '}' && line[pos] != ']' && line[pos] != '>' {
      return line, 0, -1;
    }
    var l := linenum;
    var stack;
    startPos, stack := FindStartOfExpressionInLine(line, pos, []);
    if startPos > -1 { return line, l, startPos; }
    while stack != None && stack.value != [] && l > 0
      invariant l < |lines| && line == lines[l]
      invariant Open(lines, linenum, pos) ==
                (match stack
                 case None => NotFound
                 case Some(t) => if t == [] || l == 0 then NotFound else OpenFrom(lines, l - 1, |lines[l - 1]|, t))
      decreases l
    {
      l := l - 1;
      line := lines[l];
      startPos, stack := FindStartOfExpressionInLine(line, |line| - 1, stack.value);
      if startPos > -1 { return line, l, startPos; }
    }
    return line, 0, -1;
  }

  // ---------- What the scans look for ----------

  /** The text from `pos` of line `l` up to, not including, position `e` of line `m`. */
  function Span(lines: seq<string>, l: nat, pos: nat, m: nat, e: nat): string
    requires l <= m < |lines| && pos <= |lines[l]| && e <= |lines[m]| && (l == m ==> pos <= e)
    decreases m - l
  {
    if l == m then lines[l][pos..e] else lines[l][pos..] + Span(lines, l + 1, 0, m, e)
  }

  /** `(m, e)` lies just past a character at or after `(l, pos)`. */
  predicate Past(lines: seq<string>, l: nat, pos: nat, m: nat, e: nat) {
    l <= m < |lines| && pos <= |lines[l]| && 0 < e <= |lines[m]| && (l == m ==> pos < e)
  }

  lemma SpanLonger(lines: seq<string>, l: nat, pos: nat, m: nat, e: nat)
    requires Past(lines, l, pos, m, e) && l < m
    ensures |Span(lines, l, pos, m, e)| >= |lines[l]| - pos + e
    decreases m - l
  {
    if l + 1 < m { SpanLonger(lines, l + 1, 0, m, e); }
  }

  /** The brackets of the stack. */
  function Core(stack: seq<char>, angle: char): seq<char> {
    if stack == [] then []
    else if Top(stack) == angle then Core(Popped(stack), angle)
    else Core(Popped(stack), angle) + [Top(stack)]
  }

  predicate Grounded(stack: seq<char>, angle: char) { stack != [] && stack[0] != angle }

  lemma {:induction false} CoreKeepsBottom(stack: seq<char>, angle: char)
    requires Grounded(stack, angle)
    ensures Core(stack, angle) != []
    decreases |stack|
  {
    if |stack| > 1 { CoreKeepsBottom(Popped(stack), angle); }
  }

  lemma {:induction false} UnangledKeepsCore(stack: seq<char>, angle: char)
    requires Grounded(stack, angle)
    ensures var rest := Unangled(stack, angle);
            Grounded(rest, angle) && Core(rest, angle) == Core(stack, angle) && Top(rest) != angle
    decreases |stack|
  {
    if Top(stack) == angle { UnangledKeepsCore(Popped(stack), angle); }
  }

  lemma CorePush(stack: seq<char>, ch: char, angle: char)
    ensures Core(stack + [ch], angle) == if ch == angle then Core(stack, angle) else Core(stack, angle) + [ch]
  {
    assert Popped(stack + [ch]) == stack;
  }

  /** The top of the stack, once the pending angles are dropped, is the top of its brackets. */
  lemma {:induction false} CoreTop(stack: seq<char>, angle: char)
    requires Grounded(stack, angle)
    ensures var rest := Unangled(stack, angle);
            && rest != [] && Core(stack, angle) == Core(Popped(rest), angle) + [Top(rest)]
            && (Popped(rest) == [] <==> Core(Popped(rest), angle) == [])
            && (Popped(rest) != [] ==> Grounded(Popped(rest), angle))
            && Grounded(rest, angle) && Core(rest, angle) == Core(stack, angle)
  {
    UnangledKeepsCore(stack, angle);
    var rest := Unangled(stack, angle);
    if Popped(rest) != [] { CoreKeepsBottom(Popped(rest), angle); }
  }

  lemma PopAngle(stack: seq<char>, angle: char)
    requires Grounded(stack, angle) && Top(stack) == angle
    ensures Grounded(Popped(stack), angle) && Core(Popped(stack), angle) == Core(stack, angle)
  {}

  /** Whatever it guesses about angle brackets, one step of the forward scan does to the brackets
      what the recogniser does. */
  lemma EndTurnsAtClosing(line: string, i: nat, stack: seq<char>)
    requires i < |line| && Grounded(stack, '<') && IsClose(line[i])
    ensures var read := Turn(line[i], Core(stack, '<'));
            match EndChar(line, i, stack)
            case Found(p) => p == i + 1 && read == Ok([])
            case Unclosed => read == Clash
            case Continue(t) => Grounded(t, '<') && read == Ok(Core(t, '<'))
  {
    CoreTop(stack, '<');
    var rest := Unangled(stack, '<');
    var core := Core(Popped(rest), '<');
    assert (core + [Top(rest)])[..|core|] == core;
  }

  /** An angle bracket is pushed, takes back a pending one, or changes nothing. */
  lemma EndAtAngle(line: string, i: nat, stack: seq<char>)
    requires i < |line| && Grounded(stack, '<') && (line[i] == '<' || line[i] == '>')
    ensures EndChar(line, i, stack) in {Continue(stack), Continue(stack + ['<'])}
            || (Top(stack) == '<' && EndChar(line, i, stack) == Continue(Popped(stack)))
  {}

  lemma EndTurnsAtAngle(line: string, i: nat, stack: seq<char>)
    requires i < |line| && Grounded(stack, '<') && (line[i] == '<' || line[i] == '>')
    ensures match EndChar(line, i, stack)
            case Continue(t) => Grounded(t, '<') && Turn(line[i], Core(stack, '<')) == Ok(Core(t, '<'))
            case _ => false
  {
    EndAtAngle(line, i, stack);
    CorePush(stack, '<', '<');
    if Top(stack) == '<' { PopAngle(stack, '<'); }
  }

  lemma EndTurnsElsewhere(line: string, i: nat, stack: seq<char>)
    requires i < |line| && Grounded(stack, '<') && !IsClose(line[i])
    ensures match EndChar(line, i, stack)
            case Continue(t) => Grounded(t, '<') && Turn(line[i], Core(stack, '<')) == Ok(Core(t, '<'))
            case _ => false
  {
    if line[i] == '<' || line[i] == '>' {
      EndTurnsAtAngle(line, i, stack);
    } else {
      CoreTop(stack, '<');
      CorePush(stack, line[i], '<');
    }
  }

  function Swapped(s: seq<char>): seq<char> {
    if s == [] then [] else Swapped(Popped(s)) + [Swap(Top(s))]
  }

  lemma SwappedPush(s: seq<char>, ch: char)
    ensures Swapped(s + [ch]) == Swapped(s) + [Swap(ch)]
  {
    assert Popped(s + [ch]) == s;
  }

  /** The stack of the backward scan, as the recogniser of the mirrored text would hold it. */
  function Awaited(stack: seq<char>): seq<char> { Swapped(Core(stack, '>')) }

  lemma OpeningTurns(ch: char, core: seq<char>, top: char)
    requires IsOpen(ch)
    ensures Turn(Swap(ch), Swapped(core + [top])) == if Pair(ch, top) then Ok(Swapped(core)) else Clash
  {
    SwappedPush(core, top);
    assert (Swapped(core) + [Swap(top)])[..|Swapped(core)|] == Swapped(core);
  }

  lemma OtherTurns(ch: char, core: seq<char>)
    requires !IsOpen(ch)
    ensures Turn(Swap(ch), Swapped(core)) == Ok(if IsClose(ch) then Swapped(core + [ch]) else Swapped(core))
  {
    SwappedPush(core, ch);
  }

  lemma SwappedEmpty(s: seq<char>)
    ensures Swapped(s) == [] <==> s == []
  {}

  lemma StartTurnsAtOpening(line: string, i: nat, stack: seq<char>)
    requires i < |line| && Grounded(stack, '>') && IsOpen(line[i])
    ensures var read := Turn(Swap(line[i]), Awaited(stack));
            match StartChar(line, i, stack)
            case Found(p) => p == i && read == Ok([])
            case Unclosed => read == Clash
            case Continue(t) => Grounded(t, '>') && read == Ok(Awaited(t))
  {
    CoreTop(stack, '>');
    var rest := Unangled(stack, '>');
    OpeningTurns(line[i], Core(Popped(rest), '>'), Top(rest));
    SwappedEmpty(Core(Popped(rest), '>'));
  }

  lemma StartTurnsElsewhere(line: string, i: nat, stack: seq<char>)
    requires i < |line| && Grounded(stack, '>') && !IsOpen(line[i])
    ensures match StartChar(line, i, stack)
            case Continue(t) => Grounded(t, '>') && Turn(Swap(line[i]), Awaited(stack)) == Ok(Awaited(t))
            case _ => false
  {
    CoreTop(stack, '>');
    CorePush(stack, line[i], '>');
    OtherTurns(line[i], Core(stack, '>'));
    if Top(stack) == '>' { PopAngle(stack, '>'); }
  }

  // ---------- What they find ----------

  /** The text from `(l, pos)` up to `(m, e)` is what it takes to empty the stack of brackets. */
  predicate Reaches(lines: seq<string>, l: nat, pos: nat, m: nat, e: nat, s: seq<char>) {
    Past(lines, l, pos, m, e) && ShutsAt(Span(lines, l, pos, m, e), s)
  }

  lemma SpanStep(lines: seq<string>, l: nat, i: nat, m: nat, e: nat)
    requires Inside(lines, l, i) && Past(lines, l, i, m, e)
    ensures var v := Span(lines, l, i + 1, m, e);
            && Span(lines, l, i, m, e) == [lines[l][i]] + v
            && (v == "" <==> m == l && e == i + 1)
  {
    if l < m { SpanLonger(lines, l, i + 1, m, e); }
  }

  lemma ShutsStep(ch: char, v: string, s: seq<char>)
    ensures ShutsAt([ch] + v, s) <==>
            match Turn(ch, s)
            case Clash => false
            case Ok(t) => if t == [] then v == "" else ShutsAt(v, t)
  {
    assert ([ch] + v)[1..] == v;
  }

  lemma {:induction false} ReachesStep(lines: seq<string>, l: nat, i: nat, m: nat, e: nat, s: seq<char>)
    requires Inside(lines, l, i)
    ensures Reaches(lines, l, i, m, e, s) <==>
            match Turn(lines[l][i], s)
            case Clash => false
            case Ok(t) => if t == [] then m == l && e == i + 1 else Reaches(lines, l, i + 1, m, e, t)
  {
    if Past(lines, l, i, m, e) {
      SpanStep(lines, l, i, m, e);
      ShutsStep(lines[l][i], Span(lines, l, i + 1, m, e), s);
    }
  }

  lemma {:induction false} ReachesNextLine(lines: seq<string>, l: nat, m: nat, e: nat, s: seq<char>)
    requires l < |lines|
    ensures Reaches(lines, l, |lines[l]|, m, e, s) <==> Reaches(lines, l + 1, 0, m, e, s)
  {
    if l < m < |lines| && e <= |lines[m]| {
      assert Span(lines, l, |lines[l]|, m, e) == Span(lines, l + 1, 0, m, e);
    }
  }

  lemma {:induction false} CloseMeets(lines: seq<string>, l: nat, i: nat, stack: seq<char>, m: nat, e: nat)
    requires l < |lines| && i <= |lines[l]| && Grounded(stack, '<')
    ensures CloseFrom(lines, l, i, stack) == At(m, e) <==> Reaches(lines, l, i, m, e, Core(stack, '<'))
    decreases |lines| - l, |lines[l]| - i
  {
    if i == |lines[l]| {
      ReachesNextLine(lines, l, m, e, Core(stack, '<'));
      if l + 1 < |lines| { CloseMeets(lines, l + 1, 0, stack, m, e); }
    } else {
      ReachesStep(lines, l, i, m, e, Core(stack, '<'));
      if IsClose(lines[l][i]) { EndTurnsAtClosing(lines[l], i, stack); } else { EndTurnsElsewhere(lines[l], i, stack); }
      match EndChar(lines[l], i, stack)
      case Found(p) =>
      case Unclosed =>
      case Continue(t) =>
        CoreKeepsBottom(t, '<');
        CloseMeets(lines, l, i + 1, t, m, e);
    }
  }

  /** From an opening bracket, `CloseExpression` finds the end of the first balanced text, and
      nothing if there is none, whatever it takes `<`, `>` and `;` for. */
  lemma {:induction false} CloseIsFirstBalanced(lines: seq<string>, l: nat, pos: nat, m: nat, e: nat)
    requires Inside(lines, l, pos) && IsOpen(lines[l][pos])
    ensures Close(lines, l, pos) == At(m, e) <==>
            Past(lines, l, pos, m, e) && FirstBalanced(Span(lines, l, pos, m, e))
  {
    var o := lines[l][pos];
    CloseStarts(lines, l, pos);
    CloseMeets(lines, l, pos + 1, [o], m, e);
    if Past(lines, l, pos, m, e) {
      SpanStep(lines, l, pos, m, e);
      var v := Span(lines, l, pos + 1, m, e);
      assert ([o] + v)[1..] == v;
      ShutsIsFirst([o] + v);
    }
  }

  lemma CloseStarts(lines: seq<string>, l: nat, pos: nat)
    requires Inside(lines, l, pos) && IsOpen(lines[l][pos])
    ensures Close(lines, l, pos) == CloseFrom(lines, l, pos + 1, [lines[l][pos]])
    ensures Core([lines[l][pos]], '<') == [lines[l][pos]]
  {
    CorePush([], lines[l][pos], '<');
    assert EndChar(lines[l], pos, []) == Continue([lines[l][pos]]);
  }
}
