/** Which request texts `HttpContext::ParaseRequest` refuses: a grammar of beginnings, token by
    token, and what may not follow them. */
module HttpLanguage {
  import Traces
  import opened HttpMachine
  import opened HttpRoundTrip

  // ---------- The grammar of beginnings ----------

  predicate IsLineEnd(ch: char) { ch == '\r' || ch == '\n' }

  /** A byte that may not follow a beginning which awaits what `state` names: an empty parameter key
      or value, a version part that is no digit, a carriage return without its line feed, a field
      line that starts with a blank, or anything between a field's name and its colon. */
  predicate Offends(state: State, ch: char) {
    || ((state == BEFORE_URI_PARAMS_KEY || state == BEFORE_URI_PARAMS_VALUE) && (IsBlank(ch) || IsLineEnd(ch)))
    || ((state == BEFORE_VERSION || state == VERSION_SPLIT) && !IsDigit(ch))
    || (state == CR && ch != '\n')
    || (state == CRLF && IsBlank(ch))
    || (state == HEADER_BEFORE_COLON && !IsBlank(ch) && ch != ':')
  }

  /** The token named `state` may follow a beginning that ends in the token `previous`, and starts
      with `ch`. */
  predicate Starts(state: State, previous: State, ch: char) {
    match state
    case METHOD => previous == START && IsUpper(ch)
    case BEFORE_URI => previous == METHOD && IsBlank(ch)
    case IN_URI => previous == BEFORE_URI && ch == '/'
    case BEFORE_URI_PARAMS_KEY => (previous == IN_URI && ch == '?') || (previous == IN_URI_PARAMS_VALUE && ch == '&')
    case IN_URI_PARAMS_KEY => previous == BEFORE_URI_PARAMS_KEY && !IsBlank(ch) && !IsLineEnd(ch)
    case BEFORE_URI_PARAMS_VALUE => previous == IN_URI_PARAMS_KEY && ch == '='
    case IN_URI_PARAMS_VALUE => previous == BEFORE_URI_PARAMS_VALUE && !IsBlank(ch) && !IsLineEnd(ch)
    case BEFORE_PROTOCOL => (previous == IN_URI || previous == IN_URI_PARAMS_VALUE) && IsBlank(ch)
    case IN_PROTOCOL => previous == BEFORE_PROTOCOL && IsAlpha(ch)
    case BEFORE_VERSION => previous == IN_PROTOCOL && ch == '/'
    case IN_VERSION => (previous == BEFORE_VERSION || previous == VERSION_SPLIT) && IsDigit(ch)
    case VERSION_SPLIT => previous == IN_VERSION && ch == '.'
    case CR => (previous == IN_VERSION || previous == HEADER_VALUE) && ch == '\r'
    case CRLF => previous == CR && ch == '\n'
    case HEADER_KEY => previous == CRLF && !IsBlank(ch) && ch != '\r'
    case HEADER_BEFORE_COLON => previous == HEADER_KEY && IsBlank(ch)
    case HEADER_AFTER_COLON => (previous == HEADER_KEY || previous == HEADER_BEFORE_COLON) && ch == ':'
    case HEADER_VALUE => previous == HEADER_AFTER_COLON && !IsBlank(ch)
    case CRLFCR => previous == CRLF && ch == '\r'
    case INVAILD => Offends(previous, ch)
    case _ => false
  }

  /** The text is a beginning whose last token is the one `state` names; an offending byte makes it
      INVAILD. */
  ghost predicate Beginning(s: string, state: State)
    decreases |s|, 1
  {
    || (state == START && forall ch | ch in s :: Stays(START, ch))
    || exists k: nat, previous :: LastToken(s, k, previous, state)
  }

  /** The last token starts at `k`. */
  ghost predicate LastToken(s: string, k: nat, previous: State, state: State)
    decreases |s|, 0
  {
    && k < |s| && Beginning(s[..k], previous) && Starts(state, previous, s[k])
    && forall ch | ch in s[k + 1..] :: Stays(state, ch)
  }

  lemma Append(s: string, previous: State, token: string, state: State)
    requires Beginning(s, previous) && token != "" && Starts(state, previous, token[0])
    requires forall ch | ch in token[1..] :: Stays(state, ch)
    ensures Beginning(s + token, state)
  {
    assert (s + token)[..|s|] == s && (s + token)[|s| + 1..] == token[1..];
    assert LastToken(s + token, |s|, previous, state);
  }

  lemma Extend(s: string, state: State, ch: char)
    requires Beginning(s, state) && Stays(state, ch)
    ensures Beginning(s + [ch], state)
  {
    if !(state == START && forall c | c in s :: Stays(START, c)) {
      var k: nat, previous :| LastToken(s, k, previous, state);
      assert (s + [ch])[..k] == s[..k] && (s + [ch])[k + 1..] == s[k + 1..] + [ch];
      assert LastToken(s + [ch], k, previous, state);
    }
  }

  // ---------- The machine reads that grammar ----------

  predicate InHead(state: State) { state != BODY && state != COMPLETE }

  /** The cursors are in order, and `start` has moved once the method has been read. */
  predicate Cursors(c: Config) {
    && 0 <= c.start <= c.end && (c.state != START ==> c.end > 0)
    && (c.state != START && c.state != METHOD ==> c.start > 0)
  }

  /** What one byte does to the state. */
  lemma StateAfter(text: string, c: Config)
    requires Readable(text, c) && InHead(c.state) && c.state != INVAILD
    ensures var (ch, d) := (CharAt(text, c.end), Step(text, c));
            if Stays(c.state, ch) then d.state == c.state else InHead(d.state) ==> Starts(d.state, c.state, ch)
  {}

  lemma CursorsAfter(text: string, c: Config)
    requires Cursors(c) && c.end <= |text| && InHead(c.state) && c.state != INVAILD
    ensures InHead(Step(text, c).state) ==> Cursors(Step(text, c)) && Step(text, c).end == c.end + 1
  {}

  lemma StartsNext(text: string, c: Config, state: State)
    requires Cursors(c) && c.end <= |text| && Starts(state, c.state, CharAt(text, c.end))
    ensures Step(text, c).state == state && InHead(state) && c.state != INVAILD && InHead(c.state)
  {}

  lemma Grow(text: string, k: nat)
    requires k < |text|
    ensures text[..k] + [text[k]] == text[..k + 1]
  {}

  lemma OneByte(text: string, c: Config)
    requires Cursors(c) && c.end < |text| && InHead(c.state) && c.state != INVAILD
    requires Beginning(text[..c.end], c.state)
    ensures var d := Step(text, c);
            InHead(d.state) ==> Cursors(d) && d.end == c.end + 1 && Beginning(text[..d.end], d.state)
  {
    var ch := text[c.end];
    StateAfter(text, c);
    CursorsAfter(text, c);
    Grow(text, c.end);
    if Stays(c.state, ch) {
      Extend(text[..c.end], c.state, ch);
    } else if InHead(Step(text, c).state) {
      Append(text[..c.end], c.state, [ch], Step(text, c).state);
    }
  }

  lemma BodyIsLast(text: string, c: Config, n: nat, d: Config)
    requires !InHead(c.state) && Reaches(text, c, n, d)
    ensures !InHead(d.state)
    decreases n
  {
    if n == 0 {
      NoMove(text, c, d);
    } else {
      var e := Traces.First(Turns(text), c, n, d);
      BodyIsLast(text, e, n - 1, d);
    }
  }

  lemma NoMove(text: string, c: Config, d: Config)
    requires Reaches(text, c, 0, d)
    ensures c == d
  {
    var t :| Traces.Trace(Turns(text), t) && |t| == 1 && t[0] == c && t[0] == d;
  }

  lemma {:induction false} ReadsBeginnings(text: string, c: Config, n: nat, d: Config)
    requires Cursors(c) && c.end + n <= |text| && InHead(c.state) && Beginning(text[..c.end], c.state)
    requires Reaches(text, c, n, d) && InHead(d.state)
    ensures Cursors(d) && d.end == c.end + n && Beginning(text[..d.end], d.state)
    decreases n
  {
    if n == 0 {
      NoMove(text, c, d);
    } else {
      var e := Traces.First(Turns(text), c, n, d);
      if !InHead(e.state) { BodyIsLast(text, e, n - 1, d); }
      OneByte(text, c);
      ReadsBeginnings(text, e, n - 1, d);
    }
  }

  lemma ScanToken(text: string, c: Config, n: nat)
    requires Cursors(c) && c.end <= n <= |text| && forall ch | ch in text[c.end..n] :: Stays(c.state, ch)
    ensures Reaches(text, c, n - c.end, c.(end := n))
  {
    var s := text[c.end..n];
    AtSlice(text, c.end, s);
    assert text[c.end..c.end + |s|] == s;
    Scan(text, c, s);
  }

  /** These tokens belong to what `start` already points at; the others move it to their own start. */
  predicate KeepsStart(state: State) {
    state in {START, METHOD, BEFORE_URI_PARAMS_VALUE, CR, CRLFCR, INVAILD}
  }

  lemma StartAfter(text: string, b: Config, state: State)
    requires Cursors(b) && b.end <= |text| && Starts(state, b.state, CharAt(text, b.end))
    ensures Step(text, b).start == if KeepsStart(state) then b.start else b.end
  {}

  lemma FirstByte(text: string, b: Config, state: State) returns (d: Config)
    requires Cursors(b) && b.end < |text| && Starts(state, b.state, text[b.end])
    ensures Reaches(text, b, 1, d) && d.state == state && d.end == b.end + 1 && InHead(state) && Cursors(d)
    ensures d.start == if KeepsStart(state) then b.start else b.end
  {
    d := Step(text, b);
    StartsNext(text, b, state);
    StartAfter(text, b, state);
    CursorsAfter(text, b);
    Turn(text, b, d);
  }

  /** The token that starts at `k` is read from there to `n`. */
  lemma ReadToken(text: string, b: Config, state: State, n: nat) returns (c: Config)
    requires Cursors(b) && b.end < n <= |text| && Starts(state, b.state, text[b.end])
    requires forall ch | ch in text[b.end + 1..n] :: Stays(state, ch)
    ensures Reaches(text, b, n - b.end, c) && c.state == state && c.end == n && InHead(state) && Cursors(c)
    ensures c.start == if KeepsStart(state) then b.start else b.end
  {
    var d := FirstByte(text, b, state);
    ScanToken(text, d, n);
    c := d.(end := n);
    Compose(text, b, 1, d, n - d.end, c);
  }

  lemma TokenOf(text: string, n: nat, state: State) returns (k: nat, previous: State)
    requires n <= |text| && Beginning(text[..n], state)
    requires !(state == START && forall ch | ch in text[..n] :: Stays(START, ch))
    ensures k < n && Beginning(text[..k], previous) && Starts(state, previous, text[k])
    ensures forall ch | ch in text[k + 1..n] :: Stays(state, ch)
  {
    k, previous :| LastToken(text[..n], k, previous, state);
    TokenParts(text, n, k, previous, state);
  }

  lemma TokenParts(text: string, n: nat, k: nat, previous: State, state: State)
    requires n <= |text| && LastToken(text[..n], k, previous, state)
    ensures k < n && Beginning(text[..k], previous) && Starts(state, previous, text[k])
    ensures forall ch | ch in text[k + 1..n] :: Stays(state, ch)
  {
    assert text[..n][..k] == text[..k] && text[..n][k + 1..] == text[k + 1..n];
  }

  lemma {:induction false} BeginningsAreRead(text: string, n: nat, state: State) returns (c: Config)
    requires n <= |text| && Beginning(text[..n], state)
    ensures Reaches(text, INITIAL, n, c) && c.state == state && c.end == n && InHead(state) && Cursors(c)
    decreases n
  {
    var s := text[..n];
    if state == START && forall ch | ch in s :: Stays(START, ch) {
      assert text[0..n] == s;
      ScanToken(text, INITIAL, n);
      c := INITIAL.(end := n);
    } else {
      var k, previous := TokenOf(text, n, state);
      var b := BeginningsAreRead(text, k, previous);
      c := ReadToken(text, b, state, n);
      Compose(text, INITIAL, k, b, n - k, c);
    }
  }

  /** For every text and every length: after that many bytes the machine is in a state of the head
      exactly when they are a beginning of that kind. */
  lemma HeadIsGrammar(text: string, n: nat, state: State)
    requires n <= |text| && InHead(state)
    ensures (exists c :: Reaches(text, INITIAL, n, c) && c.state == state) <==> Beginning(text[..n], state)
  {
    if c :| Reaches(text, INITIAL, n, c) && c.state == state {
      assert text[..0] == "";
      ReadsBeginnings(text, INITIAL, n, c);
    }
    if Beginning(text[..n], state) {
      var c := BeginningsAreRead(text, n, state);
    }
  }

  lemma SameRun(text: string, n: nat, c: Config, d: Config)
    requires Reaches(text, INITIAL, n, c) && Reaches(text, INITIAL, n, d)
    ensures c == d
  {
    Traces.Agree(Turns(text), INITIAL, n, c, n, d);
    NoMove(text, c, d);
  }

  /** The `start` cursor, which bounds the loop, is at the last token that moves it. */
  lemma StartIsAtToken(text: string, n: nat, k: nat, previous: State, state: State, b: Config, c: Config)
    requires n <= |text| && LastToken(text[..n], k, previous, state)
    requires Reaches(text, INITIAL, k, b) && Reaches(text, INITIAL, n, c)
    ensures c.start == if KeepsStart(state) then b.start else k
  {
    TokenParts(text, n, k, previous, state);
    var b' := BeginningsAreRead(text, k, previous);
    SameRun(text, k, b, b');
    var c' := ReadToken(text, b, state, n);
    Compose(text, INITIAL, k, b, n - k, c');
    SameRun(text, n, c, c');
  }

  // ---------- Refused texts ----------

  ghost predicate Refused(text: string) {
    exists n, d :: Ends(text, n, d) && d.state == INVAILD
  }

  /** The text has an offending byte after a beginning, or ends, unfinished, where the terminator
      offends. */
  ghost predicate Malformed(text: string) {
    exists n: nat, state :: n <= |text| && OffendsAt(text, n, state)
  }

  ghost predicate OffendsAt(text: string, n: nat, state: State)
    requires n <= |text|
  {
    Beginning(text[..n], state) && Offends(state, CharAt(text, n))
  }

  lemma OffenceIsRefused(text: string, n: nat, state: State)
    requires n <= |text| && OffendsAt(text, n, state)
    ensures Refused(text)
  {
    var c := BeginningsAreRead(text, n, state);
    var d := Step(text, c);
    StartsNext(text, c, INVAILD);
    Turn(text, c, d);
    Compose(text, INITIAL, n, c, 1, d);
    assert Ends(text, n + 1, d);
  }

  lemma RefusedHere(text: string, c: Config)
    requires Cursors(c) && c.end <= |text| && InHead(c.state) && c.state != INVAILD
    requires Beginning(text[..c.end], c.state) && Step(text, c).state == INVAILD
    ensures OffendsAt(text, c.end, c.state)
  {
    StateAfter(text, c);
  }

  lemma {:induction false} RefusalOffends(text: string, c: Config, n: nat, d: Config) returns (k: nat, state: State)
    requires Cursors(c) && c.end <= |text| && InHead(c.state) && c.state != INVAILD
    requires Beginning(text[..c.end], c.state) && Reaches(text, c, n, d) && d.state == INVAILD
    ensures k <= |text| && OffendsAt(text, k, state)
    decreases n
  {
    if n == 0 { NoMove(text, c, d); }
    var e := Traces.First(Turns(text), c, n, d);
    CursorsAfter(text, c);
    if e.state == INVAILD {
      RefusedHere(text, c);
      k, state := c.end, c.state;
    } else {
      if !InHead(e.state) { BodyIsLast(text, e, n - 1, d); }
      if c.end == |text| { NoTurnFrom(text, e, n - 1, d); }
      OneByte(text, c);
      k, state := RefusalOffends(text, e, n - 1, d);
    }
  }

  /** The machine refuses exactly the malformed texts, and parses none of them. */
  lemma RefusedIffMalformed(text: string)
    ensures Refused(text) <==> Malformed(text)
    ensures Malformed(text) ==> forall r :: !Parses(text, r)
  {
    if Refused(text) {
      var n, d :| Ends(text, n, d) && d.state == INVAILD;
      assert text[..0] == "";
      var k, state := RefusalOffends(text, INITIAL, n, d);
    }
    if Malformed(text) {
      var n: nat, state :| n <= |text| && OffendsAt(text, n, state);
      OffenceIsRefused(text, n, state);
      var m, d :| Ends(text, m, d) && d.state == INVAILD;
      forall k, e | Ends(text, k, e) ensures e == d { Longest(text, m, d, k, e); }
    }
  }

  // ---------- Well-formed beginnings and what spoils them ----------

  lemma Spoiled(s: string, state: State, bad: char, rest: string)
    requires Beginning(s, state) && Offends(state, bad)
    ensures Refused(s + [bad] + rest) && forall r :: !Parses(s + [bad] + rest, r)
  {
    var text := s + [bad] + rest;
    assert text[..|s|] == s && text[|s|] == bad;
    assert OffendsAt(text, |s|, state);
    RefusedIffMalformed(text);
  }

  /** The method and the path. */
  function Path(m: Message): string { MethodString(m.verb) + m.gap1 + m.url }

  /** The question mark and parameters that others follow. */
  function Query(ps: seq<(string, string)>): string {
    if ps == [] then "?" else Query(ps[..|ps| - 1]) + ps[|ps| - 1].0 + "=" + ps[|ps| - 1].1 + "&"
  }

  lemma PathIsBeginning(m: Message)
    requires LineOk(m)
    ensures Beginning(Path(m), IN_URI)
  {
    VerbLetters(m.verb);
    assert Beginning("", START) && "" + MethodString(m.verb) == MethodString(m.verb);
    Append("", START, MethodString(m.verb), METHOD);
    BlanksStay(m.gap1, BEFORE_URI);
    Append(MethodString(m.verb), METHOD, m.gap1, BEFORE_URI);
    Append(MethodString(m.verb) + m.gap1, BEFORE_URI, m.url, IN_URI);
  }

  lemma ParamIsBeginning(s: string, p: (string, string))
    requires Beginning(s, BEFORE_URI_PARAMS_KEY) && ParamOk(p)
    ensures Beginning(s + p.0 + "=", BEFORE_URI_PARAMS_VALUE)
    ensures Beginning(s + p.0 + "=" + p.1, IN_URI_PARAMS_VALUE)
  {
    Append(s, BEFORE_URI_PARAMS_KEY, p.0, IN_URI_PARAMS_KEY);
    Append(s + p.0, IN_URI_PARAMS_KEY, "=", BEFORE_URI_PARAMS_VALUE);
    Append(s + p.0 + "=", BEFORE_URI_PARAMS_VALUE, p.1, IN_URI_PARAMS_VALUE);
  }

  lemma ParamGoesOn(s: string, p: (string, string))
    requires Beginning(s, BEFORE_URI_PARAMS_KEY) && ParamOk(p)
    ensures Beginning(s + p.0 + "=" + p.1 + "&", BEFORE_URI_PARAMS_KEY)
  {
    ParamIsBeginning(s, p);
    Append(s + p.0 + "=" + p.1, IN_URI_PARAMS_VALUE, "&", BEFORE_URI_PARAMS_KEY);
  }

  lemma QueryPush(s: string, ps: seq<(string, string)>)
    requires ps != []
    ensures s + Query(ps) == s + Query(ps[..|ps| - 1]) + ps[|ps| - 1].0 + "=" + ps[|ps| - 1].1 + "&"
  {
    Prefixed(s, Query(ps[..|ps| - 1]), ps[|ps| - 1].0, "=", ps[|ps| - 1].1, "&");
  }

  lemma Prefixed(s: string, a: string, b: string, c: string, d: string, e: string)
    ensures s + (a + b + c + d + e) == s + a + b + c + d + e
  {}

  lemma {:induction false} QueryIsBeginning(s: string, ps: seq<(string, string)>)
    requires Beginning(s, IN_URI) && forall p | p in ps :: ParamOk(p)
    ensures Beginning(s + Query(ps), BEFORE_URI_PARAMS_KEY)
    decreases |ps|
  {
    if ps == [] {
      Append(s, IN_URI, "?", BEFORE_URI_PARAMS_KEY);
    } else {
      var (before, p) := (ps[..|ps| - 1], ps[|ps| - 1]);
      QueryIsBeginning(s, before);
      ParamGoesOn(s + Query(before), p);
      QueryPush(s, ps);
    }
  }

  /** After any well-formed path and parameters: a parameter without a key. */
  lemma EmptyKeyIsRefused(m: Message, bad: char, rest: string)
    requires LineOk(m) && (IsBlank(bad) || IsLineEnd(bad))
    ensures var text := Path(m) + Query(m.params) + [bad] + rest; Refused(text) && forall r :: !Parses(text, r)
  {
    PathIsBeginning(m);
    QueryIsBeginning(Path(m), m.params);
    Spoiled(Path(m) + Query(m.params), BEFORE_URI_PARAMS_KEY, bad, rest);
  }

  /** A parameter without a value. */
  lemma EmptyValueIsRefused(m: Message, key: string, bad: char, rest: string)
    requires LineOk(m) && ParamKeyOk(key) && (IsBlank(bad) || IsLineEnd(bad))
    ensures var text := Path(m) + Query(m.params) + key + "=" + [bad] + rest;
            Refused(text) && forall r :: !Parses(text, r)
  {
    PathIsBeginning(m);
    QueryIsBeginning(Path(m), m.params);
    var s := Path(m) + Query(m.params);
    Append(s, BEFORE_URI_PARAMS_KEY, key, IN_URI_PARAMS_KEY);
    Append(s + key, IN_URI_PARAMS_KEY, "=", BEFORE_URI_PARAMS_VALUE);
    Spoiled(s + key + "=", BEFORE_URI_PARAMS_VALUE, bad, rest);
  }

  /** The path and all parameters, the last of which nothing follows. */
  function Target(m: Message): string {
    if m.params == [] then Path(m)
    else
      var last := m.params[|m.params| - 1];
      Path(m) + Query(m.params[..|m.params| - 1]) + last.0 + "=" + last.1
  }

  lemma TargetIsBeginning(m: Message)
    requires LineOk(m)
    ensures Beginning(Target(m), if m.params == [] then IN_URI else IN_URI_PARAMS_VALUE)
  {
    PathIsBeginning(m);
    if m.params != [] {
      var before := m.params[..|m.params| - 1];
      assert forall p | p in before :: p in m.params;
      QueryIsBeginning(Path(m), before);
      ParamIsBeginning(Path(m) + Query(before), m.params[|m.params| - 1]);
    }
  }

  lemma ProtocolIsBeginning(m: Message)
    requires LineOk(m)
    ensures Beginning(Target(m) + m.gap2 + "HTTP" + "/", BEFORE_VERSION)
  {
    TargetIsBeginning(m);
    BlanksStay(m.gap2, BEFORE_PROTOCOL);
    Append(Target(m), if m.params == [] then IN_URI else IN_URI_PARAMS_VALUE, m.gap2, BEFORE_PROTOCOL);
    Append(Target(m) + m.gap2, BEFORE_PROTOCOL, "HTTP", IN_PROTOCOL);
    Append(Target(m) + m.gap2 + "HTTP", IN_PROTOCOL, "/", BEFORE_VERSION);
  }

  /** A version that does not start with a digit. */
  lemma NoMajorIsRefused(m: Message, bad: char, rest: string)
    requires LineOk(m) && !IsDigit(bad)
    ensures var text := Target(m) + m.gap2 + "HTTP" + "/" + [bad] + rest; Refused(text) && forall r :: !Parses(text, r)
  {
    ProtocolIsBeginning(m);
    Spoiled(Target(m) + m.gap2 + "HTTP" + "/", BEFORE_VERSION, bad, rest);
  }

  /** No digit after the version's dot. */
  lemma NoMinorIsRefused(m: Message, bad: char, rest: string)
    requires LineOk(m) && !IsDigit(bad)
    ensures var text := Target(m) + m.gap2 + "HTTP" + "/" + m.version[..1] + "." + [bad] + rest;
            Refused(text) && forall r :: !Parses(text, r)
  {
    ProtocolIsBeginning(m);
    var s := Target(m) + m.gap2 + "HTTP" + "/";
    Append(s, BEFORE_VERSION, m.version[..1], IN_VERSION);
    Append(s + m.version[..1], IN_VERSION, ".", VERSION_SPLIT);
    Spoiled(s + m.version[..1] + ".", VERSION_SPLIT, bad, rest);
  }

  /** The request line and the field lines, without the last line feed. */
  function Lines(m: Message, hs: seq<Field>): string
    requires VersionOk(m.version)
  {
    if hs == [] then Target(m) + m.gap2 + "HTTP" + "/" + m.version[..1] + "." + m.version[2..] + "\r"
    else
      var h := hs[|hs| - 1];
      Lines(m, hs[..|hs| - 1]) + "\n" + h.key + h.before + ":" + h.after + h.value + "\r"
  }

  lemma FieldIsBeginning(s: string, h: Field)
    requires Beginning(s, CR) && FieldOk(h)
    ensures Beginning(s + "\n" + h.key + h.before + ":" + h.after + h.value + "\r", CR)
  {
    NameIsBeginning(s, h.key, h.before);
    var t := s + "\n" + h.key + h.before;
    Append(t, if h.before == "" then HEADER_KEY else HEADER_BEFORE_COLON, ":", HEADER_AFTER_COLON);
    BlanksExtend(t + ":", h.after);
    Append(t + ":" + h.after, HEADER_AFTER_COLON, h.value, HEADER_VALUE);
    Append(t + ":" + h.after + h.value, HEADER_VALUE, "\r", CR);
  }

  lemma NameIsBeginning(s: string, key: string, gap: string)
    requires Beginning(s, CR) && Blanks(gap)
    requires key != "" && !IsBlank(key[0]) && key[0] != '\r' && forall ch | ch in key[1..] :: ch != ':' && !IsBlank(ch)
    ensures Beginning(s + "\n" + key + gap, if gap == "" then HEADER_KEY else HEADER_BEFORE_COLON)
  {
    Append(s, CR, "\n", CRLF);
    Append(s + "\n", CRLF, key, HEADER_KEY);
    if gap == "" {
      assert s + "\n" + key + gap == s + "\n" + key;
    } else {
      assert forall ch | ch in gap[1..] :: ch in gap;
      Append(s + "\n" + key, HEADER_KEY, gap, HEADER_BEFORE_COLON);
    }
  }

  lemma {:induction false} BlanksExtend(s: string, gap: string)
    requires Beginning(s, HEADER_AFTER_COLON) && Blanks(gap)
    ensures Beginning(s + gap, HEADER_AFTER_COLON)
    decreases |gap|
  {
    if gap == "" {
      assert s + gap == s;
    } else {
      var (before, last) := (gap[..|gap| - 1], gap[|gap| - 1]);
      BlanksExtend(s, before);
      Extend(s + before, HEADER_AFTER_COLON, last);
      assert s + gap == s + before + [last];
    }
  }

  lemma {:induction false} LinesAreBeginning(m: Message, hs: seq<Field>)
    requires LineOk(m) && forall h | h in hs :: FieldOk(h)
    ensures Beginning(Lines(m, hs), CR)
    decreases |hs|
  {
    if hs == [] {
      ProtocolIsBeginning(m);
      var s := Target(m) + m.gap2 + "HTTP" + "/";
      Append(s, BEFORE_VERSION, m.version[..1], IN_VERSION);
      Append(s + m.version[..1], IN_VERSION, ".", VERSION_SPLIT);
      Append(s + m.version[..1] + ".", VERSION_SPLIT, m.version[2..], IN_VERSION);
      Append(s + m.version[..1] + "." + m.version[2..], IN_VERSION, "\r", CR);
    } else {
      LinesAreBeginning(m, hs[..|hs| - 1]);
      FieldIsBeginning(Lines(m, hs[..|hs| - 1]), hs[|hs| - 1]);
    }
  }

  /** After the request line and any field lines: a carriage return without its line feed. */
  lemma NoLineFeedIsRefused(m: Message, bad: char, rest: string)
    requires WellFormed(m) && bad != '\n'
    ensures var text := Lines(m, m.fields) + [bad] + rest; Refused(text) && forall r :: !Parses(text, r)
  {
    LinesAreBeginning(m, m.fields);
    Spoiled(Lines(m, m.fields), CR, bad, rest);
  }

  /** A field line that starts with a blank. */
  lemma FoldedLineIsRefused(m: Message, bad: char, rest: string)
    requires WellFormed(m) && IsBlank(bad)
    ensures var text := Lines(m, m.fields) + "\n" + [bad] + rest; Refused(text) && forall r :: !Parses(text, r)
  {
    LinesAreBeginning(m, m.fields);
    Append(Lines(m, m.fields), CR, "\n", CRLF);
    Spoiled(Lines(m, m.fields) + "\n", CRLF, bad, rest);
  }

  /** Anything else than a colon after a field's name and blanks. */
  lemma JunkBeforeColonIsRefused(m: Message, h: Field, bad: char, rest: string)
    requires WellFormed(m) && FieldOk(h) && h.before != "" && !IsBlank(bad) && bad != ':'
    ensures var text := Lines(m, m.fields) + "\n" + h.key + h.before + [bad] + rest;
            Refused(text) && forall r :: !Parses(text, r)
  {
    LinesAreBeginning(m, m.fields);
    NameIsBeginning(Lines(m, m.fields), h.key, h.before);
    Spoiled(Lines(m, m.fields) + "\n" + h.key + h.before, HEADER_BEFORE_COLON, bad, rest);
  }

  // ---------- The beginnings are those of printed requests ----------

  lemma {:induction false} ParamsPush(ps: seq<(string, string)>, p: (string, string), rest: string)
    requires ps != []
    ensures ParamsThen(ps + [p], rest) == ParamsThen(ps, "&" + (p.0 + ("=" + (p.1 + rest))))
    decreases |ps|
  {
    assert (ps + [p])[1..] == ps[1..] + [p];
    if |ps| > 1 { ParamsPush(ps[1..], p, rest); }
  }

  lemma {:induction false} QueryIsPrinted(ps: seq<(string, string)>, rest: string)
    requires ps != []
    ensures var (before, last) := (ps[..|ps| - 1], ps[|ps| - 1]);
            "?" + ParamsThen(ps, rest) == Query(before) + last.0 + "=" + last.1 + rest
    decreases |ps|
  {
    var (before, last) := (ps[..|ps| - 1], ps[|ps| - 1]);
    if before != [] {
      var tail := last.0 + ("=" + (last.1 + rest));
      assert ps == before + [last];
      ParamsPush(before, last, rest);
      QueryIsPrinted(before, "&" + tail);
      var first := before[|before| - 1];
      Regroup(Query(before[..|before| - 1]) + first.0 + "=" + first.1, last.0, last.1, rest);
    }
  }

  lemma Regroup(s: string, key: string, value: string, rest: string)
    ensures s + ("&" + (key + ("=" + (value + rest)))) == s + "&" + key + "=" + value + rest
  {}

  lemma {:induction false} FieldsPush(hs: seq<Field>, h: Field, rest: string)
    ensures FieldsThen(hs + [h], rest) == FieldsThen(hs, FieldsThen([h], rest))
    decreases |hs|
  {
    if hs == [] {
      assert hs + [h] == [h];
    } else {
      assert (hs + [h])[1..] == hs[1..] + [h];
      FieldsPush(hs[1..], h, rest);
    }
  }

  lemma LineFeed(s: string, h: Field, rest: string)
    ensures s + "\n" + FieldsThen([h], rest) ==
            s + "\n" + h.key + h.before + ":" + h.after + h.value + "\r" + "\n" + rest
  {
    assert FieldsThen([h][1..], rest) == rest;
    assert "\r\n" == "\r" + "\n";
  }

  lemma {:induction false} LinesArePrinted(m: Message, hs: seq<Field>, rest: string)
    requires VersionOk(m.version)
    ensures Lines(m, hs) + "\n" + rest == Lines(m, []) + "\n" + FieldsThen(hs, rest)
    decreases |hs|
  {
    if hs != [] {
      var (before, h) := (hs[..|hs| - 1], hs[|hs| - 1]);
      assert hs == before + [h];
      FieldsPush(before, h, rest);
      LinesArePrinted(m, before, FieldsThen([h], rest));
      LineFeed(Lines(m, before), h, rest);
    }
  }

  lemma TargetIsPrinted(m: Message, rest: string)
    ensures MethodString(m.verb) + (m.gap1 + (m.url + TargetThen(m.params, m.gap2, rest))) == Target(m) + m.gap2 + rest
  {
    if m.params != [] { QueryIsPrinted(m.params, m.gap2 + rest); }
  }

  lemma VersionIsPrinted(s: string, v: string, rest: string)
    requires VersionOk(v)
    ensures s + VersionThen(v, rest) == s + "HTTP" + "/" + v[..1] + "." + v[2..] + "\r" + "\n" + rest
  {
    assert v == v[..1] + "." + v[2..];
    assert "\r\n" == "\r" + "\n";
  }

  /** A well-formed request is its lines, an empty line and its body: what is refused above spoils
      a beginning of one. */
  lemma PrintedByLines(m: Message)
    requires WellFormed(m)
    ensures Print(m) == Lines(m, m.fields) + "\n" + ("\r\n" + m.body)
  {
    var end := "\r\n" + m.body;
    var rest := FieldsThen(m.fields, end);
    TargetIsPrinted(m, VersionThen(m.version, rest));
    VersionIsPrinted(Target(m) + m.gap2, m.version, rest);
    LinesArePrinted(m, m.fields, end);
  }
}
