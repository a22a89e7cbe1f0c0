/** The HTTP request machine: `HttpContext::ParaseRequest` over `HttpRequest`.

    The machine is modelled as written, including its loop bound, which measures from the moving
    `start`, and its jump back to the end of the text in the BODY state. */
module HttpMachine {
  import Traces

  datatype Method = GET | POST | HEAD | PUT | DELETE | INVAILD_METHOD

  datatype Version = HTTP_10 | HTTP_11 | INVAILD_VERSION

  datatype Request = Request(verb: Method, url: string, protocol: string, version: Version,
                             params: map<string, string>, headers: map<string, string>, body: string)

  const EMPTY_REQUEST := Request(INVAILD_METHOD, "", "", INVAILD_VERSION, map[], map[], "")

  datatype State =
    | INVAILD | START | METHOD | BEFORE_URI | IN_URI
    | BEFORE_URI_PARAMS_KEY | IN_URI_PARAMS_KEY | BEFORE_URI_PARAMS_VALUE | IN_URI_PARAMS_VALUE
    | BEFORE_PROTOCOL | IN_PROTOCOL | BEFORE_VERSION | IN_VERSION | VERSION_SPLIT
    | HEADER_KEY | HEADER_BEFORE_COLON | HEADER_AFTER_COLON | HEADER_VALUE
    | CR | CRLF | CRLFCR | BODY | COMPLETE

  /** The locals of the loop, the state field and the request object. */
  datatype Config = Config(state: State, start: int, end: int, key: string, vers: string, req: Request)

  const INITIAL := Config(START, 0, 0, "", "", EMPTY_REQUEST)

  predicate IsBlank(ch: char) { ch == ' ' || ch == '\t' }
  predicate IsUpper(ch: char) { 'A' <= ch <= 'Z' }
  predicate IsAlpha(ch: char) { 'A' <= ch <= 'Z' || 'a' <= ch <= 'z' }
  predicate IsDigit(ch: char) { '0' <= ch <= '9' }
  predicate IsSpace(ch: char) { IsBlank(ch) || ch == '\n' || ch == '\r' || ch == 0x0b as char || ch == 0x0c as char }

  /** The classes of C's `ctype.h` in its own locale, by code. */
  lemma Classes(ch: char)
    ensures IsUpper(ch) <==> 65 <= ch as int <= 90
    ensures IsAlpha(ch) <==> 65 <= ch as int <= 90 || 97 <= ch as int <= 122
    ensures IsDigit(ch) <==> 48 <= ch as int <= 57
    ensures IsBlank(ch) <==> ch as int == 9 || ch as int == 32
    ensures IsSpace(ch) <==> 9 <= ch as int <= 13 || ch as int == 32
  {}

  // ---------- HttpRequest ----------

  function MethodOf(verb: string): Method {
    if verb == "GET" then GET else if verb == "POST" then POST else if verb == "HEAD" then HEAD
    else if verb == "PUT" then PUT else if verb == "DELETE" then DELETE else INVAILD_METHOD
  }

  function MethodString(m: Method): string {
    match m
    case GET => "GET" case POST => "POST" case HEAD => "HEAD" case PUT => "PUT" case DELETE => "DELETE"
    case INVAILD_METHOD => "INVAILD"
  }

  /** The test for 1.1 overwrites what the test for 1.0 stored. */
  function VersionOf(version: string): Version {
    if version == "1.1" then HTTP_11 else INVAILD_VERSION
  }

  /** The version a text names. */
  function VersionNamed(version: string): Version {
    if version == "1.0" then HTTP_10 else if version == "1.1" then HTTP_11 else INVAILD_VERSION
  }

  /** The machine takes a version text for the version it names exactly when that is not 1.0. */
  lemma VersionIsNamedIff(version: string)
    ensures VersionOf(version) == VersionNamed(version) <==> version != "1.0"
  {
    assert "1.0"[2] != "1.1"[2];
  }

  function Header(req: Request, key: string): string {
    if key in req.headers then req.headers[key] else ""
  }

  /** C's `atoi`, on unbounded integers. */
  function Atoi(s: string): int
    decreases |s|
  {
    if s == "" then 0
    else if IsSpace(s[0]) then Atoi(s[1..])
    else if s[0] == '-' then 0 - Digits(s[1..], 0)
    else if s[0] == '+' then Digits(s[1..], 0)
    else Digits(s, 0)
  }

  function Digits(s: string, acc: nat): nat {
    if s == "" || !IsDigit(s[0]) then acc else Digits(s[1..], 10 * acc + (s[0] as int - '0' as int))
  }

  /** A method text is taken for one of the five methods exactly when it is its name. */
  lemma MethodIsNamedIff(verb: string, m: Method)
    requires m != INVAILD_METHOD
    ensures MethodOf(verb) == m <==> verb == MethodString(m)
  {
    assert "GET"[0] == 'G' && "POST"[1] == 'O' && "HEAD"[0] == 'H' && "PUT"[1] == 'U' && "DELETE"[0] == 'D';
  }

  predicate AllDigits(s: string) { forall ch | ch in s :: IsDigit(ch) }

  lemma {:induction false} DigitsAppend(s: string, rest: string, acc: nat)
    requires AllDigits(s)
    ensures Digits(s + rest, acc) == Digits(rest, Digits(s, acc))
    decreases |s|
  {
    if s == "" {
      assert s + rest == rest;
    } else {
      assert s[0] in s && (s + rest)[1..] == s[1..] + rest;
      DigitsAppend(s[1..], rest, 10 * acc + (s[0] as int - '0' as int));
    }
  }

  lemma LastDigit(d: char, rest: string, acc: nat)
    requires IsDigit(d) && (rest == "" || !IsDigit(rest[0]))
    ensures Digits([d] + rest, acc) == 10 * acc + (d as int - '0' as int)
  {
    assert ([d] + rest)[1..] == rest;
  }

  /** Digits are read in base ten, up to the first byte that is none. */
  lemma AtoiReadsDigits(s: string, d: char, rest: string)
    requires s != "" && AllDigits(s) && IsDigit(d) && (rest == "" || !IsDigit(rest[0]))
    ensures Atoi(s + [d] + rest) == 10 * Atoi(s) + (d as int - '0' as int)
    ensures Atoi([d] + rest) == d as int - '0' as int
  {
    assert s[0] in s;
    assert s + [d] + rest == s + ([d] + rest);
    DigitsAppend(s, [d] + rest, 0);
    LastDigit(d, rest, Digits(s, 0));
    LastDigit(d, rest, 0);
  }

  /** White space before a number is skipped, and its sign is honoured; what is no number counts zero. */
  lemma {:induction false} AtoiReadsSign(spaces: string, s: string)
    requires forall ch | ch in spaces :: IsSpace(ch)
    ensures Atoi(spaces + s) == Atoi(s)
    ensures s != "" && IsDigit(s[0]) ==> Atoi("-" + s) == -Atoi(s) && Atoi("+" + s) == Atoi(s)
    ensures s == "" || (!IsSpace(s[0]) && !IsDigit(s[0]) && s[0] != '-' && s[0] != '+') ==> Atoi(s) == 0
    decreases |spaces|
  {
    assert ("-" + s)[1..] == s && ("+" + s)[1..] == s;
    if spaces == "" {
      assert spaces + s == s;
    } else {
      assert spaces[0] in spaces && (spaces + s)[1..] == spaces[1..] + s;
      AtoiReadsSign(spaces[1..], s);
    }
  }

  // ---------- One turn of the loop ----------

  /** The text is a C string: index `size` holds the terminator. */
  function CharAt(text: string, i: int): char
    requires 0 <= i <= |text|
  {
    if i < |text| then text[i] else 0 as char
  }

  predicate Done(text: string, c: Config) {
    c.state == COMPLETE || c.state == INVAILD || c.end - c.start >= |text|
  }

  /** The cursors are in order and the byte to read is the text's. */
  predicate Readable(text: string, c: Config) {
    0 <= c.start <= c.end <= |text|
  }

  function Dispatch(text: string, c: Config): Config
    requires Readable(text, c)
  {
    var ch := CharAt(text, c.end);
    var token := text[c.start..c.end];
    match c.state
    case START => if IsUpper(ch) then c.(state := METHOD) else c
    case METHOD =>
      if IsBlank(ch) then c.(req := c.req.(verb := MethodOf(token)), state := BEFORE_URI, start := c.end) else c
    case BEFORE_URI => if ch == '/' then c.(state := IN_URI, start := c.end) else c
    case IN_URI =>
      if IsBlank(ch) then c.(req := c.req.(url := token), state := BEFORE_PROTOCOL, start := c.end)
      else if ch == '?' then c.(req := c.req.(url := token), state := BEFORE_URI_PARAMS_KEY, start := c.end)
      else c
    case BEFORE_URI_PARAMS_KEY =>
      if IsBlank(ch) || ch == '\r' || ch == '\n' then c.(state := INVAILD)
      else c.(state := IN_URI_PARAMS_KEY, start := c.end)
    case IN_URI_PARAMS_KEY =>
      if ch == '=' then
        c.(key := token, req := c.req.(params := c.req.params[token := ""]), state := BEFORE_URI_PARAMS_VALUE)
      else c
    case BEFORE_URI_PARAMS_VALUE =>
      if IsBlank(ch) || ch == '\r' || ch == '\n' then c.(state := INVAILD)
      else c.(state := IN_URI_PARAMS_VALUE, start := c.end)
    case IN_URI_PARAMS_VALUE =>
      if ch == '&' then
        c.(req := c.req.(params := c.req.params[c.key := token]), state := BEFORE_URI_PARAMS_KEY, start := c.end)
      else if IsBlank(ch) then
        c.(req := c.req.(params := c.req.params[c.key := token]), state := BEFORE_PROTOCOL, start := c.end)
      else c
    case BEFORE_PROTOCOL => if !IsBlank(ch) && IsAlpha(ch) then c.(state := IN_PROTOCOL, start := c.end) else c
    case IN_PROTOCOL =>
      if ch == '/' then c.(req := c.req.(protocol := token), state := BEFORE_VERSION, start := c.end) else c
    case BEFORE_VERSION => if IsDigit(ch) then c.(state := IN_VERSION, start := c.end) else c.(state := INVAILD)
    case IN_VERSION =>
      if ch == '\r' then
        c.(vers := c.vers + token, req := c.req.(version := VersionOf(c.vers + token)), state := CR)
      else if ch == '.' then c.(vers := c.vers + token, state := VERSION_SPLIT, start := c.end)
      else c
    case VERSION_SPLIT =>
      if IsDigit(ch) then c.(vers := c.vers + ".", state := IN_VERSION, start := c.end) else c.(state := INVAILD)
    case CR => if ch == '\n' then c.(state := CRLF, start := c.end) else c.(state := INVAILD)
    case CRLF =>
      if IsBlank(ch) then c.(state := INVAILD)
      else if ch == '\r' then c.(state := CRLFCR)
      else c.(state := HEADER_KEY, start := c.end)
    case HEADER_KEY =>
      if ch == ':' then
        c.(key := token, req := c.req.(headers := c.req.headers[token := ""]),
           state := HEADER_AFTER_COLON, start := c.end)
      else if IsBlank(ch) then
        c.(key := token, req := c.req.(headers := c.req.headers[token := ""]),
           state := HEADER_BEFORE_COLON, start := c.end)
      else c
    case HEADER_BEFORE_COLON =>
      if IsBlank(ch) then c
      else if ch == ':' then c.(state := HEADER_AFTER_COLON, start := c.end)
      else c.(state := INVAILD)
    case HEADER_AFTER_COLON => if IsBlank(ch) then c else c.(state := HEADER_VALUE, start := c.end)
    case HEADER_VALUE =>
      if ch == '\r' then c.(req := c.req.(headers := c.req.headers[c.key := token]), state := CR) else c
    case CRLFCR =>
      if ch != '\n' then c
      else if "Content-Length" in c.req.headers then
        if Atoi(Header(c.req, "Content-Length")) > 0 then c.(state := BODY, start := c.end + 1)
        else c.(state := COMPLETE)
      else if |text| > c.end then c.(state := BODY, start := c.end + 1)
      else c.(state := COMPLETE)
    case BODY =>
      var req := c.req.(body := text[c.start..]);
      c.(req := req, end := |text| - 1,
         state := if |text| - c.start >= Atoi(Header(req, "Content-Length")) then COMPLETE else BODY)
    case INVAILD => c
    case COMPLETE => c
  }

  function Step(text: string, c: Config): Config
    requires Readable(text, c)
  {
    var d := Dispatch(text, c);
    d.(end := d.end + 1)
  }

  /** The loop turns from `c` to `d`, reading only within the text. */
  ghost function Turns(text: string): (Config, Config) -> bool {
    (c: Config, d: Config) => !Done(text, c) && Readable(text, c) && Step(text, c) == d
  }

  /** From `c` the loop is at `d` after exactly `n` turns. */
  ghost predicate Reaches(text: string, c: Config, n: nat, d: Config) {
    Traces.Reaches(Turns(text), c, n, d)
  }

  lemma Compose(text: string, c: Config, n: nat, d: Config, m: nat, e: Config)
    requires Reaches(text, c, n, d) && Reaches(text, d, m, e)
    ensures Reaches(text, c, n + m, e)
  {
    Traces.Compose(Turns(text), c, n, d, m, e);
  }

  lemma Turn(text: string, c: Config, d: Config)
    requires Readable(text, c) && !Done(text, c) && d == Step(text, c)
    ensures Reaches(text, c, 1, d)
  {
    Traces.One(Turns(text), c, d);
  }

  // ---------- Scanning over a stretch of one state ----------

  /** In this state the byte only moves `end`. */
  predicate Stays(state: State, ch: char) {
    match state
    case START => !IsUpper(ch)
    case METHOD => !IsBlank(ch)
    case BEFORE_URI => ch != '/'
    case IN_URI => !IsBlank(ch) && ch != '?'
    case IN_URI_PARAMS_KEY => ch != '='
    case IN_URI_PARAMS_VALUE => ch != '&' && !IsBlank(ch)
    case BEFORE_PROTOCOL => !IsAlpha(ch)
    case IN_PROTOCOL => ch != '/'
    case IN_VERSION => ch != '\r' && ch != '.'
    case HEADER_KEY => ch != ':' && !IsBlank(ch)
    case HEADER_BEFORE_COLON => IsBlank(ch)
    case HEADER_AFTER_COLON => IsBlank(ch)
    case HEADER_VALUE => ch != '\r'
    case CRLFCR => ch != '\n'
    case _ => false
  }

  predicate Matches(text: string, i: int, s: string, k: int)
    requires 0 <= i && i + |s| <= |text| && 0 <= k < |s|
  {
    text[i + k] == s[k]
  }

  /** The text has `s` at position `i`. */
  predicate At(text: string, i: int, s: string) {
    0 <= i && i + |s| <= |text| && forall k | 0 <= k < |s| :: Matches(text, i, s, k)
  }

  lemma AtSlice(text: string, i: int, s: string)
    ensures At(text, i, s) <==> 0 <= i && i + |s| <= |text| && text[i..i + |s|] == s
  {
    if 0 <= i && i + |s| <= |text| {
      if text[i..i + |s|] == s {
        forall k | 0 <= k < |s| ensures Matches(text, i, s, k) { assert text[i..i + |s|][k] == s[k]; }
      }
      if At(text, i, s) {
        forall k | 0 <= k < |s| ensures text[i..i + |s|][k] == s[k] { assert Matches(text, i, s, k); }
      }
    }
  }

  lemma AtSplit(text: string, i: int, a: string, b: string)
    requires At(text, i, a + b)
    ensures At(text, i, a) && At(text, i + |a|, b)
  {
    forall k | 0 <= k < |a| ensures Matches(text, i, a, k) { assert Matches(text, i, a + b, k); }
    forall k {:trigger Matches(text, i + |a|, b, k)} | 0 <= k < |b| ensures Matches(text, i + |a|, b, k) {
      assert Matches(text, i, a + b, |a| + k);
    }
  }

  lemma StayStep(text: string, c: Config)
    requires Readable(text, c) && Stays(c.state, CharAt(text, c.end))
    ensures Step(text, c) == c.(end := c.end + 1)
  {
  }

  lemma {:induction false} Scan(text: string, c: Config, s: string)
    requires 0 <= c.start <= c.end && At(text, c.end, s) && forall ch | ch in s :: Stays(c.state, ch)
    ensures Reaches(text, c, |s|, c.(end := c.end + |s|))
    decreases |s|
  {
    if s == [] {
      Traces.None(Turns(text), c);
    } else {
      var d := c.(end := c.end + 1);
      Peek(text, c.end, s);
      assert s[0] in s;
      StayStep(text, c);
      Turn(text, c, d);
      Scan(text, d, s[1..]);
      Compose(text, c, 1, d, |s| - 1, d.(end := c.end + |s|));
    }
  }

  lemma Peek(text: string, i: int, s: string)
    requires At(text, i, s) && s != ""
    ensures CharAt(text, i) == s[0] && At(text, i + 1, s[1..]) && text[i..i + |s|] == s
  {
    assert s == [s[0]] + s[1..];
    AtSplit(text, i, [s[0]], s[1..]);
    assert Matches(text, i, s, 0);
    AtSlice(text, i, s);
  }

  /** A word: its first byte makes a transition, the others only move `end` in the new state. */
  lemma WordAlone(text: string, c: Config, s: string, d: Config)
    requires 0 <= c.start <= c.end && c.state != COMPLETE && c.state != INVAILD
    requires At(text, c.end, s) && s != "" && d == Step(text, c)
    requires d.end == c.end + 1 && 0 <= d.start <= d.end && forall ch | ch in s[1..] :: Stays(d.state, ch)
    ensures Reaches(text, c, |s|, d.(end := c.end + |s|))
  {
    Peek(text, c.end, s);
    Turn(text, c, d);
    Scan(text, d, s[1..]);
    Compose(text, c, 1, d, |s| - 1, d.(end := c.end + |s|));
  }

  /** A word after `n` turns. */
  lemma Word(text: string, c0: Config, n: nat, c: Config, s: string, d: Config)
    requires Reaches(text, c0, n, c) && 0 <= c.start <= c.end && c.state != COMPLETE && c.state != INVAILD
    requires At(text, c.end, s) && s != "" && d == Step(text, c)
    requires d.end == c.end + 1 && 0 <= d.start <= d.end && forall ch | ch in s[1..] :: Stays(d.state, ch)
    ensures Reaches(text, c0, n + |s|, d.(end := c.end + |s|))
  {
    WordAlone(text, c, s, d);
    Compose(text, c0, n, c, |s|, d.(end := c.end + |s|));
  }

  /** The value the machine compares the body's length with; no header counts as zero. */
  function ContentLength(headers: map<string, string>): int {
    if "Content-Length" in headers then Atoi(headers["Content-Length"]) else 0
  }

  /** Whether the machine looks at what follows the head. */
  predicate ReadsBody(headers: map<string, string>) {
    "Content-Length" in headers ==> ContentLength(headers) > 0
  }

  // ---------- Runs of the loop ----------

  /** The loop ends after `n` turns in `d`. */
  ghost predicate Ends(text: string, n: nat, d: Config) {
    Reaches(text, INITIAL, n, d) && Done(text, d)
  }

  ghost predicate Parses(text: string, req: Request) {
    exists n, d :: Ends(text, n, d) && d.state == COMPLETE && d.req == req
  }

  /** The loop never ends: after every number of turns it goes on. */
  ghost predicate Diverges(text: string) {
    forall n :: GoesOn(text, n)
  }

  ghost predicate GoesOn(text: string, n: nat) {
    exists d :: Reaches(text, INITIAL, n, d) && !Done(text, d)
  }

  /** The loop is not done and is about to read past the terminator. */
  ghost predicate Overreads(text: string) {
    exists n, d :: Reaches(text, INITIAL, n, d) && !Done(text, d) && !Readable(text, d)
  }

  /** From a point that is done or may not be read there is no further turn. */
  lemma NoTurnFrom(text: string, c: Config, n: nat, d: Config)
    requires Reaches(text, c, n, d) && (Done(text, c) || !Readable(text, c))
    ensures n == 0 && d == c
  {
    if n > 0 {
      var e := Traces.First(Turns(text), c, n, d);
    } else {
      var t :| Traces.Trace(Turns(text), t) && |t| == 1 && t[0] == c && t[0] == d;
    }
  }

  /** Runs are unique, so a run that stops is the longest one. */
  lemma Longest(text: string, n: nat, d: Config, m: nat, e: Config)
    requires Reaches(text, INITIAL, n, d) && (Done(text, d) || !Readable(text, d)) && Reaches(text, INITIAL, m, e)
    ensures m <= n && (m == n ==> d == e) && (Done(text, e) || !Readable(text, e) ==> d == e)
  {
    if n <= m {
      Traces.Agree(Turns(text), INITIAL, n, d, m, e);
      NoTurnFrom(text, d, m - n, e);
    } else {
      Traces.Agree(Turns(text), INITIAL, m, e, n, d);
      if Done(text, e) || !Readable(text, e) { NoTurnFrom(text, e, n - m, d); }
    }
  }

  lemma Exclusive(text: string, n: nat, d: Config)
    requires Reaches(text, INITIAL, n, d) && (Done(text, d) || !Readable(text, d))
    ensures !Diverges(text)
    ensures Done(text, d) ==> !Overreads(text)
    ensures !Done(text, d) ==> forall m, e :: !Ends(text, m, e)
  {
    if Diverges(text) {
      assert GoesOn(text, n + 1);
      var e :| Reaches(text, INITIAL, n + 1, e) && !Done(text, e);
      Longest(text, n, d, n + 1, e);
    }
    if Overreads(text) {
      var m, e :| Reaches(text, INITIAL, m, e) && !Done(text, e) && !Readable(text, e);
      Longest(text, n, d, m, e);
    }
    forall m, e | Ends(text, m, e) ensures d == e { Longest(text, n, d, m, e); }
  }

  /** In BODY the loop reads the rest of the text; with too little of it, it starts over. */
  lemma BodyTurns(text: string, n: nat, c: Config)
    requires Reaches(text, INITIAL, n, c) && c.state == BODY && 0 < c.start == c.end <= |text|
    ensures var body := text[c.start..]; var need := ContentLength(c.req.headers);
            && (|body| >= need ==>
                 Ends(text, n + 1, c.(state := COMPLETE, end := |text|, req := c.req.(body := body))))
            && (|body| < need ==> Diverges(text))
  {
    var body := text[c.start..];
    var e := Step(text, c);
    Turn(text, c, e);
    Compose(text, INITIAL, n, c, 1, e);
    if |body| < ContentLength(c.req.headers) {
      BodyLoop(text, n, c, e);
    }
  }

  lemma BodyLoop(text: string, n: nat, c: Config, e: Config)
    requires Reaches(text, INITIAL, n, c) && c.state == BODY && 0 < c.start == c.end <= |text| && e == Step(text, c)
    requires |text| - c.start < ContentLength(c.req.headers)
    ensures Diverges(text)
  {
    forall k: nat ensures GoesOn(text, k) {
      if k <= n {
        Prefix(text, n, c, k);
      } else {
        Turn(text, c, e);
        Compose(text, INITIAL, n, c, 1, e);
        SelfLoop(text, e, k - n - 1);
        Compose(text, INITIAL, n + 1, e, k - n - 1, e);
      }
    }
  }

  lemma {:induction false} SelfLoop(text: string, e: Config, k: nat)
    requires !Done(text, e) && Readable(text, e) && Step(text, e) == e
    ensures Reaches(text, e, k, e)
    decreases k
  {
    if k == 0 {
      Traces.None(Turns(text), e);
    } else {
      SelfLoop(text, e, k - 1);
      Turn(text, e, e);
      Compose(text, e, k - 1, e, 1, e);
    }
  }

  lemma Prefix(text: string, n: nat, c: Config, k: nat)
    requires Reaches(text, INITIAL, n, c) && !Done(text, c) && k <= n
    ensures GoesOn(text, k)
  {
    var t :| Traces.Trace(Turns(text), t) && |t| == n + 1 && t[0] == INITIAL && t[n] == c;
    assert Traces.Trace(Turns(text), t[..k + 1]);
    if k < n { assert Turns(text)(t[k], t[k + 1]); }
    assert Reaches(text, INITIAL, k, t[k]);
  }

  // ---------- Every input ----------

  /** The loop's first pass over the text: until it is done, or in BODY, or at the terminator. */
  function Pass(text: string, c: Config): Config
    requires 0 <= c.start <= c.end <= |text|
    decreases |text| - c.end
  {
    if Done(text, c) || c.state == BODY || c.end == |text| then c else Pass(text, Step(text, c))
  }

  lemma HeadStep(text: string, c: Config)
    requires Readable(text, c) && c.state != BODY
    ensures var d := Step(text, c);
            0 <= d.start <= d.end == c.end + 1 && (d.state == BODY && c.end < |text| ==> d.start == d.end)
  {
  }

  /** The first pass reads each byte once, in order, with the cursors in order. */
  lemma {:induction false} PassReaches(text: string, c: Config) returns (n: nat)
    requires 0 <= c.start <= c.end <= |text| && (c.state == BODY ==> c.start == c.end > 0)
    ensures var d := Pass(text, c);
            && Reaches(text, c, n, d) && 0 <= d.start <= d.end == c.end + n <= |text|
            && (d.state == BODY ==> d.start == d.end > 0) && (Done(text, d) || d.state == BODY || d.end == |text|)
    decreases |text| - c.end
  {
    if Done(text, c) || c.state == BODY || c.end == |text| {
      n := 0;
      Traces.None(Turns(text), c);
    } else {
      HeadStep(text, c);
      Turn(text, c, Step(text, c));
      n := PassReaches(text, Step(text, c));
      Compose(text, c, 1, Step(text, c), n, Pass(text, c));
      n := n + 1;
    }
  }

  /** In these states the terminator is an error. */
  predicate RejectsTerminator(state: State) {
    state == BEFORE_VERSION || state == VERSION_SPLIT || state == CR || state == HEADER_BEFORE_COLON
  }

  /** In these the terminator starts a token, so that `start` moves up to it. */
  predicate StartsToken(state: State) {
    state == BEFORE_URI_PARAMS_KEY || state == BEFORE_URI_PARAMS_VALUE || state == CRLF || state == HEADER_AFTER_COLON
  }

  /** The terminator ends an unfinished request if it is an error there, or if the loop's bound is
      met: `start` has moved by at most one byte, and does not move now. */
  predicate TerminatorStops(text: string, c: Config) {
    RejectsTerminator(c.state) || (if StartsToken(c.state) then |text| <= 1 else c.start <= 1)
  }

  lemma TerminatorStep(text: string, c: Config)
    requires Readable(text, c) && !Done(text, c) && c.state != BODY && c.end == |text|
    ensures Done(text, Step(text, c)) <==> TerminatorStops(text, c)
  {}

  /** Whether the loop ends, decided by the first pass alone. */
  predicate Stops(text: string) {
    var d := Pass(text, INITIAL);
    || Done(text, d)
    || (d.state == BODY && |text| - d.start >= ContentLength(d.req.headers))
    || (d.state != BODY && d.end == |text| && 0 <= d.start <= d.end && TerminatorStops(text, d))
  }

  lemma EndsAtOnce(text: string, n: nat, d: Config)
    requires Reaches(text, INITIAL, n, d) && Done(text, d)
    ensures Ends(text, n, d) && !Diverges(text) && !Overreads(text)
  {
    Exclusive(text, n, d);
  }

  lemma EndsInBody(text: string, n: nat, d: Config)
    requires Reaches(text, INITIAL, n, d) && d.state == BODY && 0 < d.start == d.end <= |text|
    requires |text| - d.start >= ContentLength(d.req.headers)
    ensures (exists m, e :: Ends(text, m, e)) && !Diverges(text) && !Overreads(text)
  {
    BodyTurns(text, n, d);
    var e := d.(state := COMPLETE, end := |text|, req := d.req.(body := text[d.start..]));
    EndsAtOnce(text, n + 1, e);
  }

  lemma StuckInBody(text: string, n: nat, d: Config)
    requires Reaches(text, INITIAL, n, d) && d.state == BODY && 0 < d.start == d.end <= |text|
    requires |text| - d.start < ContentLength(d.req.headers)
    ensures Diverges(text) && !Overreads(text) && forall m, e :: !Ends(text, m, e)
  {
    BodyTurns(text, n, d);
    if Overreads(text) {
      var m, e :| Reaches(text, INITIAL, m, e) && !Done(text, e) && !Readable(text, e);
      Exclusive(text, m, e);
    }
    forall m, e ensures !Ends(text, m, e) {
      if Ends(text, m, e) { Exclusive(text, m, e); }
    }
  }

  lemma EndsAtTerminator(text: string, n: nat, d: Config)
    requires Reaches(text, INITIAL, n, d) && !Done(text, d) && d.state != BODY && 0 <= d.start <= d.end == |text|
    ensures !Diverges(text) && (Overreads(text) <==> !TerminatorStops(text, d))
    ensures (exists m, e :: Ends(text, m, e)) <==> TerminatorStops(text, d)
  {
    var e := Step(text, d);
    TerminatorStep(text, d);
    Turn(text, d, e);
    Compose(text, INITIAL, n, d, 1, e);
    Exclusive(text, n + 1, e);
    if Done(text, e) { assert Ends(text, n + 1, e); }
  }

  /** On every byte string the loop ends, or starts BODY over for ever, or runs past the
      terminator: the first pass decides which.  No other text makes it read out of bounds, and
      the error exit of the INVAILD state inside the loop is never taken. */
  lemma EveryInput(text: string)
    ensures var d := Pass(text, INITIAL);
            && ((exists n, e :: Ends(text, n, e)) <==> Stops(text))
            && (Diverges(text) <==> !Stops(text) && d.state == BODY)
            && (Overreads(text) <==> !Stops(text) && d.state != BODY)
    ensures forall n, e, f | Reaches(text, INITIAL, n, e) && Turns(text)(e, f) :: e.state != INVAILD
  {
    var d := Pass(text, INITIAL);
    var n := PassReaches(text, INITIAL);
    if Done(text, d) {
      EndsAtOnce(text, n, d);
    } else if d.state != BODY {
      EndsAtTerminator(text, n, d);
    } else if |text| - d.start >= ContentLength(d.req.headers) {
      EndsInBody(text, n, d);
    } else {
      StuckInBody(text, n, d);
    }
  }

  // ---------- Two inputs on which the loop does not end ----------

  lemma PassOn(text: string, c: Config, d: Config)
    requires Readable(text, c) && !Done(text, c) && c.state != BODY && c.end < |text| && d == Step(text, c)
    requires 0 <= d.start <= d.end <= |text|
    ensures Pass(text, c) == Pass(text, d)
  {}

  predicate IsGetSlash(text: string) {
    |text| == 5 && text[0] == 'G' && text[1] == 'E' && text[2] == 'T' && text[3] == ' ' && text[4] == '/'
  }

  lemma PassOfMethod(text: string)
    requires IsGetSlash(text)
    ensures Pass(text, INITIAL) == Pass(text, INITIAL.(state := METHOD, end := 3))
  {
    PassOn(text, INITIAL, INITIAL.(state := METHOD, end := 1));
    PassOn(text, INITIAL.(state := METHOD, end := 1), INITIAL.(state := METHOD, end := 2));
    PassOn(text, INITIAL.(state := METHOD, end := 2), INITIAL.(state := METHOD, end := 3));
  }

  lemma PassOfPath(text: string, c: Config)
    requires IsGetSlash(text) && c == INITIAL.(state := METHOD, end := 3)
    ensures var d := Pass(text, c); d.state == IN_URI && d.start == 4 && d.end == 5
  {
    var c1 := Step(text, c);
    PassOn(text, c, c1);
    PassOn(text, c1, Step(text, c1));
  }

  lemma CutOffOverreads(text: string)
    requires IsGetSlash(text)
    ensures Overreads(text)
  {
    PassOfMethod(text);
    PassOfPath(text, INITIAL.(state := METHOD, end := 3));
    EveryInput(text);
  }

  /** A request line cut off after its path makes the loop read past the terminator. */
  lemma CutOffRequestOverreads()
    ensures IsGetSlash("GET /") && Overreads("GET /")
  {
    CutOffOverreads("GET /");
  }
}
