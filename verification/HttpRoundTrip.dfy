/** Printing and parsing HTTP requests: the machine of `HttpContext::ParaseRequest` recovers
    what a well-formed request text means.  The grammar is the part of RFC 9112 sections 3, 5
    and 6.2 that the machine accepts. */
module HttpRoundTrip {
  import Traces
  import opened HttpMachine

  // ---------- Well-formed requests and their spellings ----------

  datatype Field = Field(key: string, before: string, after: string, value: string)

  /** A request text by its parts: `gap1`, `gap2`, `before` and `after` are runs of blanks. */
  datatype Message = Message(verb: Method, gap1: string, url: string, params: seq<(string, string)>, gap2: string,
                             version: string, fields: seq<Field>, body: string)

  predicate Blanks(s: string) {
    forall ch | ch in s :: IsBlank(ch)
  }

  predicate UrlOk(s: string) {
    s != "" && s[0] == '/' && forall ch | ch in s[1..] :: Stays(IN_URI, ch)
  }

  predicate ParamKeyOk(k: string) {
    k != "" && !IsBlank(k[0]) && k[0] != '\r' && k[0] != '\n' && forall ch | ch in k[1..] :: ch != '='
  }

  predicate ParamValueOk(v: string) {
    v != "" && !IsBlank(v[0]) && v[0] != '\r' && v[0] != '\n' && forall ch | ch in v[1..] :: ch != '&' && !IsBlank(ch)
  }

  predicate ParamOk(p: (string, string)) {
    ParamKeyOk(p.0) && ParamValueOk(p.1)
  }

  predicate FieldOk(h: Field) {
    && h.key != "" && !IsBlank(h.key[0]) && h.key[0] != '\r'
    && (forall ch | ch in h.key[1..] :: ch != ':' && !IsBlank(ch))
    && h.value != "" && !IsBlank(h.value[0]) && (forall ch | ch in h.value[1..] :: ch != '\r')
    && Blanks(h.before) && Blanks(h.after)
  }

  /** A digit, a dot and a digit (section 2.3 of RFC 9112). */
  predicate VersionOk(v: string) {
    |v| == 3 && IsDigit(v[0]) && v[1] == '.' && IsDigit(v[2])
  }

  predicate LineOk(m: Message) {
    && m.verb != INVAILD_METHOD
    && m.gap1 != "" && Blanks(m.gap1) && m.gap2 != "" && Blanks(m.gap2)
    && UrlOk(m.url) && VersionOk(m.version)
    && (forall p | p in m.params :: ParamOk(p))
  }

  /** The delimiters are where they belong; nothing else is asked of the bytes. */
  predicate WellFormed(m: Message) {
    LineOk(m) && forall h | h in m.fields :: FieldOk(h)
  }

  // Printing takes the text that follows, so that parsing can peel off one part at a time.

  function ParamsThen(ps: seq<(string, string)>, rest: string): string
    requires ps != []
  {
    ps[0].0 + ("=" + (ps[0].1 + if |ps| == 1 then rest else "&" + ParamsThen(ps[1..], rest)))
  }

  function TargetThen(ps: seq<(string, string)>, gap: string, rest: string): string {
    if ps == [] then gap + rest else "?" + ParamsThen(ps, gap + rest)
  }

  function FieldsThen(hs: seq<Field>, rest: string): string {
    if hs == [] then rest
    else hs[0].key + (hs[0].before + (":" + (hs[0].after + (hs[0].value + ("\r\n" + FieldsThen(hs[1..], rest))))))
  }

  function Print(m: Message): string {
    MethodString(m.verb) + (m.gap1 + (m.url + TargetThen(m.params, m.gap2,
      VersionThen(m.version, FieldsThen(m.fields, "\r\n" + m.body)))))
  }

  function VersionThen(v: string, rest: string): string { "HTTP" + ("/" + (v + ("\r\n" + rest))) }

  /** Later duplicates replace earlier ones. */
  function ParamMap(acc: map<string, string>, ps: seq<(string, string)>): map<string, string>
    decreases |ps|
  {
    if ps == [] then acc else ParamMap(acc[ps[0].0 := ps[0].1], ps[1..])
  }

  function FieldMap(acc: map<string, string>, hs: seq<Field>): map<string, string>
    decreases |hs|
  {
    if hs == [] then acc else FieldMap(acc[hs[0].key := hs[0].value], hs[1..])
  }

  /** What a request text means. */
  function Meaning(m: Message): Request {
    Request(m.verb, m.url, "HTTP", VersionNamed(m.version),
            ParamMap(map[], m.params), FieldMap(map[], m.fields), m.body)
  }

  /** What the machine makes of it: the version as `SetVersion` stores it. */
  function Reading(m: Message): Request {
    Meaning(m).(version := VersionOf(m.version))
  }

  // ---------- Parsing the parts ----------

  lemma VerbLetters(m: Method)
    requires m != INVAILD_METHOD
    ensures var v := MethodString(m);
            MethodOf(v) == m && v != "" && IsUpper(v[0]) && forall ch | ch in v[1..] :: Stays(METHOD, ch)
  {
  }

  lemma VerbGapStep(text: string, m: Method, gap: string)
    requires m != INVAILD_METHOD && At(text, 0, MethodString(m)) && At(text, |MethodString(m)|, gap) && gap != ""
             && IsBlank(gap[0])
    ensures var n := |MethodString(m)|;
            Step(text, INITIAL.(state := METHOD, end := n)) ==
            Config(BEFORE_URI, n, n + 1, "", "", EMPTY_REQUEST.(verb := m))
  {
    VerbLetters(m);
    AtSlice(text, 0, MethodString(m));
    Peek(text, |MethodString(m)|, gap);
  }

  lemma UrlStep(text: string, c: Config, url: string)
    requires c.state == BEFORE_URI && 0 <= c.start <= c.end && At(text, c.end, url) && UrlOk(url)
    ensures Step(text, c) == c.(state := IN_URI, start := c.end, end := c.end + 1)
  {
    Peek(text, c.end, url);
  }

  lemma ParseVerbLetters(text: string, m: Method)
    requires m != INVAILD_METHOD && At(text, 0, MethodString(m))
    ensures Reaches(text, INITIAL, |MethodString(m)|, INITIAL.(state := METHOD, end := |MethodString(m)|))
  {
    VerbLetters(m);
    Peek(text, 0, MethodString(m));
    WordAlone(text, INITIAL, MethodString(m), INITIAL.(state := METHOD, end := 1));
  }

  lemma BlanksStay(gap: string, state: State)
    requires Blanks(gap) && gap != "" && (state == BEFORE_URI || state == BEFORE_PROTOCOL)
    ensures forall ch | ch in gap[1..] :: Stays(state, ch)
  {
    assert forall ch | ch in gap[1..] :: ch in gap && IsBlank(ch);
  }

  lemma ParseVerb(text: string, m: Method, gap: string)
    requires m != INVAILD_METHOD && gap != "" && Blanks(gap)
    requires At(text, 0, MethodString(m)) && At(text, |MethodString(m)|, gap)
    ensures var n := |MethodString(m)|;
            Reaches(text, INITIAL, n + |gap|, Config(BEFORE_URI, n, n + |gap|, "", "", EMPTY_REQUEST.(verb := m)))
  {
    var n := |MethodString(m)|;
    ParseVerbLetters(text, m);
    VerbGapStep(text, m, gap);
    BlanksStay(gap, BEFORE_URI);
    Word(text, INITIAL, n, INITIAL.(state := METHOD, end := n), gap,
         Config(BEFORE_URI, n, n + 1, "", "", EMPTY_REQUEST.(verb := m)));
  }

  /** The path, after which the machine waits for a blank or a question mark. */
  lemma ParseUrl(text: string, c: Config, url: string) returns (d: Config)
    requires c.state == BEFORE_URI && 0 <= c.start <= c.end && At(text, c.end, url) && UrlOk(url)
    ensures d == c.(state := IN_URI, start := c.end, end := c.end + |url|) && text[d.start..d.end] == url
    ensures Reaches(text, c, |url|, d)
  {
    UrlStep(text, c, url);
    AtSlice(text, c.end, url);
    WordAlone(text, c, url, c.(state := IN_URI, start := c.end, end := c.end + 1));
    d := c.(state := IN_URI, start := c.end, end := c.end + |url|);
  }

  /** Between the path and the protocol: no parameters. */
  lemma ParsePlainTarget(text: string, c: Config, gap: string) returns (d: Config)
    requires c.state == IN_URI && Readable(text, c) && At(text, c.end, gap) && gap != "" && Blanks(gap)
    ensures d == c.(state := BEFORE_PROTOCOL, start := c.end, end := c.end + |gap|,
                    req := c.req.(url := text[c.start..c.end]))
    ensures Reaches(text, c, |gap|, d)
  {
    Peek(text, c.end, gap);
    d := c.(state := BEFORE_PROTOCOL, start := c.end, end := c.end + |gap|, req := c.req.(url := text[c.start..c.end]));
    BlanksStay(gap, BEFORE_PROTOCOL);
    WordAlone(text, c, gap, d.(end := c.end + 1));
  }

  lemma ParseQuestion(text: string, c: Config) returns (d: Config)
    requires c.state == IN_URI && Readable(text, c) && At(text, c.end, "?")
    ensures d == c.(state := BEFORE_URI_PARAMS_KEY, start := c.end, end := c.end + 1,
                    req := c.req.(url := text[c.start..c.end]))
    ensures Reaches(text, c, 1, d)
  {
    Peek(text, c.end, "?");
    d := c.(state := BEFORE_URI_PARAMS_KEY, start := c.end, end := c.end + 1,
            req := c.req.(url := text[c.start..c.end]));
    WordAlone(text, c, "?", d);
  }

  lemma ParseParamKey(text: string, c: Config, k: string) returns (d: Config)
    requires c.state == BEFORE_URI_PARAMS_KEY && 0 <= c.start <= c.end && ParamKeyOk(k) && At(text, c.end, k)
    ensures d == c.(state := IN_URI_PARAMS_KEY, start := c.end, end := c.end + |k|) && text[d.start..d.end] == k
    ensures Reaches(text, c, |k|, d)
  {
    Peek(text, c.end, k);
    d := c.(state := IN_URI_PARAMS_KEY, start := c.end, end := c.end + |k|);
    WordAlone(text, c, k, d.(end := c.end + 1));
  }

  lemma ParseEquals(text: string, c: Config) returns (d: Config)
    requires c.state == IN_URI_PARAMS_KEY && Readable(text, c) && At(text, c.end, "=")
    ensures var k := text[c.start..c.end];
            d == c.(state := BEFORE_URI_PARAMS_VALUE, end := c.end + 1, key := k,
                    req := c.req.(params := c.req.params[k := ""]))
    ensures Reaches(text, c, 1, d)
  {
    Peek(text, c.end, "=");
    var k := text[c.start..c.end];
    d := c.(state := BEFORE_URI_PARAMS_VALUE, end := c.end + 1, key := k,
            req := c.req.(params := c.req.params[k := ""]));
    WordAlone(text, c, "=", d);
  }

  lemma ParseParamValue(text: string, c: Config, v: string) returns (d: Config)
    requires c.state == BEFORE_URI_PARAMS_VALUE && 0 <= c.start <= c.end && ParamValueOk(v) && At(text, c.end, v)
    ensures d == c.(state := IN_URI_PARAMS_VALUE, start := c.end, end := c.end + |v|) && text[d.start..d.end] == v
    ensures Reaches(text, c, |v|, d)
  {
    Peek(text, c.end, v);
    d := c.(state := IN_URI_PARAMS_VALUE, start := c.end, end := c.end + |v|);
    WordAlone(text, c, v, d.(end := c.end + 1));
  }

  /** One parameter, from its key to the byte after its value. */
  lemma ParseParam(text: string, c: Config, p: (string, string)) returns (d: Config)
    requires c.state == BEFORE_URI_PARAMS_KEY && 0 <= c.start <= c.end && ParamOk(p)
    requires At(text, c.end, p.0) && At(text, c.end + |p.0|, "=") && At(text, c.end + |p.0| + 1, p.1)
    ensures d.state == IN_URI_PARAMS_VALUE && 0 <= d.start <= d.end == c.end + |p.0| + 1 + |p.1|
    ensures d.end <= |text| && text[d.start..d.end] == p.1 && d.key == p.0 && d.vers == c.vers
    ensures d.req == c.req.(params := c.req.params[p.0 := ""])
    ensures Reaches(text, c, |p.0| + 1 + |p.1|, d)
  {
    var c1 := ParseParamKey(text, c, p.0);
    var c2 := ParseEquals(text, c1);
    d := ParseParamValue(text, c2, p.1);
    Compose(text, c, |p.0|, c1, 1, c2);
    Compose(text, c, |p.0| + 1, c2, |p.1|, d);
  }

  lemma ParseAmpersand(text: string, c: Config) returns (d: Config)
    requires c.state == IN_URI_PARAMS_VALUE && Readable(text, c) && At(text, c.end, "&")
    ensures d == c.(state := BEFORE_URI_PARAMS_KEY, start := c.end, end := c.end + 1,
                    req := c.req.(params := c.req.params[c.key := text[c.start..c.end]]))
    ensures Reaches(text, c, 1, d)
  {
    Peek(text, c.end, "&");
    d := c.(state := BEFORE_URI_PARAMS_KEY, start := c.end, end := c.end + 1,
            req := c.req.(params := c.req.params[c.key := text[c.start..c.end]]));
    WordAlone(text, c, "&", d);
  }

  lemma ParseLastParamGap(text: string, c: Config, gap: string) returns (d: Config)
    requires c.state == IN_URI_PARAMS_VALUE && Readable(text, c) && At(text, c.end, gap) && gap != "" && Blanks(gap)
    ensures d == c.(state := BEFORE_PROTOCOL, start := c.end, end := c.end + |gap|,
                    req := c.req.(params := c.req.params[c.key := text[c.start..c.end]]))
    ensures Reaches(text, c, |gap|, d)
  {
    Peek(text, c.end, gap);
    d := c.(state := BEFORE_PROTOCOL, start := c.end, end := c.end + |gap|,
            req := c.req.(params := c.req.params[c.key := text[c.start..c.end]]));
    BlanksStay(gap, BEFORE_PROTOCOL);
    WordAlone(text, c, gap, d.(end := c.end + 1));
  }

  lemma SplitParam(text: string, i: int, k: string, v: string, tail: string)
    requires At(text, i, k + ("=" + (v + tail)))
    ensures At(text, i, k) && At(text, i + |k|, "=") && At(text, i + |k| + 1, v) && At(text, i + |k| + 1 + |v|, tail)
  {
    AtSplit(text, i, k, "=" + (v + tail));
    AtSplit(text, i + |k|, "=", v + tail);
    AtSplit(text, i + |k| + 1, v, tail);
  }

  lemma Overwrite(m: map<string, string>, k: string, v: string, w: string)
    ensures m[k := v][k := w] == m[k := w]
  {
  }

  /** The last parameter and the gap after it. */
  lemma ParseLastParam(text: string, c: Config, p: (string, string), gap: string) returns (n: nat, d: Config)
    requires c.state == BEFORE_URI_PARAMS_KEY && 0 <= c.start <= c.end && gap != "" && Blanks(gap) && ParamOk(p)
    requires At(text, c.end, p.0) && At(text, c.end + |p.0|, "=") && At(text, c.end + |p.0| + 1, p.1)
    requires At(text, c.end + |p.0| + 1 + |p.1|, gap)
    ensures n == |p.0| + 1 + |p.1| + |gap|
    ensures d.state == BEFORE_PROTOCOL && 0 <= d.start <= d.end == c.end + n && d.vers == c.vers
    ensures d.req == c.req.(params := c.req.params[p.0 := p.1])
    ensures Reaches(text, c, n, d)
  {
    var c1 := ParseParam(text, c, p);
    d := ParseLastParamGap(text, c1, gap);
    Compose(text, c, |p.0| + 1 + |p.1|, c1, |gap|, d);
    n := |p.0| + 1 + |p.1| + |gap|;
    Overwrite(c.req.params, p.0, "", p.1);
  }

  /** A parameter that another one follows. */
  lemma ParseNextParam(text: string, c: Config, p: (string, string)) returns (n: nat, d: Config)
    requires c.state == BEFORE_URI_PARAMS_KEY && 0 <= c.start <= c.end && ParamOk(p)
    requires At(text, c.end, p.0) && At(text, c.end + |p.0|, "=") && At(text, c.end + |p.0| + 1, p.1)
    requires At(text, c.end + |p.0| + 1 + |p.1|, "&")
    ensures n == |p.0| + 1 + |p.1| + 1
    ensures d.state == BEFORE_URI_PARAMS_KEY && 0 <= d.start <= d.end == c.end + n && d.vers == c.vers
    ensures d.req == c.req.(params := c.req.params[p.0 := p.1])
    ensures Reaches(text, c, n, d)
  {
    var c1 := ParseParam(text, c, p);
    d := ParseAmpersand(text, c1);
    Compose(text, c, |p.0| + 1 + |p.1|, c1, 1, d);
    n := |p.0| + 1 + |p.1| + 1;
    Overwrite(c.req.params, p.0, "", p.1);
  }

  lemma SplitLastParam(text: string, i: int, p: (string, string), gap: string, rest: string)
    requires At(text, i, p.0 + ("=" + (p.1 + (gap + rest))))
    ensures At(text, i, p.0) && At(text, i + |p.0|, "=") && At(text, i + |p.0| + 1, p.1)
    ensures At(text, i + |p.0| + 1 + |p.1|, gap) && At(text, i + |p.0| + 1 + |p.1| + |gap|, rest)
  {
    SplitParam(text, i, p.0, p.1, gap + rest);
    AtSplit(text, i + |p.0| + 1 + |p.1|, gap, rest);
  }

  lemma SplitNextParam(text: string, i: int, ps: seq<(string, string)>, rest: string)
    requires |ps| > 1 && At(text, i, ParamsThen(ps, rest))
    ensures var (k, v) := ps[0];
            && At(text, i, k) && At(text, i + |k|, "=") && At(text, i + |k| + 1, v)
            && At(text, i + |k| + 1 + |v|, "&") && At(text, i + |k| + 1 + |v| + 1, ParamsThen(ps[1..], rest))
            && |ParamsThen(ps, rest)| == |k| + 1 + |v| + 1 + |ParamsThen(ps[1..], rest)|
  {
    SplitParam(text, i, ps[0].0, ps[0].1, "&" + ParamsThen(ps[1..], rest));
    AtSplit(text, i + |ps[0].0| + 1 + |ps[0].1|, "&", ParamsThen(ps[1..], rest));
  }

  lemma ParseOnlyParam(text: string, c: Config, ps: seq<(string, string)>, gap: string, rest: string)
    returns (n: nat, d: Config)
    requires c.state == BEFORE_URI_PARAMS_KEY && 0 <= c.start <= c.end && gap != "" && Blanks(gap)
    requires |ps| == 1 && ParamOk(ps[0]) && At(text, c.end, ParamsThen(ps, gap + rest))
    ensures d.state == BEFORE_PROTOCOL && 0 <= d.start <= d.end == c.end + n && d.vers == c.vers
    ensures d.req == c.req.(params := ParamMap(c.req.params, ps))
    ensures Reaches(text, c, n, d) && At(text, d.end, rest) && n + |rest| == |ParamsThen(ps, gap + rest)|
  {
    SplitLastParam(text, c.end, ps[0], gap, rest);
    n, d := ParseLastParam(text, c, ps[0], gap);
    assert ps[1..] == [];
  }

  lemma ParseFirstParam(text: string, c: Config, ps: seq<(string, string)>, rest: string) returns (n: nat, d: Config)
    requires c.state == BEFORE_URI_PARAMS_KEY && 0 <= c.start <= c.end
    requires |ps| > 1 && ParamOk(ps[0]) && At(text, c.end, ParamsThen(ps, rest))
    ensures d.state == BEFORE_URI_PARAMS_KEY && 0 <= d.start <= d.end == c.end + n && d.vers == c.vers
    ensures d.req == c.req.(params := c.req.params[ps[0].0 := ps[0].1])
    ensures Reaches(text, c, n, d) && At(text, d.end, ParamsThen(ps[1..], rest))
    ensures n + |ParamsThen(ps[1..], rest)| == |ParamsThen(ps, rest)|
  {
    SplitNextParam(text, c.end, ps, rest);
    n, d := ParseNextParam(text, c, ps[0]);
  }

  /** The first parameter is taken, and the later ones are. */
  lemma JoinParams(text: string, c: Config, ps: seq<(string, string)>, m: nat, c1: Config, n: nat, d: Config)
    requires ps != [] && Reaches(text, c, m, c1) && Reaches(text, c1, n, d)
    requires c1.req == c.req.(params := c.req.params[ps[0].0 := ps[0].1])
    requires d.req == c1.req.(params := ParamMap(c1.req.params, ps[1..]))
    ensures Reaches(text, c, m + n, d) && d.req == c.req.(params := ParamMap(c.req.params, ps))
  {
    Compose(text, c, m, c1, n, d);
  }

  /** All parameters and the gap after them; of two with one key the later wins. */
  lemma {:induction false} ParseParams(text: string, c: Config, ps: seq<(string, string)>, gap: string, rest: string)
    returns (n: nat, d: Config)
    requires c.state == BEFORE_URI_PARAMS_KEY && 0 <= c.start <= c.end && ps != [] && gap != "" && Blanks(gap)
    requires forall p | p in ps :: ParamOk(p)
    requires At(text, c.end, ParamsThen(ps, gap + rest))
    ensures d.state == BEFORE_PROTOCOL && 0 <= d.start <= d.end == c.end + n && d.vers == c.vers
    ensures d.req == c.req.(params := ParamMap(c.req.params, ps))
    ensures Reaches(text, c, n, d) && At(text, d.end, rest) && n + |rest| == |ParamsThen(ps, gap + rest)|
    decreases |ps|
  {
    assert ps[0] in ps;
    if |ps| == 1 {
      n, d := ParseOnlyParam(text, c, ps, gap, rest);
    } else {
      var (tail, all) := (ps[1..], gap + rest);
      assert forall p | p in tail :: p in ps;
      var m, c1 := ParseFirstParam(text, c, ps, all);
      n, d := ParseParams(text, c1, tail, gap, rest);
      JoinParams(text, c, ps, m, c1, n, d);
      n := m + n;
    }
  }

  /** The path ends at a question mark, and the parameters and the gap follow. */
  lemma ParseQuery(text: string, c: Config, ps: seq<(string, string)>, gap: string, rest: string)
    returns (n: nat, d: Config)
    requires c.state == IN_URI && Readable(text, c) && gap != "" && Blanks(gap) && c.req.params == map[] && ps != []
    requires forall p | p in ps :: ParamOk(p)
    requires At(text, c.end, "?" + ParamsThen(ps, gap + rest))
    ensures d.state == BEFORE_PROTOCOL && 0 <= d.start <= d.end == c.end + n && d.vers == c.vers
    ensures d.req == c.req.(url := text[c.start..c.end], params := ParamMap(map[], ps))
    ensures Reaches(text, c, n, d) && At(text, d.end, rest) && n + |rest| == 1 + |ParamsThen(ps, gap + rest)|
  {
    AtSplit(text, c.end, "?", ParamsThen(ps, gap + rest));
    var c1 := ParseQuestion(text, c);
    n, d := ParseParams(text, c1, ps, gap, rest);
    Compose(text, c, 1, c1, n, d);
    n := n + 1;
  }

  /** From the end of the path to the protocol. */
  lemma ParseTarget(text: string, c: Config, ps: seq<(string, string)>, gap: string, rest: string)
    returns (n: nat, d: Config)
    requires c.state == IN_URI && Readable(text, c) && gap != "" && Blanks(gap) && c.req.params == map[]
    requires forall p | p in ps :: ParamOk(p)
    requires At(text, c.end, TargetThen(ps, gap, rest))
    ensures d.state == BEFORE_PROTOCOL && 0 <= d.start <= d.end == c.end + n && d.vers == c.vers
    ensures d.req == c.req.(url := text[c.start..c.end], params := ParamMap(map[], ps))
    ensures Reaches(text, c, n, d) && At(text, d.end, rest) && n + |rest| == |TargetThen(ps, gap, rest)|
  {
    if ps == [] {
      AtSplit(text, c.end, gap, rest);
      n := |gap|;
      d := ParsePlainTarget(text, c, gap);
    } else {
      n, d := ParseQuery(text, c, ps, gap, rest);
    }
  }

  /** Protocol, version and line end. */
  lemma ParseVersion(text: string, c: Config, v: string, rest: string) returns (d: Config)
    requires c.state == BEFORE_PROTOCOL && 0 <= c.start <= c.end && c.vers == "" && VersionOk(v)
    requires At(text, c.end, VersionThen(v, rest))
    ensures d.state == CRLF && 0 <= d.start <= d.end == c.end + 10
    ensures d.req == c.req.(protocol := "HTTP", version := VersionOf(v))
    ensures Reaches(text, c, 10, d) && At(text, d.end, rest)
  {
    AtSplit(text, c.end, "HTTP", "/" + (v + ("\r\n" + rest)));
    AtSplit(text, c.end + 4, "/", v + ("\r\n" + rest));
    AtSplit(text, c.end + 5, v, "\r\n" + rest);
    AtSplit(text, c.end + 8, "\r\n", rest);
    var c1 := ParseProtocol(text, c);
    d := ParseVersionNumber(text, c1, v);
    Compose(text, c, 4, c1, 6, d);
  }

  lemma ParseProtocol(text: string, c: Config) returns (d: Config)
    requires c.state == BEFORE_PROTOCOL && 0 <= c.start <= c.end && At(text, c.end, "HTTP")
    ensures d == c.(state := IN_PROTOCOL, start := c.end, end := c.end + 4) && text[d.start..d.end] == "HTTP"
    ensures Reaches(text, c, 4, d)
  {
    Peek(text, c.end, "HTTP");
    d := c.(state := IN_PROTOCOL, start := c.end, end := c.end + 4);
    WordAlone(text, c, "HTTP", d.(end := c.end + 1));
  }

  lemma ParseVersionNumber(text: string, c: Config, v: string) returns (d: Config)
    requires c.state == IN_PROTOCOL && Readable(text, c) && text[c.start..c.end] == "HTTP" && c.vers == ""
             && VersionOk(v)
    requires At(text, c.end, "/") && At(text, c.end + 1, v) && At(text, c.end + 4, "\r\n")
    ensures d.state == CRLF && 0 <= d.start <= d.end == c.end + 6
    ensures d.req == c.req.(protocol := "HTTP", version := VersionOf(v))
    ensures Reaches(text, c, 6, d)
  {
    var i := c.end;
    Peek(text, i, "/");
    AtSlice(text, i + 1, v);
    assert text[i + 1] == v[0] && text[i + 2] == '.' && text[i + 3] == v[2];
    var c1 := c.(state := BEFORE_VERSION, start := i, end := i + 1, req := c.req.(protocol := "HTTP"));
    var c2 := c1.(state := IN_VERSION, start := i + 1, end := i + 2);
    var c3 := c2.(state := VERSION_SPLIT, start := i + 2, end := i + 3, vers := v[..1]);
    ParseMajor(text, c, c1, c2, c3, v);
    d := ParseMinor(text, c3, v);
    Compose(text, c, 3, c3, 3, d);
  }

  lemma ParseMajor(text: string, c: Config, c1: Config, c2: Config, c3: Config, v: string)
    requires c.state == IN_PROTOCOL && Readable(text, c) && text[c.start..c.end] == "HTTP" && c.vers == ""
             && c.end + 3 <= |text|
    requires VersionOk(v) && text[c.end] == '/' && text[c.end + 1] == v[0] && text[c.end + 2] == '.'
    requires c1 == c.(state := BEFORE_VERSION, start := c.end, end := c.end + 1, req := c.req.(protocol := "HTTP"))
    requires c2 == c1.(state := IN_VERSION, start := c.end + 1, end := c.end + 2)
    requires c3 == c2.(state := VERSION_SPLIT, start := c.end + 2, end := c.end + 3, vers := v[..1])
    ensures Reaches(text, c, 3, c3)
  {
    Turn(text, c, c1);
    Turn(text, c1, c2);
    assert "" + text[c2.start..c2.end] == v[..1];
    Turn(text, c2, c3);
    Compose(text, c, 1, c1, 1, c2);
    Compose(text, c, 2, c2, 1, c3);
  }

  lemma ParseMinor(text: string, c: Config, v: string) returns (d: Config)
    requires c.state == VERSION_SPLIT && 0 <= c.start <= c.end && VersionOk(v) && c.vers == v[..1]
             && c.end + 3 <= |text|
    requires text[c.end] == v[2] && At(text, c.end + 1, "\r\n")
    ensures d.state == CRLF && 0 <= d.start <= d.end == c.end + 3 && d.req == c.req.(version := VersionOf(v))
    ensures Reaches(text, c, 3, d)
  {
    var c1 := c.(state := IN_VERSION, start := c.end, end := c.end + 1, vers := v[..1] + ".");
    Turn(text, c, c1);
    d := ParseVersionEnd(text, c1, v);
    Compose(text, c, 1, c1, 2, d);
  }

  lemma ParseVersionEnd(text: string, c: Config, v: string) returns (d: Config)
    requires c.state == IN_VERSION && 0 <= c.start && c.end == c.start + 1 && VersionOk(v) && c.vers == v[..1] + "."
    requires At(text, c.end, "\r\n") && text[c.start] == v[2]
    ensures d.state == CRLF && 0 <= d.start <= d.end == c.end + 2 && d.req == c.req.(version := VersionOf(v))
    ensures Reaches(text, c, 2, d)
  {
    Peek(text, c.end, "\r\n");
    Peek(text, c.end + 1, "\n");
    var c1 := c.(state := CR, end := c.end + 1, vers := v, req := c.req.(version := VersionOf(v)));
    VersionEnd(text, c, v);
    Turn(text, c, c1);
    d := c1.(state := CRLF, start := c1.end, end := c1.end + 1);
    Turn(text, c1, d);
    Compose(text, c, 1, c1, 1, d);
  }

  lemma VersionEnd(text: string, c: Config, v: string)
    requires c.state == IN_VERSION && 0 <= c.start && c.end == c.start + 1 < |text| && VersionOk(v)
             && c.vers == v[..1] + "."
    requires text[c.start] == v[2] && text[c.end] == '\r'
    ensures Step(text, c) == c.(state := CR, end := c.end + 1, vers := v, req := c.req.(version := VersionOf(v)))
  {
    assert c.vers + text[c.start..c.end] == v;
  }

  // ---------- Header fields ----------

  lemma ParseFieldKey(text: string, c: Config, k: string) returns (d: Config)
    requires c.state == CRLF && 0 <= c.start <= c.end && At(text, c.end, k)
    requires k != "" && !IsBlank(k[0]) && k[0] != '\r' && forall ch | ch in k[1..] :: ch != ':' && !IsBlank(ch)
    ensures d == c.(state := HEADER_KEY, start := c.end, end := c.end + |k|) && text[d.start..d.end] == k
    ensures Reaches(text, c, |k|, d)
  {
    Peek(text, c.end, k);
    d := c.(state := HEADER_KEY, start := c.end, end := c.end + |k|);
    WordAlone(text, c, k, d.(end := c.end + 1));
  }

  /** Blanks between the key and the colon. */
  lemma ParseKeyGap(text: string, c: Config, gap: string) returns (d: Config)
    requires c.state == HEADER_KEY && Readable(text, c) && Blanks(gap) && gap != "" && At(text, c.end, gap)
    ensures var k := text[c.start..c.end];
            d == c.(state := HEADER_BEFORE_COLON, start := c.end, end := c.end + |gap|, key := k,
                    req := c.req.(headers := c.req.headers[k := ""]))
    ensures Reaches(text, c, |gap|, d)
  {
    Peek(text, c.end, gap);
    var k := text[c.start..c.end];
    d := c.(state := HEADER_BEFORE_COLON, start := c.end, end := c.end + |gap|, key := k,
            req := c.req.(headers := c.req.headers[k := ""]));
    assert gap[0] in gap;
    WordAlone(text, c, gap, d.(end := c.end + 1));
  }

  /** The colon right after the key, or after blanks, when the key is already stored. */
  lemma ParseColonAlone(text: string, c: Config) returns (d: Config)
    requires (c.state == HEADER_KEY || c.state == HEADER_BEFORE_COLON) && Readable(text, c) && At(text, c.end, ":")
    ensures d.state == HEADER_AFTER_COLON && 0 <= d.start <= d.end == c.end + 1 && d.vers == c.vers
    ensures var k := text[c.start..c.end];
            if c.state == HEADER_KEY then d.key == k && d.req == c.req.(headers := c.req.headers[k := ""])
            else d.key == c.key && d.req == c.req
    ensures Reaches(text, c, 1, d)
  {
    Peek(text, c.end, ":");
    d := Step(text, c);
    Turn(text, c, d);
  }

  /** Any blanks and the colon. */
  lemma ParseColon(text: string, c: Config, gap: string) returns (d: Config)
    requires c.state == HEADER_KEY && Readable(text, c) && Blanks(gap) && At(text, c.end, gap)
             && At(text, c.end + |gap|, ":")
    ensures var k := text[c.start..c.end];
            && d.state == HEADER_AFTER_COLON && 0 <= d.start <= d.end == c.end + |gap| + 1 && d.key == k
            && d.vers == c.vers
            && d.req == c.req.(headers := c.req.headers[k := ""])
    ensures Reaches(text, c, |gap| + 1, d)
  {
    if gap == "" {
      d := ParseColonAlone(text, c);
    } else {
      var c1 := ParseKeyGap(text, c, gap);
      d := ParseColonAlone(text, c1);
      Compose(text, c, |gap|, c1, 1, d);
    }
  }

  lemma ParseValueWord(text: string, c: Config, v: string) returns (d: Config)
    requires c.state == HEADER_AFTER_COLON && 0 <= c.start <= c.end && At(text, c.end, v)
    requires v != "" && !IsBlank(v[0]) && forall ch | ch in v[1..] :: ch != '\r'
    ensures d == c.(state := HEADER_VALUE, start := c.end, end := c.end + |v|) && text[d.start..d.end] == v
    ensures Reaches(text, c, |v|, d)
  {
    Peek(text, c.end, v);
    d := c.(state := HEADER_VALUE, start := c.end, end := c.end + |v|);
    WordAlone(text, c, v, d.(end := c.end + 1));
  }

  /** Any blanks and the value. */
  lemma ParseFieldValue(text: string, c: Config, gap: string, v: string) returns (d: Config)
    requires c.state == HEADER_AFTER_COLON && 0 <= c.start <= c.end && Blanks(gap) && At(text, c.end, gap)
             && At(text, c.end + |gap|, v)
    requires v != "" && !IsBlank(v[0]) && forall ch | ch in v[1..] :: ch != '\r'
    ensures d.state == HEADER_VALUE && 0 <= d.start <= d.end == c.end + |gap| + |v| && text[d.start..d.end] == v
    ensures d.key == c.key && d.req == c.req && d.vers == c.vers
    ensures Reaches(text, c, |gap| + |v|, d)
  {
    var c1 := c.(end := c.end + |gap|);
    Scan(text, c, gap);
    d := ParseValueWord(text, c1, v);
    Compose(text, c, |gap|, c1, |v|, d);
  }

  lemma ParseFieldEnd(text: string, c: Config) returns (d: Config)
    requires c.state == HEADER_VALUE && Readable(text, c) && At(text, c.end, "\r\n")
    ensures d.state == CRLF && 0 <= d.start <= d.end == c.end + 2
    ensures d.req == c.req.(headers := c.req.headers[c.key := text[c.start..c.end]])
    ensures Reaches(text, c, 2, d)
  {
    Peek(text, c.end, "\r\n");
    Peek(text, c.end + 1, "\n");
    var c1 := c.(state := CR, end := c.end + 1, req := c.req.(headers := c.req.headers[c.key := text[c.start..c.end]]));
    Turn(text, c, c1);
    d := c1.(state := CRLF, start := c1.end, end := c1.end + 1);
    Turn(text, c1, d);
    Compose(text, c, 1, c1, 1, d);
  }

  lemma SplitField(text: string, i: int, h: Field, rest: string)
    requires At(text, i, h.key + (h.before + (":" + (h.after + (h.value + ("\r\n" + rest))))))
    ensures var j := i + |h.key| + |h.before| + 1;
            && At(text, i, h.key) && At(text, i + |h.key|, h.before) && At(text, j - 1, ":") && At(text, j, h.after)
            && At(text, j + |h.after|, h.value) && At(text, j + |h.after| + |h.value|, "\r\n")
            && At(text, j + |h.after| + |h.value| + 2, rest)
  {
    var j := i + |h.key| + |h.before| + 1;
    AtSplit(text, i, h.key, h.before + (":" + (h.after + (h.value + ("\r\n" + rest)))));
    AtSplit(text, i + |h.key|, h.before, ":" + (h.after + (h.value + ("\r\n" + rest))));
    AtSplit(text, j - 1, ":", h.after + (h.value + ("\r\n" + rest)));
    AtSplit(text, j, h.after, h.value + ("\r\n" + rest));
    AtSplit(text, j + |h.after|, h.value, "\r\n" + rest);
    AtSplit(text, j + |h.after| + |h.value|, "\r\n", rest);
  }

  lemma ParseField(text: string, c: Config, h: Field) returns (n: nat, d: Config)
    requires c.state == CRLF && 0 <= c.start <= c.end && FieldOk(h)
    requires var j := c.end + |h.key| + |h.before| + 1;
             && At(text, c.end, h.key) && At(text, c.end + |h.key|, h.before) && At(text, j - 1, ":")
             && At(text, j, h.after)
             && At(text, j + |h.after|, h.value) && At(text, j + |h.after| + |h.value|, "\r\n")
    ensures n == |h.key| + |h.before| + 1 + |h.after| + |h.value| + 2
    ensures d.state == CRLF && 0 <= d.start <= d.end == c.end + n
    ensures d.req == c.req.(headers := c.req.headers[h.key := h.value])
    ensures Reaches(text, c, n, d)
  {
    var c1 := ParseFieldKey(text, c, h.key);
    var c2 := ParseColon(text, c1, h.before);
    Compose(text, c, |h.key|, c1, |h.before| + 1, c2);
    n, d := ParseFieldRest(text, c2, h);
    Compose(text, c, |h.key| + |h.before| + 1, c2, n, d);
    n := |h.key| + |h.before| + 1 + n;
    Overwrite(c.req.headers, h.key, "", h.value);
  }

  lemma ParseFieldRest(text: string, c: Config, h: Field) returns (n: nat, d: Config)
    requires c.state == HEADER_AFTER_COLON && 0 <= c.start <= c.end && FieldOk(h)
    requires At(text, c.end, h.after) && At(text, c.end + |h.after|, h.value)
             && At(text, c.end + |h.after| + |h.value|, "\r\n")
    ensures n == |h.after| + |h.value| + 2 && d.state == CRLF && 0 <= d.start <= d.end == c.end + n
    ensures d.req == c.req.(headers := c.req.headers[c.key := h.value])
    ensures Reaches(text, c, n, d)
  {
    var c1 := ParseFieldValue(text, c, h.after, h.value);
    d := ParseFieldEnd(text, c1);
    Compose(text, c, |h.after| + |h.value|, c1, 2, d);
    n := |h.after| + |h.value| + 2;
  }

  lemma FieldsLength(hs: seq<Field>, rest: string)
    requires hs != []
    ensures var h := hs[0];
            |FieldsThen(hs, rest)| == |h.key| + |h.before| + 1 + |h.after| + |h.value| + 2 + |FieldsThen(hs[1..], rest)|
  {}

  lemma ParseFieldThen(text: string, c: Config, h: Field, tail: string) returns (n: nat, d: Config)
    requires c.state == CRLF && 0 <= c.start <= c.end && FieldOk(h)
    requires At(text, c.end, h.key + (h.before + (":" + (h.after + (h.value + ("\r\n" + tail))))))
    ensures d.state == CRLF && 0 <= d.start <= d.end == c.end + n
    ensures d.req == c.req.(headers := c.req.headers[h.key := h.value])
    ensures Reaches(text, c, n, d) && At(text, d.end, tail)
    ensures n == |h.key| + |h.before| + 1 + |h.after| + |h.value| + 2
  {
    SplitField(text, c.end, h, tail);
    n, d := ParseField(text, c, h);
  }

  lemma ParseFirstField(text: string, c: Config, hs: seq<Field>, rest: string) returns (n: nat, d: Config)
    requires c.state == CRLF && 0 <= c.start <= c.end
    requires hs != [] && FieldOk(hs[0]) && At(text, c.end, FieldsThen(hs, rest))
    ensures d.state == CRLF && 0 <= d.start <= d.end == c.end + n
    ensures d.req == c.req.(headers := c.req.headers[hs[0].key := hs[0].value])
    ensures Reaches(text, c, n, d) && At(text, d.end, FieldsThen(hs[1..], rest))
    ensures n + |FieldsThen(hs[1..], rest)| == |FieldsThen(hs, rest)|
  {
    FieldsLength(hs, rest);
    n, d := ParseFieldThen(text, c, hs[0], FieldsThen(hs[1..], rest));
  }

  lemma {:induction false} ParseFields(text: string, c: Config, hs: seq<Field>, rest: string)
    returns (n: nat, d: Config)
    requires c.state == CRLF && 0 <= c.start <= c.end && (forall h | h in hs :: FieldOk(h))
             && At(text, c.end, FieldsThen(hs, rest))
    ensures d.state == CRLF && 0 <= d.start <= d.end == c.end + n
    ensures d.req == c.req.(headers := FieldMap(c.req.headers, hs))
    ensures Reaches(text, c, n, d) && At(text, d.end, rest) && n + |rest| == |FieldsThen(hs, rest)|
    decreases |hs|
  {
    if hs == [] {
      n, d := 0, c;
      Traces.None(Turns(text), c);
    } else {
      assert hs[0] in hs;
      var m, c1 := ParseFirstField(text, c, hs, rest);
      n, d := ParseFields(text, c1, hs[1..], rest);
      Compose(text, c, m, c1, n, d);
      n := m + n;
    }
  }

  // ---------- The whole head, then the body ----------

  /** Method and path. */
  lemma ParseMethodAndPath(text: string, m: Message, target: string) returns (n: nat, d: Config)
    requires LineOk(m) && At(text, 0, MethodString(m.verb) + (m.gap1 + (m.url + target)))
    ensures Reaches(text, INITIAL, n, d) && At(text, d.end, target)
    ensures n == |MethodString(m.verb)| + |m.gap1| + |m.url|
    ensures d.state == IN_URI && 0 <= d.start <= d.end == n && text[d.start..d.end] == m.url && d.vers == ""
    ensures d.req == EMPTY_REQUEST.(verb := m.verb)
  {
    var v := MethodString(m.verb);
    AtSplit(text, 0, v, m.gap1 + (m.url + target));
    AtSplit(text, |v|, m.gap1, m.url + target);
    AtSplit(text, |v| + |m.gap1|, m.url, target);
    ParseVerb(text, m.verb, m.gap1);
    var c := Config(BEFORE_URI, |v|, |v| + |m.gap1|, "", "", EMPTY_REQUEST.(verb := m.verb));
    d := ParseUrl(text, c, m.url);
    n := |v| + |m.gap1| + |m.url|;
    Compose(text, INITIAL, |v| + |m.gap1|, c, |m.url|, d);
  }

  lemma ParseLine(text: string, m: Message, rest: string) returns (n: nat, d: Config)
    requires LineOk(m) && text == MethodString(m.verb) + (m.gap1 + (m.url + TargetThen(m.params, m.gap2, rest)))
    ensures Reaches(text, INITIAL, n, d) && At(text, d.end, rest) && n + |rest| == |text|
    ensures d.state == BEFORE_PROTOCOL && 0 <= d.start <= d.end == n && d.vers == ""
    ensures d.req == EMPTY_REQUEST.(verb := m.verb, url := m.url, params := ParamMap(map[], m.params))
  {
    AtSlice(text, 0, text);
    var k, c := ParseMethodAndPath(text, m, TargetThen(m.params, m.gap2, rest));
    n, d := ParseTarget(text, c, m.params, m.gap2, rest);
    Compose(text, INITIAL, k, c, n, d);
    n := k + n;
  }

  /** The request line up to the protocol. */
  lemma ParseRequestLine(m: Message, rest: string) returns (n: nat, d: Config)
    requires LineOk(m) && rest == VersionThen(m.version, FieldsThen(m.fields, "\r\n" + m.body))
    ensures var text := Print(m);
            && Reaches(text, INITIAL, n, d) && At(text, d.end, rest) && n + |rest| == |text|
            && d.state == BEFORE_PROTOCOL && 0 <= d.start <= d.end == n && d.vers == ""
            && d.req == EMPTY_REQUEST.(verb := m.verb, url := m.url, params := ParamMap(map[], m.params))
  {
    n, d := ParseLine(Print(m), m, rest);
  }

  /** Protocol and header fields, up to the blank line. */
  lemma ParseToFields(m: Message, fields: string) returns (n: nat, d: Config)
    requires LineOk(m) && fields == FieldsThen(m.fields, "\r\n" + m.body)
    ensures var text := Print(m);
            && Reaches(text, INITIAL, n, d) && At(text, d.end, fields) && n + |fields| == |text|
            && d.state == CRLF && 0 <= d.start <= d.end == n
            && d.req == Reading(m).(headers := map[], body := "")
  {
    var c;
    n, c := ParseRequestLine(m, VersionThen(m.version, fields));
    d := ParseVersion(Print(m), c, m.version, fields);
    Compose(Print(m), INITIAL, n, c, 10, d);
    n := n + 10;
  }

  lemma ReadingOfFields(m: Message, r: Request)
    requires r == Reading(m).(headers := map[], body := "")
    ensures r.(headers := FieldMap(r.headers, m.fields)) == Reading(m).(body := "")
  {}

  /** The line feed of the blank line decides whether there is a body. */
  lemma ParseLastLineFeed(text: string, c: Config) returns (d: Config)
    requires c.state == CRLFCR && 0 <= c.start <= c.end && At(text, c.end, "\n")
    ensures Reaches(text, c, 1, d) && d.end == c.end + 1 && 0 <= d.start <= d.end && d.req == c.req
    ensures if ReadsBody(c.req.headers) then d.state == BODY && d.start == d.end else d.state == COMPLETE
  {
    Peek(text, c.end, "\n");
    d := Step(text, c);
    Turn(text, c, d);
  }

  lemma ParseBlankLine(text: string, c: Config) returns (d: Config)
    requires c.state == CRLF && 0 <= c.start <= c.end && At(text, c.end, "\r\n")
    ensures Reaches(text, c, 2, d) && d.end == c.end + 2 && 0 <= d.start <= d.end && d.req == c.req
    ensures if ReadsBody(c.req.headers) then d.state == BODY && d.start == d.end else d.state == COMPLETE
  {
    Peek(text, c.end, "\r\n");
    assert "\r\n"[1..] == "\n";
    var c1 := c.(state := CRLFCR, end := c.end + 1);
    Turn(text, c, c1);
    d := ParseLastLineFeed(text, c1);
    Compose(text, c, 1, c1, 1, d);
  }

  /** Header fields and the blank line. */
  lemma ParseToBody(text: string, n: nat, c: Config, hs: seq<Field>, body: string) returns (d: Config)
    requires Reaches(text, INITIAL, n, c) && c.state == CRLF && 0 <= c.start <= c.end == n
             && forall h | h in hs :: FieldOk(h)
    requires At(text, n, FieldsThen(hs, "\r\n" + body)) && n + |FieldsThen(hs, "\r\n" + body)| == |text|
    ensures d.req == c.req.(headers := FieldMap(c.req.headers, hs)) && HeadDone(text, body, d)
  {
    var k, c1 := ParseFields(text, c, hs, "\r\n" + body);
    Compose(text, INITIAL, n, c, k, c1);
    d := ParseBodyless(text, n + k, c1, body);
  }

  lemma ParseBodyless(text: string, n: nat, c: Config, body: string) returns (d: Config)
    requires Reaches(text, INITIAL, n, c) && c.state == CRLF && 0 <= c.start <= c.end == n
    requires At(text, n, "\r\n" + body) && n + 2 + |body| == |text|
    ensures d.req == c.req && HeadDone(text, body, d)
  {
    AtSplit(text, n, "\r\n", body);
    AtSlice(text, n + 2, body);
    d := ParseBlankLine(text, c);
    Compose(text, INITIAL, n, c, 2, d);
  }

  /** The machine has read all but the body. */
  ghost predicate HeadDone(text: string, body: string, d: Config) {
    var h := |text| - |body|;
    && h > 0 && Reaches(text, INITIAL, h, d) && text[h..] == body && d.end == h && 0 <= d.start <= h
    && (if ReadsBody(d.req.headers) then d.state == BODY && d.start == h else d.state == COMPLETE)
  }

  /** Every byte of the head is consumed by exactly one turn, with the cursors in order. */
  lemma ParseHead(m: Message) returns (d: Config)
    requires WellFormed(m)
    ensures HeadDone(Print(m), m.body, d) && d.req == Reading(m).(body := "")
  {
    var n, c := ParseToFields(m, FieldsThen(m.fields, "\r\n" + m.body));
    d := ParseToBody(Print(m), n, c, m.fields, m.body);
    ReadingOfFields(m, c.req);
  }

  // ---------- Round trip ----------

  /** The body is what the header announces: nothing when it announces nothing. */
  predicate BodyOk(m: Message) {
    var headers := FieldMap(map[], m.fields);
    if ReadsBody(headers) then |m.body| >= ContentLength(headers) else m.body == ""
  }

  lemma ParsesOnce(text: string, r: Request, q: Request)
    requires Parses(text, r) && Parses(text, q)
    ensures r == q
  {
    var n, d :| Ends(text, n, d) && d.state == COMPLETE && d.req == r;
    var k, e :| Ends(text, k, e) && e.state == COMPLETE && e.req == q;
    Longest(text, n, d, k, e);
  }

  lemma DivergesNotParses(text: string, r: Request)
    requires Diverges(text)
    ensures !Parses(text, r)
  {
    if Parses(text, r) {
      var n, d :| Ends(text, n, d) && d.state == COMPLETE && d.req == r;
      Exclusive(text, n, d);
    }
  }

  /** What the machine makes of every well-formed request text. */
  lemma Outcome(m: Message)
    requires WellFormed(m)
    ensures var (text, headers) := (Print(m), FieldMap(map[], m.fields));
            if !ReadsBody(headers) then Parses(text, Reading(m).(body := ""))
            else if |m.body| >= ContentLength(headers) then Parses(text, Reading(m))
            else Diverges(text)
  {
    var d := ParseHead(m);
    HeadOutcome(Print(m), m.body, d);
  }

  lemma HeadOutcome(text: string, body: string, d: Config)
    requires HeadDone(text, body, d)
    ensures if !ReadsBody(d.req.headers) then Parses(text, d.req)
            else if |body| >= ContentLength(d.req.headers) then Parses(text, d.req.(body := body))
            else Diverges(text)
  {
    var h := |text| - |body|;
    if ReadsBody(d.req.headers) {
      BodyTurns(text, h, d);
    } else {
      assert Ends(text, h, d);
    }
  }

  /** Every well-formed request text parses back to what it means exactly when its body is long
      enough for its Content-Length, empty if that is given and not positive, and its version is
      not 1.0; with a body too short the loop never ends. */
  lemma RoundTrip(m: Message)
    requires WellFormed(m)
    ensures Parses(Print(m), Meaning(m)) <==> BodyOk(m) && m.version != "1.0"
    ensures var headers := FieldMap(map[], m.fields);
            && (ReadsBody(headers) && |m.body| < ContentLength(headers) ==> Diverges(Print(m)))
            && (!ReadsBody(headers) ==> Parses(Print(m), Reading(m).(body := "")))
  {
    var (text, headers) := (Print(m), FieldMap(map[], m.fields));
    Outcome(m);
    VersionIsNamedIff(m.version);
    if ReadsBody(headers) && |m.body| < ContentLength(headers) {
      DivergesNotParses(text, Meaning(m));
    } else if Parses(text, Meaning(m)) {
      ParsesOnce(text, Meaning(m), if ReadsBody(headers) then Reading(m) else Reading(m).(body := ""));
    }
  }

  // ---------- Two requests that do not come back ----------

  /** A POST whose Content-Length is five and whose body is empty. */
  const NO_BODY := Message(POST, " ", "/", [], " ", "1.1", [Field("Content-Length", "", " ", "5")], "")

  lemma LengthName()
    ensures forall ch | ch in "Content-Length" :: ch != ':' && !IsBlank(ch) && ch != '\r'
  {}

  lemma PlainFieldOk(h: Field)
    requires h.key != "" && forall ch | ch in h.key :: ch != ':' && !IsBlank(ch) && ch != '\r'
    requires |h.value| == 1 && !IsBlank(h.value[0]) && h.before == "" && h.after == " "
    ensures FieldOk(h)
  {
    assert h.key[0] in h.key && forall ch | ch in h.key[1..] :: ch in h.key;
  }

  lemma HeaderOf(h: Field)
    ensures FieldMap(map[], [h]) == map[h.key := h.value]
  {
    assert [h][1..] == [];
    assert FieldMap(map[h.key := h.value], []) == map[h.key := h.value];
  }

  lemma FiveIsFive(headers: map<string, string>)
    requires headers == map["Content-Length" := "5"]
    ensures ContentLength(headers) == 5 && ReadsBody(headers)
  {
    assert "5"[1..] == "";
    assert Digits("5", 0) == Digits("", 5) == 5;
  }

  /** It makes the loop run for ever. */
  lemma MissingBodyDiverges()
    ensures WellFormed(NO_BODY) && Diverges(Print(NO_BODY))
  {
    var m := NO_BODY;
    LengthName();
    PlainFieldOk(m.fields[0]);
    HeaderOf(m.fields[0]);
    FiveIsFive(FieldMap(map[], m.fields));
    RoundTrip(m);
  }

  /** A complete HTTP/1.0 request is not parsed to what it means. */
  lemma OldVersionIsLost()
    ensures var m := Message(GET, " ", "/", [], " ", "1.0", [], "");
            WellFormed(m) && BodyOk(m) && Meaning(m).version == HTTP_10 && !Parses(Print(m), Meaning(m))
  {
    RoundTrip(Message(GET, " ", "/", [], " ", "1.0", [], ""));
  }
}
