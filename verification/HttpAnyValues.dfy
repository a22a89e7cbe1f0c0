/** Requests whose field values may be empty: the machine takes the line after such a field for its
    value, so the text is one of non-empty values in which lines are merged. */
module HttpAnyValues {
  import Traces
  import opened HttpMachine
  import opened HttpRoundTrip

  /** A field line in which only the delimiters are where they belong, with any value, also none. */
  predicate Spelled(h: Field) {
    && h.key != "" && !IsBlank(h.key[0]) && '\r' !in h.key
    && (forall ch | ch in h.key[1..] :: ch != ':' && !IsBlank(ch))
    && '\r' !in h.value && (h.value != "" ==> !IsBlank(h.value[0]))
    && Blanks(h.before) && Blanks(h.after)
  }

  predicate Spelling(m: Message) { LineOk(m) && forall h | h in m.fields :: Spelled(h) }

  predicate NoneEmpty(hs: seq<Field>) { forall h | h in hs :: h.value != "" }

  function FieldLine(h: Field): string { h.key + (h.before + (":" + (h.after + h.value))) }

  /** The fields as the machine reads them: an empty value takes in the line end and the line
      after it, the blank line if there is no other. */
  function Merged(hs: seq<Field>): seq<Field>
    decreases |hs|
  {
    if hs == [] then []
    else if hs[0].value != "" then [hs[0]] + Merged(hs[1..])
    else if |hs| == 1 then [hs[0].(value := "\r\n")]
    else [hs[0].(value := "\r\n" + FieldLine(hs[1]))] + Merged(hs[2..])
  }

  predicate TakesBlankLine(hs: seq<Field>)
    decreases |hs|
  {
    hs != [] && if hs[0].value != "" then TakesBlankLine(hs[1..]) else |hs| == 1 || TakesBlankLine(hs[2..])
  }

  lemma FieldsThenCons(h: Field, hs: seq<Field>, rest: string)
    ensures FieldsThen([h] + hs, rest) == FieldLine(h) + ("\r\n" + FieldsThen(hs, rest))
  {
    assert ([h] + hs)[1..] == hs;
    var tail := "\r\n" + FieldsThen(hs, rest);
    assert h.key + (h.before + (":" + (h.after + (h.value + tail)))) == FieldLine(h) + tail;
  }

  lemma LongerLine(h: Field, extra: string)
    requires h.value == ""
    ensures FieldLine(h.(value := extra)) == FieldLine(h) + extra
  {
    assert h.key + (h.before + (":" + (h.after + extra))) == h.key + (h.before + (":" + (h.after + ""))) + extra;
  }

  lemma TakenBlankLine(h: Field, rest: string, body: string, eol: string)
    requires h.value == "" && eol == "\r\n" && rest == eol + body
    ensures FieldsThen([h], rest) == FieldsThen([h.(value := eol)], body)
  {
    var g := h.(value := eol);
    LongerLine(h, eol);
    OneField(h, rest);
    OneField(g, body);
    assert FieldLine(h) + (eol + rest) == FieldLine(h) + eol + rest;
  }

  lemma OneField(h: Field, rest: string)
    ensures FieldsThen([h], rest) == FieldLine(h) + ("\r\n" + rest)
  {
    FieldsThenCons(h, [], rest);
    assert [h] + [] == [h];
  }

  lemma Regroup(a: string, b: string, c: string, d: string)
    ensures a + (b + (c + d)) == a + (b + c) + d
  {}

  lemma TakenLine(h: Field, g: Field, hs: seq<Field>, rest: string, ks: seq<Field>, after: string)
    requires h.value == "" && FieldsThen(hs, rest) == FieldsThen(ks, after)
    ensures FieldsThen([h] + ([g] + hs), rest) == FieldsThen([h.(value := "\r\n" + FieldLine(g))] + ks, after)
  {
    var tail := "\r\n" + FieldsThen(hs, rest);
    FieldsThenCons(h, [g] + hs, rest);
    FieldsThenCons(g, hs, rest);
    FieldsThenCons(h.(value := "\r\n" + FieldLine(g)), ks, after);
    LongerLine(h, "\r\n" + FieldLine(g));
    Regroup(FieldLine(h), "\r\n", FieldLine(g), tail);
  }

  lemma {:induction false} MergedText(hs: seq<Field>, body: string)
    ensures FieldsThen(hs, "\r\n" + body) == FieldsThen(Merged(hs), if TakesBlankLine(hs) then body else "\r\n" + body)
    decreases |hs|
  {
    var rest := if TakesBlankLine(hs) then body else "\r\n" + body;
    if hs != [] {
      if hs[0].value != "" {
        MergedText(hs[1..], body);
        FieldsThenCons(hs[0], hs[1..], "\r\n" + body);
        FieldsThenCons(hs[0], Merged(hs[1..]), rest);
        assert hs == [hs[0]] + hs[1..];
      } else if |hs| == 1 {
        TakenBlankLine(hs[0], "\r\n" + body, body, "\r\n");
        assert hs == [hs[0]];
      } else {
        MergedText(hs[2..], body);
        TakenLine(hs[0], hs[1], hs[2..], "\r\n" + body, Merged(hs[2..]), rest);
        assert hs == [hs[0]] + ([hs[1]] + hs[2..]);
      }
    }
  }

  lemma MergedFieldOk(h: Field, g: Field)
    requires Spelled(h) && Spelled(g) && h.value == ""
    ensures FieldOk(h.(value := "\r\n")) && FieldOk(h.(value := "\r\n" + FieldLine(g)))
  {
    assert ("\r\n" + FieldLine(g))[1..] == "\n" + FieldLine(g);
    assert "\r\n"[1..] == "\n";
    assert forall ch | ch in h.key :: ch != '\r';
    assert h.key[0] in h.key;
  }

  lemma {:induction false} MergedOk(hs: seq<Field>)
    requires forall h | h in hs :: Spelled(h)
    ensures forall h | h in Merged(hs) :: FieldOk(h)
    decreases |hs|
  {
    if hs != [] {
      assert hs[0] in hs;
      if hs[0].value != "" {
        assert hs[0].key[0] in hs[0].key;
        assert forall h | h in hs[1..] :: h in hs;
        MergedOk(hs[1..]);
      } else if |hs| == 1 {
        MergedFieldOk(hs[0], hs[0]);
      } else {
        assert hs[1] in hs;
        MergedFieldOk(hs[0], hs[1]);
        assert forall h | h in hs[2..] :: h in hs;
        MergedOk(hs[2..]);
      }
    }
  }

  // ---------- When the blank line is taken for a value ----------

  /** Past the head's end and still among headers, the body can only come out too short. */
  predicate Late(text: string, h: nat, c: Config) {
    && h <= c.end && (c.state == BODY ==> h < c.start)
    && (h == |text| ==> c.req.body == "" && c.state != BODY && c.state != COMPLETE)
    && (h < |text| ==> |c.req.body| < |text| - h)
  }

  lemma LateStep(text: string, h: nat, c: Config)
    requires h <= |text| && Late(text, h, c) && Readable(text, c) && !Done(text, c)
    ensures Late(text, h, Step(text, c))
  {}

  lemma {:induction false} StaysLate(text: string, h: nat, c: Config, n: nat, e: Config)
    requires h <= |text| && Late(text, h, c) && Reaches(text, c, n, e)
    ensures Late(text, h, e)
    decreases n
  {
    if n == 0 {
      NoSteps(text, c, e);
    } else {
      var d := Traces.First(Turns(text), c, n, e);
      LateStep(text, h, c);
      StaysLate(text, h, d, n - 1, e);
    }
  }

  lemma NoSteps(text: string, c: Config, e: Config)
    requires Reaches(text, c, 0, e)
    ensures c == e
  {
    var t :| Traces.Trace(Turns(text), t) && |t| == 1 && t[0] == c && t[0] == e;
  }

  /** With the blank line gone, no parse has the whole body. */
  lemma {:induction false} LateNeverParses(text: string, h: nat, c: Config, r: Request)
    requires h <= |text| && Reaches(text, INITIAL, h, c) && Late(text, h, c) && c.state == CRLF
             && |r.body| == |text| - h
    ensures !Parses(text, r)
  {
    if Parses(text, r) {
      var n: nat, e :| Ends(text, n, e) && e.state == COMPLETE && e.req == r;
      Longest(text, n, e, h, c);
      if Done(text, c) { Longest(text, h, c, n, e); }
      Traces.Agree(Turns(text), INITIAL, h, c, n, e);
      StaysLate(text, h, c, n - h, e);
    }
  }

  lemma FieldsToBody(text: string, n: nat, c: Config, hs: seq<Field>, body: string) returns (d: Config)
    requires Reaches(text, INITIAL, n, c) && c.state == CRLF && 0 <= c.start <= c.end == n && c.req.body == ""
    requires (forall h | h in hs :: FieldOk(h)) && At(text, n, FieldsThen(hs, body))
             && n + |FieldsThen(hs, body)| == |text|
    ensures var h := |text| - |body|;
            h >= 0 && Reaches(text, INITIAL, h, d) && d.state == CRLF && d.start <= d.end == h && d.req.body == ""
  {
    var k;
    k, d := ParseFields(text, c, hs, body);
    Compose(text, INITIAL, n, c, k, d);
  }

  lemma TakenNeverParses(text: string, body: string, d: Config, r: Request)
    requires 0 <= |text| - |body| && Reaches(text, INITIAL, |text| - |body|, d)
    requires d.state == CRLF && d.start <= d.end == |text| - |body| && d.req.body == "" && r.body == body
    ensures !Parses(text, r)
  {
    LateNeverParses(text, |text| - |body|, d, r);
  }

  lemma TakenFromFields(text: string, n: nat, c: Config, hs: seq<Field>, body: string, r: Request)
    requires Reaches(text, INITIAL, n, c) && c.state == CRLF && 0 <= c.start <= c.end == n && c.req.body == ""
    requires (forall h | h in hs :: Spelled(h)) && TakesBlankLine(hs) && r.body == body
    requires At(text, n, FieldsThen(hs, "\r\n" + body)) && n + |FieldsThen(hs, "\r\n" + body)| == |text|
    ensures !Parses(text, r)
  {
    MergedText(hs, body);
    MergedOk(hs);
    var d := FieldsToBody(text, n, c, Merged(hs), body);
    TakenNeverParses(text, body, d, r);
  }

  /** A request text whose last field is read as empty is never parsed to what it means. */
  lemma BlankLineTaken(m: Message)
    requires Spelling(m) && TakesBlankLine(m.fields)
    ensures !Parses(Print(m), Meaning(m))
  {
    var n, c := ParseToFields(m, FieldsThen(m.fields, "\r\n" + m.body));
    assert c.req.body == "" && c.state == CRLF;
    TakenFromFields(Print(m), n, c, m.fields, m.body, Meaning(m));
  }

  // ---------- Round trip with any values ----------

  /** The fields are read as they were printed: no line is taken for a value, or what was read wrong
      is overwritten by later fields of the same name. */
  predicate ReadAsPrinted(hs: seq<Field>) {
    !TakesBlankLine(hs) && FieldMap(map[], Merged(hs)) == FieldMap(map[], hs)
  }

  lemma MergedPrint(m: Message)
    requires !TakesBlankLine(m.fields)
    ensures Print(m.(fields := Merged(m.fields))) == Print(m)
  {
    MergedText(m.fields, m.body);
  }

  /** With field values of any length, also none, a request text parses back to what it means
      exactly when, besides, its fields are read as they were printed. */
  lemma RoundTripAnyValues(m: Message)
    requires Spelling(m)
    ensures Parses(Print(m), Meaning(m)) <==> BodyOk(m) && m.version != "1.0" && ReadAsPrinted(m.fields)
  {
    if TakesBlankLine(m.fields) {
      BlankLineTaken(m);
    } else {
      var g := m.(fields := Merged(m.fields));
      MergedPrint(m);
      MergedOk(m.fields);
      RoundTrip(g);
      Outcome(g);
      if ReadAsPrinted(m.fields) {
        assert Meaning(g) == Meaning(m);
      } else {
        ReadOtherwise(m, g);
      }
    }
  }

  lemma ReadOtherwise(m: Message, g: Message)
    requires WellFormed(g) && Print(g) == Print(m) && FieldMap(map[], g.fields) != FieldMap(map[], m.fields)
    ensures !Parses(Print(m), Meaning(m))
  {
    var headers := FieldMap(map[], g.fields);
    Outcome(g);
    if ReadsBody(headers) && |g.body| < ContentLength(headers) {
      DivergesNotParses(Print(m), Meaning(m));
    } else if Parses(Print(m), Meaning(m)) {
      ParsesOnce(Print(m), Meaning(m), if ReadsBody(headers) then Reading(g) else Reading(g).(body := ""));
    }
  }

  // ---------- Different names ----------

  predicate DistinctNames(hs: seq<Field>) { forall i, j | 0 <= i < j < |hs| :: hs[i].key != hs[j].key }

  lemma {:induction false} NoneEmptyUnmerged(hs: seq<Field>)
    requires NoneEmpty(hs)
    ensures Merged(hs) == hs && !TakesBlankLine(hs)
    decreases |hs|
  {
    if hs != [] {
      assert hs[0] in hs;
      assert forall h | h in hs[1..] :: h in hs;
      NoneEmptyUnmerged(hs[1..]);
    }
  }

  lemma {:induction false} MergedNames(hs: seq<Field>, g: Field) returns (h: Field)
    requires g in Merged(hs)
    ensures h in hs && h.key == g.key
    decreases |hs|
  {
    if g == Merged(hs)[0] {
      h := hs[0];
    } else if hs[0].value != "" {
      h := MergedNames(hs[1..], g);
    } else {
      h := MergedNames(hs[2..], g);
    }
  }

  lemma {:induction false} MergedDistinct(hs: seq<Field>)
    requires DistinctNames(hs)
    ensures DistinctNames(Merged(hs))
    decreases |hs|
  {
    if hs != [] && (hs[0].value != "" || |hs| > 1) {
      var rest := if hs[0].value != "" then hs[1..] else hs[2..];
      MergedDistinct(rest);
      forall j | 0 < j < |Merged(hs)| ensures Merged(hs)[0].key != Merged(hs)[j].key {
        var h := MergedNames(rest, Merged(hs)[j]);
      }
    }
  }

  lemma {:induction false} EmptyIsMerged(hs: seq<Field>) returns (g: Field)
    requires !NoneEmpty(hs)
    ensures g in Merged(hs) && '\r' in g.value
    decreases |hs|
  {
    if hs[0].value != "" {
      assert exists h | h in hs[1..] :: h.value == "";
      g := EmptyIsMerged(hs[1..]);
    } else {
      g := Merged(hs)[0];
      assert g.value[0] == '\r';
    }
  }

  /** With distinct names each field keeps its value. */
  lemma {:induction false} DistinctKept(acc: map<string, string>, hs: seq<Field>, g: Field)
    requires DistinctNames(hs)
             && (g in hs || (g.key in acc && acc[g.key] == g.value && forall h | h in hs :: h.key != g.key))
    ensures var headers := FieldMap(acc, hs); g.key in headers && headers[g.key] == g.value
    decreases |hs|
  {
    if hs != [] {
      assert forall h | h in hs[1..] :: h in hs && h.key != hs[0].key;
      DistinctKept(acc[hs[0].key := hs[0].value], hs[1..], g);
    }
  }

  predicate Clean(headers: map<string, string>) { forall k | k in headers :: '\r' !in headers[k] }

  lemma {:induction false} ValuesAreClean(acc: map<string, string>, hs: seq<Field>)
    requires (forall h | h in hs :: '\r' !in h.value) && Clean(acc)
    ensures Clean(FieldMap(acc, hs))
    decreases |hs|
  {
    if hs != [] {
      assert hs[0] in hs && forall h | h in hs[1..] :: h in hs;
      ValuesAreClean(acc[hs[0].key := hs[0].value], hs[1..]);
    }
  }

  lemma ReadAsPrintedIff(hs: seq<Field>)
    requires DistinctNames(hs) && forall h | h in hs :: Spelled(h)
    ensures ReadAsPrinted(hs) <==> NoneEmpty(hs)
  {
    if NoneEmpty(hs) {
      NoneEmptyUnmerged(hs);
    } else {
      var g := EmptyIsMerged(hs);
      MergedDistinct(hs);
      DistinctKept(map[], Merged(hs), g);
      ValuesAreClean(map[], hs);
      assert !Clean(FieldMap(map[], Merged(hs)));
    }
  }

  /** When no field name is given twice, a request text parses back to what it means exactly when
      its body fits, its version is not 1.0 and no field value is empty. */
  lemma RoundTripDistinctNames(m: Message)
    requires Spelling(m) && DistinctNames(m.fields)
    ensures Parses(Print(m), Meaning(m)) <==> BodyOk(m) && m.version != "1.0" && NoneEmpty(m.fields)
  {
    RoundTripAnyValues(m);
    ReadAsPrintedIff(m.fields);
  }

  const EMPTY_HOST := [Field("Host", "", "", ""), Field("X", "", " ", "y")]

  lemma EmptyHostText()
    ensures Merged(EMPTY_HOST) == [Field("Host", "", "", "\r\nX: y")]
  {
    var hs := EMPTY_HOST;
    assert hs[2..] == [];
    assert " " + "y" == " y" && ":" + " y" == ": y" && "" + ": y" == ": y" && "X" + ": y" == "X: y";
    assert FieldLine(hs[1]) == "X: y";
    assert "\r\n" + "X: y" == "\r\nX: y";
  }

  lemma SpelledByKey(h: Field)
    requires h.key != "" && forall ch | ch in h.key :: ch != ':' && !IsBlank(ch) && ch != '\r'
    requires (h.value == "" || h.value == "y") && h.before == "" && (h.after == "" || h.after == " ")
    ensures Spelled(h)
  {
    assert h.key[0] in h.key && forall ch | ch in h.key[1..] :: ch in h.key;
  }

  lemma NoLength(headers: map<string, string>)
    requires headers == map["Host" := "", "X" := "y"]
    ensures "Content-Length" !in headers
  {
    assert |"Content-Length"| == 14 && |"Host"| == 4 && |"X"| == 1;
  }

  /** An empty Host takes in the field after it, and the request is not parsed to what it means. */
  lemma EmptyHostIsLost(body: string)
    ensures var m := Message(GET, " ", "/", [], " ", "1.1", EMPTY_HOST, body);
            && Merged(m.fields) == [Field("Host", "", "", "\r\nX: y")]
            && Spelling(m) && BodyOk(m) && !Parses(Print(m), Meaning(m))
  {
    var m := Message(GET, " ", "/", [], " ", "1.1", EMPTY_HOST, body);
    EmptyHostText();
    SpelledByKey(EMPTY_HOST[0]);
    SpelledByKey(EMPTY_HOST[1]);
    assert EMPTY_HOST[1..] == [EMPTY_HOST[1]] && [EMPTY_HOST[1]][1..] == [];
    assert FieldMap(map[], m.fields) == FieldMap(map["Host" := ""], [EMPTY_HOST[1]]) == map["Host" := "", "X" := "y"];
    NoLength(FieldMap(map[], m.fields));
    assert EMPTY_HOST[0] in EMPTY_HOST;
    RoundTripDistinctNames(m);
  }
}
