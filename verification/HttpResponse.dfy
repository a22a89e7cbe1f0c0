/** The response printer `HttpResponse`, and a reader of the framing it must produce: header
    lines up to the first empty one, then as many bytes as the single Content-Length field says
    (sections 2.1, 5.1 and 6.3 of RFC 9112). */
module HttpResponses {
  import opened Options

  const CRLF := "\r\n"

  const CACHE_LINE := "Cache-Control" + (":" + " no-store, no-cache, must-revalidate")

  function DigitChar(d: nat): char
    requires d < 10
  {
    ('0' as int + d) as char
  }

  /** `std::to_string` of a non-negative number. */
  function ToString(n: nat): string {
    if n < 10 then [DigitChar(n)] else ToString(n / 10) + [DigitChar(n % 10)]
  }

  // ---------- Printing ----------

  datatype Response = Response(close: bool, statusCode: nat, statusMessage: string, body: string)

  function FramingLines(r: Response): string {
    if r.close then "Connection:close" + CRLF
    else "Connection:keep-alive" + CRLF + ("Content-Length: " + ToString(|r.body|) + CRLF)
  }

  function FieldLines(fields: seq<(string, string)>): string {
    if fields == [] then ""
    else FieldLines(fields[..|fields| - 1]) + (fields[|fields| - 1].0 + ": " + fields[|fields| - 1].1 + CRLF)
  }

  /** `GetPreBody`, for the order in which the hash map happens to list its fields. */
  function PreBody(r: Response, fields: seq<(string, string)>): string {
    ("HTTP/1.1 " + ToString(r.statusCode) + " " + r.statusMessage + CRLF)
    + FramingLines(r) + FieldLines(fields)
    + (CACHE_LINE + CRLF) + CRLF
  }

  class HttpResponse {
    var close: bool
    var statusCode: nat
    var statusMessage: string
    var header: map<string, string>
    var body: string

    function Now(): Response
      reads this
    {
      Response(close, statusCode, statusMessage, body)
    }

    constructor (close: bool)
      ensures Now() == Response(close, 100, "", "") && header == map[]
    {
      this.close := close;
      statusCode, statusMessage, header, body := 100, "", map[], "";
    }

    method AddHeader(key: string, value: string)
      modifies this`header
      ensures header == old(header)[key := value]
    {
      header := header[key := value];
    }

    /** The loop over the hash map; `fields` is the order it met them in. */
    method AppendFields(response: string) returns (r: string, ghost fields: seq<(string, string)>)
      ensures IsOrderOf(fields, header)
      ensures r == response + FieldLines(fields)
    {
      r := response;
      var keys := header.Keys;
      fields := [];
      while keys != {}
        invariant keys <= header.Keys
        invariant forall p | p in fields :: p.0 in header && p.0 !in keys && p.1 == header[p.0]
        invariant forall k | k in header && k !in keys :: (k, header[k]) in fields
        invariant forall i, j | 0 <= i < j < |fields| :: fields[i].0 != fields[j].0
        invariant r == response + FieldLines(fields)
      {
        var key :| key in keys;
        keys := keys - {key};
        var line := key + ": " + header[key] + CRLF;
        r := r + line;
        FieldLinesSnoc(fields, (key, header[key]));
        assert response + FieldLines(fields) + line == response + (FieldLines(fields) + line);
        fields := fields + [(key, header[key])];
      }
    }

    method GetPreBody() returns (response: string)
      ensures exists fields :: IsOrderOf(fields, header) && response == PreBody(Now(), fields)
    {
      response := "HTTP/1.1 " + ToString(statusCode) + " " + statusMessage + CRLF;
      if close {
        response := response + ("Connection:close" + CRLF);
      } else {
        response := response + ("Connection:keep-alive" + CRLF + ("Content-Length: " + ToString(|body|) + CRLF));
      }
      ghost var fields;
      response, fields := AppendFields(response);
      response := response + (CACHE_LINE + CRLF);
      response := response + CRLF;
      assert response == PreBody(Now(), fields);
    }

    method GetResponse() returns (response: string)
      ensures exists fields :: IsOrderOf(fields, header) && response == PreBody(Now(), fields) + body
    {
      response := GetPreBody();
      response := response + body;
    }
  }

  lemma FieldLinesSnoc(fields: seq<(string, string)>, p: (string, string))
    ensures FieldLines(fields + [p]) == FieldLines(fields) + (p.0 + ": " + p.1 + CRLF)
  {
    assert (fields + [p])[..|fields|] == fields;
  }

  ghost predicate IsOrderOf(fields: seq<(string, string)>, header: map<string, string>) {
    && (forall p | p in fields :: p.0 in header && p.1 == header[p.0])
    && (forall k | k in header :: (k, header[k]) in fields)
    && (forall i, j | 0 <= i < j < |fields| :: fields[i].0 != fields[j].0)
  }

  // ---------- Reading ----------

  /** The text before the first CRLF and the text after it. */
  function ReadLine(s: string): (r: Option<(string, string)>)
    ensures r.Some? ==> |r.value.1| < |s|
  {
    if |s| < 2 then None
    else if s[0] == '\r' && s[1] == '\n' then Some(("", s[2..]))
    else match ReadLine(s[1..])
      case None => None
      case Some((line, rest)) => Some(([s[0]] + line, rest))
  }

  /** The lines up to the first empty one, and the text after it. */
  function ReadHead(s: string): (r: Option<(seq<string>, string)>)
    ensures r.Some? ==> |r.value.1| < |s|
    decreases |s|
  {
    match ReadLine(s)
    case None => None
    case Some((line, rest)) =>
      if line == "" then Some(([], rest))
      else match ReadHead(rest)
        case None => None
        case Some((lines, after)) => Some(([line] + lines, after))
  }

  function Lower(ch: char): char {
    if 'A' <= ch <= 'Z' then (ch as int + 32) as char else ch
  }

  function LowerAll(s: string): string {
    seq(|s|, i requires 0 <= i < |s| => Lower(s[i]))
  }

  /** A field line is a name, a colon, optional spaces and a value. */
  function NameLength(line: string): nat {
    if line == "" || line[0] == ':' then 0 else 1 + NameLength(line[1..])
  }

  lemma NameLengthBound(line: string)
    ensures NameLength(line) <= |line|
  {
  }

  predicate Named(line: string, name: string) {
    NameLengthBound(line);
    NameLength(line) < |line| && LowerAll(line[..NameLength(line)]) == name
  }

  function SkipSpaces(s: string): string {
    if s != "" && (s[0] == ' ' || s[0] == '\t') then SkipSpaces(s[1..]) else s
  }

  function FieldValue(line: string): string {
    NameLengthBound(line);
    if NameLength(line) < |line| then SkipSpaces(line[NameLength(line) + 1..]) else ""
  }

  function ParseDecimal(s: string): Option<nat> {
    if s == "" then None
    else
      var d := s[|s| - 1];
      if !('0' <= d <= '9') then None
      else if |s| == 1 then Some(d as int - '0' as int)
      else match ParseDecimal(s[..|s| - 1])
        case None => None
        case Some(n) => Some(10 * n + (d as int - '0' as int))
  }

  /** The values of all Content-Length fields. */
  function Lengths(lines: seq<string>): seq<string> {
    if lines == [] then []
    else (if Named(lines[0], "content-length") then [FieldValue(lines[0])] else []) + Lengths(lines[1..])
  }

  predicate HasTransferEncoding(lines: seq<string>) {
    exists line :: line in lines && Named(line, "transfer-encoding")
  }

  /** One message's body and what follows it; no answer when the length is not given exactly once. */
  function ReadMessage(s: string): (r: Option<(string, string)>)
    ensures r.Some? ==> |r.value.1| < |s|
  {
    match ReadHead(s)
    case None => None
    case Some((lines, after)) =>
      if lines == [] || HasTransferEncoding(lines[1..]) then None
      else
        var lengths := Lengths(lines[1..]);
        if |lengths| != 1 then None
        else match ParseDecimal(lengths[0])
          case None => None
          case Some(n) => if n <= |after| then Some((after[..n], after[n..])) else None
  }

  function ReadStream(s: string): Option<seq<string>>
    decreases |s|
  {
    if s == "" then Some([])
    else match ReadMessage(s)
      case None => None
      case Some((body, rest)) =>
        match ReadStream(rest)
        case None => None
        case Some(bodies) => Some([body] + bodies)
  }

  // ---------- Printed responses read back ----------

  predicate Clean(s: string) {
    '\r' !in s
  }

  predicate FieldOk(p: (string, string)) {
    Clean(p.0) && Clean(p.1) && ':' !in p.0 && LowerAll(p.0) != "content-length" && LowerAll(p.0) != "transfer-encoding"
  }

  datatype Printed = Printed(r: Response, fields: seq<(string, string)>)

  predicate PrintedOk(p: Printed) {
    Clean(p.r.statusMessage) && forall f | f in p.fields :: FieldOk(f)
  }

  function Stream(ps: seq<Printed>): string {
    if ps == [] then "" else PreBody(ps[0].r, ps[0].fields) + ps[0].r.body + Stream(ps[1..])
  }

  function Bodies(ps: seq<Printed>): seq<string> {
    if ps == [] then [] else [ps[0].r.body] + Bodies(ps[1..])
  }

  lemma {:induction false} ToStringReads(n: nat)
    ensures ParseDecimal(ToString(n)) == Some(n) && Clean(ToString(n)) && ToString(n) != ""
    ensures SkipSpaces(ToString(n)) == ToString(n)
    decreases n
  {
    if n >= 10 {
      ToStringReads(n / 10);
      var s := ToString(n);
      assert s[..|s| - 1] == ToString(n / 10);
      assert SkipSpaces(s) == s by { assert s[0] == ToString(n / 10)[0]; ToStringStart(n / 10); }
    }
  }

  lemma {:induction false} ToStringStart(n: nat)
    ensures ToString(n) != "" && '0' <= ToString(n)[0] <= '9'
    decreases n
  {
    if n >= 10 { ToStringStart(n / 10); }
  }

  lemma {:induction false} ReadCleanLine(line: string, rest: string)
    requires Clean(line)
    ensures ReadLine(line + CRLF + rest) == Some((line, rest))
    decreases |line|
  {
    var s := line + CRLF + rest;
    if line == "" {
      assert s[2..] == rest;
    } else {
      assert s[1..] == line[1..] + CRLF + rest;
      assert line[0] in line;
      ReadCleanLine(line[1..], rest);
      assert [line[0]] + line[1..] == line;
    }
  }

  /** The printed lines of a list. */
  function Unlines(lines: seq<string>): string {
    if lines == [] then "" else lines[0] + CRLF + Unlines(lines[1..])
  }

  lemma ReadHeadCons(line: string, tail: string, lines: seq<string>, rest: string)
    requires line != "" && Clean(line) && ReadHead(tail) == Some((lines, rest))
    ensures ReadHead(line + CRLF + tail) == Some(([line] + lines, rest))
  {
    ReadCleanLine(line, tail);
  }

  lemma RegroupTail(a: string, b: string, c: string, d: string)
    ensures a + b + c + d == a + (b + c + d)
  {}

  lemma UnlinesFirst(lines: seq<string>, rest: string)
    requires lines != []
    ensures Unlines(lines) + CRLF + rest == lines[0] + CRLF + (Unlines(lines[1..]) + CRLF + rest)
  {
    var (first, others) := (lines[0] + CRLF, Unlines(lines[1..]));
    assert Unlines(lines) == first + others;
    RegroupTail(first, others, CRLF, rest);
  }

  lemma {:induction false} ReadLines(lines: seq<string>, rest: string)
    requires forall line | line in lines :: line != "" && Clean(line)
    ensures ReadHead(Unlines(lines) + CRLF + rest) == Some((lines, rest))
    decreases |lines|
  {
    if lines == [] {
      ReadCleanLine("", rest);
      assert Unlines(lines) + CRLF + rest == "" + CRLF + rest;
    } else {
      var tail := Unlines(lines[1..]) + CRLF + rest;
      assert forall line | line in lines[1..] :: line in lines;
      ReadLines(lines[1..], rest);
      assert lines[0] in lines;
      ReadHeadCons(lines[0], tail, lines[1..], rest);
      UnlinesFirst(lines, rest);
      assert [lines[0]] + lines[1..] == lines;
    }
  }

  function LinesOf(fields: seq<(string, string)>): seq<string> {
    if fields == [] then []
    else LinesOf(fields[..|fields| - 1]) + [fields[|fields| - 1].0 + ": " + fields[|fields| - 1].1]
  }

  lemma {:induction false} UnlinesSnoc(lines: seq<string>, line: string)
    ensures Unlines(lines + [line]) == Unlines(lines) + (line + CRLF)
    decreases |lines|
  {
    if lines == [] {
      assert lines + [line] == [line] && [line][1..] == [];
    } else {
      assert (lines + [line])[1..] == lines[1..] + [line];
      UnlinesSnoc(lines[1..], line);
    }
  }

  lemma {:induction false} UnlinesAppend(a: seq<string>, b: seq<string>)
    ensures Unlines(a + b) == Unlines(a) + Unlines(b)
    decreases |a|
  {
    if a == [] {
      assert a + b == b;
    } else {
      assert (a + b)[1..] == a[1..] + b;
      UnlinesAppend(a[1..], b);
    }
  }

  lemma {:induction false} FieldLinesAreLines(fields: seq<(string, string)>)
    ensures FieldLines(fields) == Unlines(LinesOf(fields))
    decreases |fields|
  {
    if fields != [] {
      var before, f := fields[..|fields| - 1], fields[|fields| - 1];
      FieldLinesAreLines(before);
      UnlinesSnoc(LinesOf(before), f.0 + ": " + f.1);
    }
  }

  function HeadLines(r: Response, fields: seq<(string, string)>): seq<string> {
    ["HTTP/1.1 " + ToString(r.statusCode) + " " + r.statusMessage]
    + ((if r.close then ["Connection:close"] else ["Connection:keep-alive", "Content-Length: " + ToString(|r.body|)])
       + (LinesOf(fields) + [CACHE_LINE]))
  }

  lemma PreBodyIsLines(r: Response, fields: seq<(string, string)>)
    ensures PreBody(r, fields) == Unlines(HeadLines(r, fields)) + CRLF
  {
    var status := "HTTP/1.1 " + ToString(r.statusCode) + " " + r.statusMessage;
    var framing :=
      if r.close then ["Connection:close"] else ["Connection:keep-alive", "Content-Length: " + ToString(|r.body|)];
    FramingIsLines(r, framing);
    FieldLinesAreLines(fields);
    UnlinesSnoc(LinesOf(fields), CACHE_LINE);
    UnlinesAppend(framing, LinesOf(fields) + [CACHE_LINE]);
    UnlinesAppend([status], framing + (LinesOf(fields) + [CACHE_LINE]));
    assert Unlines([status]) == status + CRLF by { assert [status][1..] == []; }
    Regroup(status + CRLF, FramingLines(r), FieldLines(fields), CACHE_LINE + CRLF, CRLF);
  }

  lemma Regroup(a: string, b: string, c: string, d: string, e: string)
    ensures a + b + c + d + e == (a + (b + (c + d))) + e
  {
  }

  lemma FramingIsLines(r: Response, framing: seq<string>)
    requires framing == if r.close then ["Connection:close"]
                        else ["Connection:keep-alive", "Content-Length: " + ToString(|r.body|)]
    ensures Unlines(framing) == FramingLines(r)
  {
    assert Unlines(framing) == framing[0] + CRLF + Unlines(framing[1..]);
    if r.close {
      assert framing[1..] == [];
    } else {
      var length := "Content-Length: " + ToString(|r.body|);
      assert framing[1..] == [length] && [length][1..] == [];
      assert Unlines([length]) == length + CRLF + Unlines([]);
    }
  }

  // ---------- What the reader sees in the lines ----------

  lemma {:induction false} NameOf(k: string, rest: string)
    requires ':' !in k
    ensures NameLength(k + (":" + rest)) == |k|
    decreases |k|
  {
    if k != "" {
      assert k[0] in k;
      assert (k + (":" + rest))[1..] == k[1..] + (":" + rest);
      NameOf(k[1..], rest);
    }
  }

  lemma NamedField(k: string, rest: string, name: string)
    requires ':' !in k
    ensures Named(k + (":" + rest), name) <==> LowerAll(k) == name
    ensures FieldValue(k + (":" + rest)) == SkipSpaces(rest)
  {
    NameOf(k, rest);
    assert (k + (":" + rest))[..|k|] == k;
    assert (k + (":" + rest))[|k| + 1..] == rest;
  }

  lemma {:induction false} LengthsAppend(a: seq<string>, b: seq<string>)
    ensures Lengths(a + b) == Lengths(a) + Lengths(b)
    decreases |a|
  {
    if a == [] {
      assert a + b == b;
    } else {
      assert (a + b)[1..] == a[1..] + b;
      LengthsAppend(a[1..], b);
    }
  }

  /** A line that announces neither a length nor a transfer coding, and is one line. */
  predicate Plain(line: string) {
    line != "" && Clean(line) && !Named(line, "content-length") && !Named(line, "transfer-encoding")
  }

  lemma {:induction false} PlainLines(lines: seq<string>)
    requires forall line | line in lines :: Plain(line)
    ensures Lengths(lines) == [] && !HasTransferEncoding(lines)
    decreases |lines|
  {
    if lines != [] {
      assert lines[0] in lines;
      assert forall line | line in lines[1..] :: line in lines;
      PlainLines(lines[1..]);
    }
  }

  lemma {:induction false} FieldsArePlain(fields: seq<(string, string)>)
    requires forall f | f in fields :: FieldOk(f)
    ensures forall line | line in LinesOf(fields) :: Plain(line)
    decreases |fields|
  {
    if fields != [] {
      var f := fields[|fields| - 1];
      assert f in fields;
      assert forall g | g in fields[..|fields| - 1] :: g in fields;
      FieldsArePlain(fields[..|fields| - 1]);
      PlainField(f);
    }
  }

  lemma PlainField(f: (string, string))
    requires FieldOk(f)
    ensures Plain(f.0 + ": " + f.1)
  {
    assert f.0 + ": " + f.1 == f.0 + (":" + (" " + f.1));
    NamedField(f.0, " " + f.1, "content-length");
    NamedField(f.0, " " + f.1, "transfer-encoding");
  }

  lemma PlainByLength(k: string, rest: string)
    requires ':' !in k && Clean(k) && Clean(rest) && |k| != 14 && |k| != 17
    ensures Plain(k + (":" + rest))
  {
    NamedField(k, rest, "content-length");
    NamedField(k, rest, "transfer-encoding");
  }

  lemma CacheLineIsPlain()
    ensures Plain(CACHE_LINE)
  {
    PlainByLength("Cache-Control", " no-store, no-cache, must-revalidate");
  }

  lemma ConnectionLineIsPlain(close: bool)
    ensures Plain(if close then "Connection:close" else "Connection:keep-alive")
  {
    var v := if close then "close" else "keep-alive";
    assert (if close then "Connection:close" else "Connection:keep-alive") == "Connection" + (":" + v);
    PlainByLength("Connection", v);
  }

  lemma LengthName()
    ensures LowerAll("Content-Length") == "content-length" && ':' !in "Content-Length" && Clean("Content-Length")
  {
  }

  lemma LengthLineText(digits: string)
    ensures "Content-Length: " + digits == "Content-Length" + (":" + (" " + digits))
  {
  }

  lemma LengthField(k: string, digits: string)
    requires ':' !in k && Clean(k) && LowerAll(k) == "content-length" && Clean(digits) && SkipSpaces(digits) == digits
    ensures var line := k + (":" + (" " + digits));
            && line != "" && Clean(line) && Named(line, "content-length") && !Named(line, "transfer-encoding")
            && FieldValue(line) == digits
  {
    NamedField(k, " " + digits, "content-length");
    NamedField(k, " " + digits, "transfer-encoding");
    assert (" " + digits)[1..] == digits;
  }

  lemma LengthLine(n: nat)
    ensures var line := "Content-Length: " + ToString(n);
            && line != "" && Clean(line) && Named(line, "content-length") && !Named(line, "transfer-encoding")
            && FieldValue(line) == ToString(n)
  {
    ToStringReads(n);
    LengthName();
    LengthField("Content-Length", ToString(n));
    LengthLineText(ToString(n));
  }

  lemma FramingIsRead(r: Response, framing: seq<string>)
    requires framing == if r.close then ["Connection:close"]
                        else ["Connection:keep-alive", "Content-Length: " + ToString(|r.body|)]
    ensures Lengths(framing) == if r.close then [] else [ToString(|r.body|)]
    ensures !HasTransferEncoding(framing) && forall line | line in framing :: line != "" && Clean(line)
  {
    ConnectionLineIsPlain(r.close);
    if r.close {
      PlainLines(framing);
    } else {
      LengthLine(|r.body|);
      PlainLines([framing[0]]);
      LengthsAppend([framing[0]], [framing[1]]);
      assert framing == [framing[0]] + [framing[1]];
      assert [framing[1]][1..] == [];
    }
  }

  lemma TailIsPlain(fields: seq<(string, string)>)
    requires forall f | f in fields :: FieldOk(f)
    ensures forall line | line in LinesOf(fields) + [CACHE_LINE] :: Plain(line)
    ensures Lengths(LinesOf(fields) + [CACHE_LINE]) == [] && !HasTransferEncoding(LinesOf(fields) + [CACHE_LINE])
  {
    FieldsArePlain(fields);
    CacheLineIsPlain();
    PlainLines(LinesOf(fields) + [CACHE_LINE]);
  }

  lemma StatusLineIsClean(r: Response)
    requires Clean(r.statusMessage)
    ensures Clean("HTTP/1.1 " + ToString(r.statusCode) + " " + r.statusMessage)
  {
    ToStringReads(r.statusCode);
  }

  /** The reader finds one length, the body's, in a keep-alive head and none in a closing one. */
  lemma HeadIsRead(p: Printed)
    requires PrintedOk(p)
    ensures var lines := HeadLines(p.r, p.fields);
            && (forall line | line in lines :: line != "" && Clean(line))
            && Lengths(lines[1..]) == (if p.r.close then [] else [ToString(|p.r.body|)])
            && !HasTransferEncoding(lines[1..])
  {
    var status := "HTTP/1.1 " + ToString(p.r.statusCode) + " " + p.r.statusMessage;
    var framing :=
      if p.r.close then ["Connection:close"] else ["Connection:keep-alive", "Content-Length: " + ToString(|p.r.body|)];
    var tail := LinesOf(p.fields) + [CACHE_LINE];
    StatusLineIsClean(p.r);
    FramingIsRead(p.r, framing);
    TailIsPlain(p.fields);
    HeadJoin(status, framing, tail);
  }

  lemma HeadJoin(status: string, framing: seq<string>, tail: seq<string>)
    requires status != "" && Clean(status) && !HasTransferEncoding(framing) && !HasTransferEncoding(tail)
    requires forall line | line in framing :: line != "" && Clean(line)
    requires forall line | line in tail :: Plain(line)
    ensures var lines := [status] + (framing + tail);
            && (forall line | line in lines :: line != "" && Clean(line))
            && Lengths(lines[1..]) == Lengths(framing) + Lengths(tail) && !HasTransferEncoding(lines[1..])
  {
    assert ([status] + (framing + tail))[1..] == framing + tail;
    LengthsAppend(framing, tail);
  }

  /** A printed response, whatever follows it, is read back as its body exactly when it keeps the
      connection alive: a closing response carries no length. */
  lemma PrintedReadsBack(p: Printed, rest: string)
    requires PrintedOk(p)
    ensures ReadMessage(PreBody(p.r, p.fields) + p.r.body + rest) == if p.r.close then None else Some((p.r.body, rest))
  {
    var lines := HeadLines(p.r, p.fields);
    var s := PreBody(p.r, p.fields) + p.r.body + rest;
    HeadIsRead(p);
    PreBodyIsLines(p.r, p.fields);
    ReadLines(lines, p.r.body + rest);
    assert s == Unlines(lines) + CRLF + (p.r.body + rest);
    ToStringReads(|p.r.body|);
    assert (p.r.body + rest)[..|p.r.body|] == p.r.body && (p.r.body + rest)[|p.r.body|..] == rest;
  }

  /** Keep-alive responses delimit themselves: from any number of them back to back, with their
      fields in any order, the reader recovers exactly the bodies. */
  lemma {:induction false} StreamReadsBack(ps: seq<Printed>)
    requires forall p | p in ps :: PrintedOk(p) && !p.r.close
    ensures ReadStream(Stream(ps)) == Some(Bodies(ps))
    decreases |ps|
  {
    if ps != [] {
      assert ps[0] in ps;
      assert forall p | p in ps[1..] :: p in ps;
      StreamReadsBack(ps[1..]);
      PrintedReadsBack(ps[0], Stream(ps[1..]));
    }
  }
}
