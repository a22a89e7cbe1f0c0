/** The classes `HttpRequest` and `HttpContext`: the parsing loop in place, proved to follow the machine. */
module HttpContexts {
  import Traces
  import opened HttpMachine

  class HttpRequest {
    var verb: Method
    var url: string
    var protocol: string
    var version: Version
    var params: map<string, string>
    var headers: map<string, string>
    var body: string

    function Now(): Request
      reads this
    {
      Request(verb, url, protocol, version, params, headers, body)
    }

    constructor ()
      ensures Now() == EMPTY_REQUEST
    {
      verb, url, protocol, version := INVAILD_METHOD, "", "", INVAILD_VERSION;
      params, headers, body := map[], map[], "";
    }

    method SetMethod(s: string)
      modifies this`verb
      ensures Now() == old(Now()).(verb := MethodOf(s))
    {
      if s == "GET" { verb := GET; }
      else if s == "POST" { verb := POST; }
      else if s == "HEAD" { verb := HEAD; }
      else if s == "PUT" { verb := PUT; }
      else if s == "DELETE" { verb := DELETE; }
      else { verb := INVAILD_METHOD; }
    }

    method SetVersion(s: string)
      modifies this`version
      ensures Now() == old(Now()).(version := VersionOf(s))
    {
      if s == "1.0" {
        version := HTTP_10;
      }
      if s == "1.1" {
        version := HTTP_11;
      } else {
        version := INVAILD_VERSION;
      }
    }

    method SetParams(key: string, value: string)
      modifies this`params
      ensures Now() == old(Now()).(params := old(params)[key := value])
    {
      params := params[key := value];
    }

    method SetHeader(key: string, value: string)
      modifies this`headers
      ensures Now() == old(Now()).(headers := old(headers)[key := value])
    {
      headers := headers[key := value];
    }
  }

  class HttpContext {
    const request: HttpRequest
    var state: State

    constructor ()
      ensures fresh(request) && request.Now() == EMPTY_REQUEST && state == START
    {
      request := new HttpRequest();
      state := START;
    }

    /** One turn of the loop's switch. */
    method Dispatch(text: string, start: int, end: int, key: string, vers: string)
      returns (start': int, end': int, key': string, vers': string)
      requires Readable(text, Config(state, start, end, key, vers, request.Now()))
      modifies this, request
      ensures Config(state, start', end', key', vers', request.Now())
           == HttpMachine.Dispatch(text, Config(old(state), start, end, key, vers, old(request.Now())))
    {
      start', end', key', vers' := start, end, key, vers;
      var ch := if end < |text| then text[end] else 0 as char;
      match state {
        case START =>
          if IsUpper(ch) { state := METHOD; }
        case METHOD =>
          if IsBlank(ch) {
            request.SetMethod(text[start..end]);
            state, start' := BEFORE_URI, end;
          }
        case BEFORE_URI =>
          if ch == '/' { state, start' := IN_URI, end; }
        case IN_URI =>
          if IsBlank(ch) {
            request.url := text[start..end];
            state, start' := BEFORE_PROTOCOL, end;
          } else if ch == '?' {
            request.url := text[start..end];
            state, start' := BEFORE_URI_PARAMS_KEY, end;
          }
        case BEFORE_URI_PARAMS_KEY =>
          if IsBlank(ch) || ch == '\r' || ch == '\n' {
            state := INVAILD;
          } else {
            state, start' := IN_URI_PARAMS_KEY, end;
          }
        case IN_URI_PARAMS_KEY =>
          if ch == '=' {
            key' := text[start..end];
            request.SetParams(key', "");
            state := BEFORE_URI_PARAMS_VALUE;
          }
        case BEFORE_URI_PARAMS_VALUE =>
          if IsBlank(ch) || ch == '\r' || ch == '\n' {
            state := INVAILD;
          } else {
            state, start' := IN_URI_PARAMS_VALUE, end;
          }
        case IN_URI_PARAMS_VALUE =>
          if ch == '&' {
            request.SetParams(key, text[start..end]);
            state, start' := BEFORE_URI_PARAMS_KEY, end;
          } else if IsBlank(ch) {
            request.SetParams(key, text[start..end]);
            state, start' := BEFORE_PROTOCOL, end;
          }
        case BEFORE_PROTOCOL =>
          if !IsBlank(ch) && IsAlpha(ch) { state, start' := IN_PROTOCOL, end; }
        case IN_PROTOCOL =>
          if ch == '/' {
            request.protocol := text[start..end];
            state, start' := BEFORE_VERSION, end;
          }
        case BEFORE_VERSION =>
          if IsDigit(ch) { state, start' := IN_VERSION, end; } else { state := INVAILD; }
        case IN_VERSION =>
          if ch == '\r' {
            vers' := vers + text[start..end];
            request.SetVersion(vers');
            state := CR;
          } else if ch == '.' {
            vers' := vers + text[start..end];
            state, start' := VERSION_SPLIT, end;
          }
        case VERSION_SPLIT =>
          if IsDigit(ch) {
            vers' := vers + ".";
            state, start' := IN_VERSION, end;
          } else {
            state := INVAILD;
          }
        case CR =>
          if ch == '\n' { state, start' := CRLF, end; } else { state := INVAILD; }
        case CRLF =>
          if IsBlank(ch) { state := INVAILD; }
          else if ch == '\r' { state := CRLFCR; }
          else { state, start' := HEADER_KEY, end; }
        case HEADER_KEY =>
          if ch == ':' || IsBlank(ch) {
            key' := text[start..end];
            request.SetHeader(key', "");
            state, start' := if ch == ':' then HEADER_AFTER_COLON else HEADER_BEFORE_COLON, end;
          }
        case HEADER_BEFORE_COLON =>
          if ch == ':' { state, start' := HEADER_AFTER_COLON, end; }
          else if !IsBlank(ch) { state := INVAILD; }
        case HEADER_AFTER_COLON =>
          if !IsBlank(ch) { state, start' := HEADER_VALUE, end; }
        case HEADER_VALUE =>
          if ch == '\r' {
            request.SetHeader(key, text[start..end]);
            state := CR;
          }
        case CRLFCR =>
          if ch == '\n' {
            if "Content-Length" in request.headers {
              if Atoi(request.headers["Content-Length"]) > 0 {
                state, start' := BODY, end + 1;
              } else {
                state := COMPLETE;
              }
            } else if |text| > end {
              state, start' := BODY, end + 1;
            } else {
              // The terminator is no line feed, so the source's COMPLETE here is never taken.
              assert false;
            }
          }
        case BODY =>
          var bodyLength := |text| - start;
          request.body := text[start..start + bodyLength];
          end' := start + bodyLength - 1;
          if bodyLength >= Atoi(Header(request.Now(), "Content-Length")) { state := COMPLETE; }
        case INVAILD =>
        case COMPLETE =>
      }
    }

    /** The loop, for any text on which it ends: `n` and `last` say where.  `EveryInput` tells
        exactly which texts those are. */
    method ParaseRequest(text: string, ghost n: nat, ghost last: Config) returns (ok: bool)
      requires Traces.Reaches(Turns(text), Config(state, 0, 0, "", "", request.Now()), n, last) && Done(text, last)
      modifies this, request
      ensures state == last.state && request.Now() == last.req
      ensures ok <==> last.state == COMPLETE || last.state == BODY
    {
      var start, end, key, vers := 0, 0, "", "";
      ghost var left := n;
      while state != COMPLETE && state != INVAILD && end - start < |text|
        invariant Traces.Reaches(Turns(text), Config(state, start, end, key, vers, request.Now()), left, last)
        decreases left
      {
        ghost var c := Config(state, start, end, key, vers, request.Now());
        if left == 0 { Stopped(text, c, last); }
        ghost var d := Traces.First(Turns(text), c, left, last);
        start, end, key, vers := Dispatch(text, start, end, key, vers);
        end := end + 1;
        assert Config(state, start, end, key, vers, request.Now()) == Step(text, c) == d;
        left := left - 1;
      }
      NoTurnFrom(text, Config(state, start, end, key, vers, request.Now()), left, last);
      ok := state == COMPLETE || state == BODY;
    }
  }

  lemma Stopped(text: string, c: Config, last: Config)
    requires Traces.Reaches(Turns(text), c, 0, last)
    ensures c == last
  {
    var t :| Traces.Trace(Turns(text), t) && |t| == 1 && t[0] == c && t[0] == last;
  }
}
