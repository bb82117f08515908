/** The parser as the program has it: an object whose fields `feed` updates in place. Every method is
    tied to the pure functions of `RequestParser`, so everything proved of those holds of the object. */
module IncrementalParser {
  import opened Text
  import opened Numbers
  import opened Headers
  import opened RequestParser
  import opened LineGrammar
  import opened HeaderLines
  import opened Driver
  import opened Reachable

  lemma SplitsInThree(line: string, sp1: int, tail: string, sp2: int)
    requires sp1 == FindChar(line, ' ') && tail == (if sp1 < 0 then [] else line[sp1 + 1..])
    requires sp2 == FindChar(tail, ' ')
    ensures sp2 < 0 || FindChar(tail[sp2 + 1..], ' ') >= 0 ==>
              ReadRequestLine(line) == Reject(BadRequest, NOT_THREE_PARTS)
    ensures sp2 >= 0 && FindChar(tail[sp2 + 1..], ' ') < 0 ==>
              sp1 >= 0 && ReadRequestLine(line) == ReadParts(line[..sp1], tail[..sp2], tail[sp2 + 1..])
  {
    hide ReadParts, NOT_THREE_PARTS, FindChar;
  }

  lemma LineReads(line: string)
    ensures ReadRequestLine(line).Ok? <==> IsSomeRequestLine(line)
    ensures ReadRequestLine(line).Ok? ==> IsRequestLine(line, ReadRequestLine(line).value)
  {
    hide ReadRequestLine, IsRequestLine;
    forall h
      ensures ReadRequestLine(line) == Ok(h) <==> IsRequestLine(line, h)
    {
      RequestLineMeaning(line, h);
    }
    if ReadRequestLine(line).Ok? {
      assert ReadRequestLine(line) == Ok(ReadRequestLine(line).value);
    }
  }

  class Parser {
    const lim: Limits
    var state: State
    var req: Request
    var error: ParseError
    var detail: string
    var headerBytes: nat
    var headerCount: nat
    var remaining: nat

    ghost function Value(): Machine
      reads this
    {
      Machine(state, req, error, detail, headerBytes, headerCount, remaining)
    }

    constructor (lim: Limits)
      ensures this.lim == lim && Value() == START
    {
      this.lim := lim;
      state, req, error, detail := RequestLine, EMPTY_REQUEST, NoError, "";
      headerBytes, headerCount, remaining := 0, 0, 0;
    }

    method Reset()
      modifies this
      ensures Value() == START
    {
      state, req, error, detail := RequestLine, EMPTY_REQUEST, NoError, "";
      headerBytes, headerCount, remaining := 0, 0, 0;
    }

    /** Hands over the request and starts afresh. */
    method Take() returns (r: Request)
      modifies this
      ensures r == old(req) && Value() == START
    {
      r := req;
      Reset();
    }

    method FailWith(e: ParseError, d: string)
      modifies this`state, this`error, this`detail
      ensures Value() == Fail(old(Value()), e, d)
    {
      state, error, detail := Error, e, d;
    }

    /** A rejected line only fails the parser; an accepted one only fills in the request's first line. */
    ghost predicate TookStartLine(m: Machine, r: Outcome<StartLine>, ok: bool)
      reads this
    {
      match r
      case Reject(e, d) => !ok && Value() == Fail(m, e, d)
      case Ok(h) => ok && Value() == m.(req := WithStartLine(m.req, h))
    }

    method ParseParts(verb: string, target: string, version: string) returns (ok: bool)
      modifies this
      ensures TookStartLine(old(Value()), ReadParts(verb, target, version), ok)
    {
      hide IsToken, ValidTarget, SupportedForm, PathAndQuery, PathOf, QueryOf;
      ok := false;
      if !IsToken(verb) {
        FailWith(BadRequest, "invalid method");
        return;
      }
      if !ValidTarget(target) {
        FailWith(BadRequest, "invalid request-target");
        return;
      }
      if !IsVersion(version) {
        FailWith(BadRequest, "malformed HTTP-version");
        return;
      }
      var major, minor := HexValue(version[5]), HexValue(version[7]);
      if major != 1 || minor > 1 {
        FailWith(VersionNotSupported, "only HTTP/1.0 and HTTP/1.1 are supported");
        return;
      }
      if !SupportedForm(verb, target) {
        FailWith(BadRequest, "unsupported request-target form");
        return;
      }
      var pq := PathAndQuery(target);
      req := WithStartLine(req, StartLine(verb, target, PathOf(pq), QueryOf(pq), minor));
      ok := true;
    }

    method ParseRequestLine(line: string) returns (ok: bool)
      modifies this
      ensures TookStartLine(old(Value()), ReadRequestLine(line), ok)
      ensures ok <==> IsSomeRequestLine(line)
      ensures ok ==> IsRequestLine(line, StartLine(req.verb, req.target, req.path, req.query, req.versionMinor))
    {
      hide ReadRequestLine, ReadParts, IsRequestLine, IsSomeRequestLine, FindChar, NOT_THREE_PARTS;
      LineReads(line);
      ghost var r := ReadRequestLine(line);
      var sp1 := FindChar(line, ' ');
      var tail := if sp1 < 0 then [] else line[sp1 + 1..];
      var sp2 := FindChar(tail, ' ');
      SplitsInThree(line, sp1, tail, sp2);
      if sp2 < 0 || FindChar(tail[sp2 + 1..], ' ') >= 0 {
        FailWith(BadRequest, NOT_THREE_PARTS);
        assert TookStartLine(old(Value()), r, false);
        return false;
      }
      ok := ParseParts(line[..sp1], tail[..sp2], tail[sp2 + 1..]);
      assert TookStartLine(old(Value()), r, ok);
    }

    method ParseFieldLine(line: string) returns (ok: bool)
      modifies this
      ensures match AddLine(if old(state).Trailers? then old(req).trailers else old(req).headers, line,
                            old(state).Trailers?)
              case Reject(e, d) => !ok && Value() == Fail(old(Value()), e, d)
              case Ok(h) => ok && Value() == old(Value()).(req := WithFields(old(Value()), h))
    {
      var colon := FindChar(line, ':');
      if colon < 0 {
        FailWith(BadRequest, "header line without ':'");
        return false;
      }
      var name := line[..colon];
      if !IsToken(name) {
        FailWith(BadRequest, "invalid header field name");
        return false;
      }
      var value := TrimOws(line[colon + 1..]);
      for i := 0 to |value|
        invariant IsFieldValue(value[..i])
        invariant Value() == old(Value())
      {
        if !IsFieldChar(value[i]) {
          FailWith(BadRequest, "control character in header value");
          return false;
        }
      }
      assert value[..|value|] == value;
      if !state.Trailers? && IEquals(name, "Host") && Has(req.headers, "Host") {
        FailWith(BadRequest, "duplicate Host header");
        return false;
      }
      if state.Trailers? {
        req := req.(trailers := Add(req.trailers, name, value));
      } else {
        req := req.(headers := Add(req.headers, name, value));
      }
      ok := true;
    }

    /** Decides how the body is framed. From whatever lines the header list was folded: it is accepted exactly when
        they announce a body or none. */
    method EndHeaders() returns (ok: bool)
      modifies this
      ensures Value() == FinishHeaders(lim, old(Value()))
      ensures ok <==> FramingOf(lim, old(req)).Ok?
      ensures forall fs {:trigger AddAll([], fs)} :: old(req).headers == AddAll([], fs) ==>
                (ok <==> Framed(lim, old(req).versionMinor, fs))
    {
      hide Find, Trim, IEquals, ContentLength, ExpectsContinue, AddAll, Framed;
      FramingAccepted(lim, req);
      var te := Get(req.headers, "Transfer-Encoding");
      var cl := Get(req.headers, "Content-Length");
      ok := false;
      if req.versionMinor == 1 && !Has(req.headers, "Host") {
        FailWith(BadRequest, "HTTP/1.1 request without Host");
        return;
      }
      if te.Some? && cl.Some? {
        FailWith(BadRequest, "both Transfer-Encoding and Content-Length");
        return;
      }
      if te.Some? {
        if req.IsHttp10() {
          FailWith(BadRequest, "Transfer-Encoding in an HTTP/1.0 request");
          return;
        }
        var coding := TrimOws(te.value);
        if !IEquals(coding, "chunked") {
          FailWith(NotImplemented, "unsupported transfer-coding");
          return;
        }
        state := ChunkSize;
      } else if cl.Some? {
        var n := ParseContentLength(cl.value);
        if n.None? {
          FailWith(BadRequest, "invalid Content-Length");
          return;
        }
        if n.value > lim.maxBodyBytes {
          FailWith(PayloadTooLarge, "body exceeds limit");
          return;
        }
        remaining := n.value;
        state := if n.value > 0 then Body else Done;
      } else {
        state := Done;
      }
      req := req.(expectContinue := ExpectsContinue(req.headers) && !state.Done?);
      ok := true;
    }

    method ParseChunkSize(line: string) returns (ok: bool)
      modifies this
      ensures var t := OnChunkLine(lim, old(Value()), line);
              Value() == t.m && ok == t.Continue?
    {
      var semi := FindChar(line, ';');
      var digits := TrimOws(if semi < 0 then line else line[..semi]);
      var size := ParseHex(digits);
      ok := false;
      if size.None? {
        FailWith(BadRequest, "invalid chunk size");
        return;
      }
      if size.value == 0 {
        state := Trailers;
        return true;
      }
      if size.value > lim.maxBodyBytes || |req.body| + size.value > lim.maxBodyBytes {
        FailWith(PayloadTooLarge, "body exceeds limit");
        return;
      }
      remaining := size.value;
      state := ChunkData;
      ok := true;
    }

    // ---------- the cases of the switch in feed ----------

    method TurnRequestLine(rest: string) returns (again: bool, used: nat)
      requires state.RequestLine?
      modifies this
      ensures var t := Step(lim, old(Value()), rest);
              Value() == t.m && used == t.used && again == t.Continue?
    {
      var eol := FindCrlf(rest);
      again, used := false, 0;
      if eol < 0 {
        if |rest| > lim.maxRequestLine + 1 { FailWith(UriTooLong, TOO_LONG_URI); }
        return;
      }
      if eol == 0 { return true, 2; }
      if eol > lim.maxRequestLine {
        FailWith(UriTooLong, TOO_LONG_URI);
        return;
      }
      again := ParseRequestLine(rest[..eol]);
      if again {
        used := eol + 2;
        state := HeaderLines;
      }
    }

    method TurnFields(rest: string) returns (again: bool, used: nat)
      requires InFields(Value())
      modifies this
      ensures var t := Step(lim, old(Value()), rest);
              Value() == t.m && used == t.used && again == t.Continue?
    {
      hide AddLine, DecideFraming, ExpectsContinue;
      var eol := FindCrlf(rest);
      again, used := false, 0;
      if eol < 0 {
        if headerBytes + |rest| + 1 > lim.maxHeaderBytes { FailWith(HeaderFieldsTooLarge, TOO_LARGE); }
        return;
      }
      if headerBytes + eol + 2 > lim.maxHeaderBytes {
        FailWith(HeaderFieldsTooLarge, TOO_LARGE);
        return;
      }
      headerBytes := headerBytes + eol + 2;
      used := eol + 2;
      if eol == 0 {
        assert rest[..eol] == [];
        if state.Trailers? {
          state := Done;
          again := true;
        } else {
          again := EndHeaders();
        }
        return;
      }
      headerCount := headerCount + 1;
      if headerCount > lim.maxHeaderCount {
        FailWith(HeaderFieldsTooLarge, "too many header fields");
        return;
      }
      again := ParseFieldLine(rest[..eol]);
    }

    method TurnData(rest: string) returns (again: bool, used: nat)
      requires InData(Value())
      modifies this
      ensures var t := Step(lim, old(Value()), rest);
              Value() == t.m && used == t.used && again == t.Continue?
    {
      if rest == [] { return false, 0; }
      used := if |rest| < remaining then |rest| else remaining;
      req := req.(body := req.body + rest[..used]);
      remaining := remaining - used;
      if remaining == 0 { state := if state.Body? then Done else ChunkDataEnd; }
      again := true;
    }

    method TurnChunkDataEnd(rest: string) returns (again: bool, used: nat)
      requires state.ChunkDataEnd?
      modifies this
      ensures var t := Step(lim, old(Value()), rest);
              Value() == t.m && used == t.used && again == t.Continue?
    {
      if |rest| < 2 { return false, 0; }
      if rest[..2] != CRLF {
        FailWith(BadRequest, "missing CRLF after chunk data");
        return false, 0;
      }
      state := ChunkSize;
      return true, 2;
    }

    method TurnChunkSize(rest: string) returns (again: bool, used: nat)
      requires state.ChunkSize?
      modifies this
      ensures var t := Step(lim, old(Value()), rest);
              Value() == t.m && used == t.used && again == t.Continue?
    {
      var eol := FindCrlf(rest);
      again, used := false, 0;
      if eol < 0 {
        if |rest| > lim.maxChunkLine + 1 { FailWith(BadRequest, TOO_LONG_CHUNK); }
        return;
      }
      if eol > lim.maxChunkLine {
        FailWith(BadRequest, TOO_LONG_CHUNK);
        return;
      }
      again := ParseChunkSize(rest[..eol]);
      if again { used := eol + 2; }
    }

    /** The loop of `feed` computes `Feed`, and ends. */
    method FeedBytes(data: string) returns (consumed: nat)
      modifies this
      ensures Value() == Feed(lim, old(Value()), data).m
      ensures consumed == Feed(lim, old(Value()), data).used
    {
      hide Step, Feed;
      consumed := 0;
      assert data[0..] == data;
      while true
        invariant consumed <= |data|
        invariant After(consumed, Feed(lim, Value(), data[consumed..])) == Feed(lim, old(Value()), data)
        decreases |data| - consumed, if InData(Value()) then 1 else 0
      {
        var rest := data[consumed..];
        ghost var m := Value();
        FeedTurn(lim, m, rest);
        StepUses(lim, m, rest);
        var again, used;
        match state {
          case RequestLine => again, used := TurnRequestLine(rest);
          case HeaderLines => again, used := TurnFields(rest);
          case Trailers => again, used := TurnFields(rest);
          case Body => again, used := TurnData(rest);
          case ChunkData => again, used := TurnData(rest);
          case ChunkDataEnd => again, used := TurnChunkDataEnd(rest);
          case ChunkSize => again, used := TurnChunkSize(rest);
          case Done =>
            FeedHalted(lim, m, rest);
            return;
          case Error =>
            FeedHalted(lim, m, rest);
            return;
        }
        assert rest[used..] == data[consumed + used..];
        consumed := consumed + used;
        if !again { return; }
      }
    }
  }

  /** The inner loop of the fuzz target: feed, erase what was used, take, until no request is finished. */
  method DrainBuffer(p: Parser, buf: string) returns (requests: seq<Request>, tail: string)
    modifies p
    ensures var d := Drain(p.lim, old(p.Value()), buf);
            requests == d.requests && p.Value() == d.m && tail == buf[d.used..]
  {
    hide Feed, Drain;
    requests, tail := [], buf;
    ghost var used := 0;
    while true
      invariant used <= |buf| && tail == buf[used..]
      invariant var d := Drain(p.lim, p.Value(), tail);
                Drain(p.lim, old(p.Value()), buf) == Drained(requests + d.requests, d.m, used + d.used)
      decreases |tail|, if p.Value() == START then 0 else 1
    {
      ghost var m := p.Value();
      DrainUnfold(p.lim, m, tail);
      DoneUsesBytes(p.lim, tail);
      var k := p.FeedBytes(tail);
      assert buf[used + k..] == tail[k..];
      used := used + k;
      tail := tail[k..];
      if !p.state.Done? { return; }
      var r := p.Take();
      ghost var later := Drain(p.lim, START, tail).requests;
      Assoc(requests, [r], later);
      requests := requests + [r];
    }
  }

  /** The fuzz target: pieces of `step` bytes, until the input or the parser ends. Whatever the step, the
      requests and the final status are those of the whole input, and no body exceeds the limit. */
  method Run(lim: Limits, input: string, step: nat) returns (requests: seq<Request>, finalStatus: nat)
    requires step > 0
    ensures requests == Drain(lim, START, input).requests
    ensures finalStatus == (if Drain(lim, START, input).m.state.Error?
                            then StatusFor(Drain(lim, START, input).m.error) else 0)
    ensures forall i :: 0 <= i < |requests| ==> |requests[i].body| <= lim.maxBodyBytes
  {
    hide Feed, Drain, Delimited;
    var p := new Parser(lim);
    requests, finalStatus := [], 0;
    var buf := "";
    var pos := 0;
    StartInv(lim);
    DrainDelivers(lim, START, input);
    MeaningEmpty(lim);
    assert input[..0] == "";
    while pos < |input|
      invariant |buf| <= pos <= |input|
      invariant !p.state.Error? && fresh(p) && p.lim == lim
      invariant Session(requests, p.Value(), pos - |buf|, buf) == Meaning(lim, input[..pos])
    {
      var n := if step < |input| - pos then step else |input| - pos;
      var piece := input[pos..pos + n];
      assert input[..pos] + piece == input[..pos + n];
      ArriveMeaning(lim, input[..pos], piece);
      pos := pos + n;
      var taken, tail := DrainBuffer(p, buf + piece);
      requests, buf := requests + taken, tail;
      if p.state.Error? {
        FailedForGood(lim, input[..pos], input[pos..]);
        assert input[..pos] + input[pos..] == input;
        finalStatus := StatusFor(p.error);
        return;
      }
    }
    assert input[..pos] == input;
  }

  lemma DrainUnfold(lim: Limits, m: Machine, buf: string)
    ensures var f := Feed(lim, m, buf);
            Drain(lim, m, buf) == if f.m.state.Done? then Later(f, Drain(lim, START, buf[f.used..]))
                                  else Drained([], f.m, f.used)
  {
    hide Feed;
  }

  /** After an error nothing more is delivered, whatever else arrives. */
  lemma FailedForGood(lim: Limits, a: string, b: string)
    requires Drain(lim, START, a).m.state.Error?
    ensures Drain(lim, START, a + b) == Drain(lim, START, a)
  {
    DrainResume(lim, START, a, b);
    var d := Drain(lim, START, a);
    FeedHalted(lim, d.m, a[d.used..] + b);
  }
}
