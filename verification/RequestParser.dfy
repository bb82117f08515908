/** The incremental HTTP/1.x request parser: a pure step function over a value (`Machine`) and the `feed`
    function built from it. */
module RequestParser {
  import opened Text
  import opened Numbers
  import opened Headers

  datatype ParseError =
    | NoError | BadRequest | UriTooLong | HeaderFieldsTooLarge | PayloadTooLarge | NotImplemented
    | VersionNotSupported

  function StatusFor(e: ParseError): nat {
    match e
    case NoError => 200
    case BadRequest => 400
    case UriTooLong => 414
    case HeaderFieldsTooLarge => 431
    case PayloadTooLarge => 413
    case NotImplemented => 501
    case VersionNotSupported => 505
  }

  datatype Limits = Limits(
    maxRequestLine: nat, maxHeaderBytes: nat, maxHeaderCount: nat, maxBodyBytes: nat, maxChunkLine: nat)

  datatype Request = Request(
    verb: string, target: string, path: string, query: string, versionMinor: nat,
    headers: Fields, trailers: Fields, body: string, expectContinue: bool)
  {
    /** The parser only lets major version 1 through, so it is not a field. */
    predicate IsHttp10() { versionMinor == 0 }

    predicate KeepAlive() {
      if HasToken(headers, "Connection", "close") then false
      else if versionMinor == 0 then HasToken(headers, "Connection", "keep-alive")
      else true
    }
  }

  const EMPTY_REQUEST: Request := Request("", "", "", "", 1, [], [], "", false)

  datatype State =
    | RequestLine | HeaderLines | Body | ChunkSize | ChunkData | ChunkDataEnd | Trailers | Done | Error

  datatype Machine = Machine(
    state: State, req: Request, error: ParseError, detail: string,
    headerBytes: nat, headerCount: nat, remaining: nat)

  const START: Machine := Machine(RequestLine, EMPTY_REQUEST, NoError, "", 0, 0, 0)

  function Fail(m: Machine, e: ParseError, detail: string): Machine {
    m.(state := Error, error := e, detail := detail)
  }

  datatype Outcome<+T> = Ok(value: T) | Reject(error: ParseError, detail: string)

  // ---------- single lines ----------

  datatype StartLine = StartLine(verb: string, target: string, path: string, query: string, minor: nat)

  predicate ValidTarget(t: string) {
    t != [] && forall i :: 0 <= i < |t| ==> t[i] > ' ' && t[i] != '\U{7F}'
  }

  predicate StartsWithIcase(s: string, prefix: string) {
    |s| >= |prefix| && IEquals(s[..|prefix|], prefix)
  }

  predicate IsAbsolute(target: string) {
    StartsWithIcase(target, "http://") || StartsWithIcase(target, "https://")
  }

  predicate SupportedForm(verb: string, target: string) {
    target != [] && (IsAbsolute(target) || target[0] == '/' || (target == "*" && verb == "OPTIONS"))
  }

  /** Index just after the first "//". */
  function AfterSlashes(s: string): (r: nat)
    requires exists i :: 0 <= i < |s| - 1 && s[i] == '/' && s[i + 1] == '/'
    ensures 2 <= r <= |s|
  {
    if s[0] == '/' && s[1] == '/' then 2
    else
      var i :| 0 <= i < |s| - 1 && s[i] == '/' && s[i + 1] == '/';
      assert s[1..][i - 1] == '/' && s[1..][i] == '/';
      1 + AfterSlashes(s[1..])
  }

  lemma AbsoluteHasSlashes(t: string)
    requires IsAbsolute(t)
    ensures exists i :: 0 <= i < |t| - 1 && t[i] == '/' && t[i + 1] == '/'
  {
    var k := if StartsWithIcase(t, "http://") then 5 else 6;
    var p := if StartsWithIcase(t, "http://") then "http://" else "https://";
    assert Lower(t[..|p|][k]) == Lower(p[k]) && Lower(t[..|p|][k + 1]) == Lower(p[k + 1]);
    assert t[k] == '/' && t[k + 1] == '/';
  }

  function PathAndQuery(target: string): string {
    if IsAbsolute(target) then
      AbsoluteHasSlashes(target);
      var authority := AfterSlashes(target);
      var slash := FindChar(target[authority..], '/');
      if slash < 0 then "/" else target[authority + slash..]
    else target
  }

  function PathOf(pq: string): string {
    var q := FindChar(pq, '?');
    if q < 0 then pq else pq[..q]
  }

  function QueryOf(pq: string): string {
    var q := FindChar(pq, '?');
    if q < 0 then "" else pq[q + 1..]
  }

  /** "HTTP/" DIGIT "." DIGIT. */
  predicate IsVersion(v: string) {
    |v| == 8 && v[..5] == "HTTP/" && IsDigit(v[5]) && v[6] == '.' && IsDigit(v[7])
  }

  const NOT_THREE_PARTS := "request-line must have exactly three parts"

  /** request-line = method SP request-target SP HTTP-version */
  function ReadRequestLine(line: string): (r: Outcome<StartLine>)
    ensures r.Reject? ==> !r.error.NoError?
  {
    var sp1 := FindChar(line, ' ');
    var tail := if sp1 < 0 then [] else line[sp1 + 1..];
    var sp2 := FindChar(tail, ' ');
    if sp1 < 0 || sp2 < 0 || ' ' in tail[sp2 + 1..] then
      Reject(BadRequest, NOT_THREE_PARTS)
    else
      ReadParts(line[..sp1], tail[..sp2], tail[sp2 + 1..])
  }

  function ReadParts(verb: string, target: string, version: string): (r: Outcome<StartLine>)
    ensures r.Reject? ==> !r.error.NoError?
  {
    if !IsToken(verb) then Reject(BadRequest, "invalid method")
    else if !ValidTarget(target) then Reject(BadRequest, "invalid request-target")
    else if !IsVersion(version) then Reject(BadRequest, "malformed HTTP-version")
    else if version[5] != '1' || version[7] > '1' then
      Reject(VersionNotSupported, "only HTTP/1.0 and HTTP/1.1 are supported")
    else if !SupportedForm(verb, target) then Reject(BadRequest, "unsupported request-target form")
    else
      var pq := PathAndQuery(target);
      Ok(StartLine(verb, target, PathOf(pq), QueryOf(pq), HexValue(version[7])))
  }

  predicate IsFieldChar(c: char) { !(c < ' ' && c != '\t') && c != '\U{7F}' }

  predicate IsFieldValue(s: string) { forall i :: 0 <= i < |s| ==> IsFieldChar(s[i]) }

  /** field-line = field-name ":" OWS field-value OWS */
  function ReadFieldLine(line: string): (r: Outcome<Field>)
    ensures r.Reject? ==> !r.error.NoError?
  {
    var colon := FindChar(line, ':');
    if colon < 0 then Reject(BadRequest, "header line without ':'")
    else if !IsToken(line[..colon]) then Reject(BadRequest, "invalid header field name")
    else
      var value := Trim(line[colon + 1..]);
      if !IsFieldValue(value) then Reject(BadRequest, "control character in header value")
      else Ok(Field(line[..colon], value))
  }

  /** Adds one field line to the header or trailer list; a second Host header is an error. */
  function AddLine(h: Fields, line: string, trailer: bool): (r: Outcome<Fields>)
    ensures r.Reject? ==> !r.error.NoError?
  {
    var f := ReadFieldLine(line);
    if f.Reject? then Reject(f.error, f.detail)
    else if !trailer && IEquals(f.value.name, "Host") && Has(h, "Host") then
      Reject(BadRequest, "duplicate Host header")
    else Ok(Add(h, f.value.name, f.value.value))
  }

  /** chunk-size [ chunk-ext ]: the extension is ignored. */
  function ReadChunkSize(line: string): Option<nat> {
    var semi := FindChar(line, ';');
    Hexadecimal(Trim(if semi < 0 then line else line[..semi]))
  }

  // ---------- message framing ----------

  datatype BodyFraming = NoBody | Length(n: nat) | ChunkedBody

  /** Where the body ends, decided from the header section and the version alone. */
  function DecideFraming(lim: Limits, h: Fields, minor: nat): (r: Outcome<BodyFraming>)
    ensures r.Reject? ==> !r.error.NoError?
  {
    var te := Get(h, "Transfer-Encoding");
    var cl := Get(h, "Content-Length");
    if minor == 1 && !Has(h, "Host") then Reject(BadRequest, "HTTP/1.1 request without Host")
    else if te.Some? && cl.Some? then Reject(BadRequest, "both Transfer-Encoding and Content-Length")
    else if te.Some? then
      if minor == 0 then Reject(BadRequest, "Transfer-Encoding in an HTTP/1.0 request")
      else if !IEquals(Trim(te.value), "chunked") then Reject(NotImplemented, "unsupported transfer-coding")
      else Ok(ChunkedBody)
    else if cl.Some? then
      var n := ContentLength(cl.value);
      if n.None? then Reject(BadRequest, "invalid Content-Length")
      else if n.value > lim.maxBodyBytes then Reject(PayloadTooLarge, "body exceeds limit")
      else Ok(Length(n.value))
    else Ok(NoBody)
  }

  function FramingOf(lim: Limits, r: Request): Outcome<BodyFraming> {
    DecideFraming(lim, r.headers, r.versionMinor)
  }

  predicate ExpectsContinue(h: Fields) {
    var e := Get(h, "Expect");
    e.Some? && IEquals(Trim(e.value), "100-continue")
  }

  function FinishHeaders(lim: Limits, m: Machine): Machine {
    var f := FramingOf(lim, m.req);
    if f.Reject? then Fail(m, f.error, f.detail)
    else
      var m1 :=
        match f.value
        case NoBody => m.(state := Done)
        case Length(n) => m.(remaining := n, state := if n > 0 then Body else Done)
        case ChunkedBody => m.(state := ChunkSize);
      m1.(req := m1.req.(expectContinue := ExpectsContinue(m.req.headers) && m1.state != Done))
  }

  // ---------- one turn of the loop in feed ----------

  /** Either the loop goes round again or `feed` returns, in both cases having used some bytes. */
  datatype Turn = Continue(m: Machine, used: nat) | Return(m: Machine, used: nat)

  predicate InData(m: Machine) { m.state.Body? || m.state.ChunkData? }

  /** States that wait for a whole CRLF-terminated line. */
  predicate InLine(m: Machine) {
    m.state.RequestLine? || m.state.HeaderLines? || m.state.Trailers? || m.state.ChunkSize?
  }

  predicate InFields(m: Machine) { m.state.HeaderLines? || m.state.Trailers? }

  const TOO_LONG_URI := "request-line too long"
  const TOO_LARGE := "header section too large"
  const TOO_LONG_CHUNK := "chunk-size line too long"

  function FailTooLong(m: Machine): Machine {
    if m.state.RequestLine? then Fail(m, UriTooLong, TOO_LONG_URI)
    else if m.state.ChunkSize? then Fail(m, BadRequest, TOO_LONG_CHUNK)
    else Fail(m, HeaderFieldsTooLarge, TOO_LARGE)
  }

  /** No CRLF in the `n` bytes at hand. They may end in the CR of a CRLF still to come. */
  predicate PartialTooLong(lim: Limits, m: Machine, n: nat) {
    if m.state.RequestLine? then n > lim.maxRequestLine + 1
    else if m.state.ChunkSize? then n > lim.maxChunkLine + 1
    else m.headerBytes + n + 1 > lim.maxHeaderBytes
  }

  /** A complete line of `n` bytes, CRLF not counted. */
  predicate LineTooLong(lim: Limits, m: Machine, n: nat) {
    if m.state.RequestLine? then n > 0 && n > lim.maxRequestLine
    else if m.state.ChunkSize? then n > lim.maxChunkLine
    else m.headerBytes + n + 2 > lim.maxHeaderBytes
  }

  function OnStartLine(m: Machine, line: string): Turn {
    if line == [] then Continue(m, 2)
    else
      match ReadRequestLine(line)
      case Reject(e, d) => Return(Fail(m, e, d), 0)
      case Ok(h) =>
        Continue(m.(state := HeaderLines, req := WithStartLine(m.req, h)), |line| + 2)
  }

  function WithStartLine(r: Request, h: StartLine): Request {
    r.(verb := h.verb, target := h.target, path := h.path, query := h.query, versionMinor := h.minor)
  }

  function OnFieldLine(lim: Limits, m: Machine, line: string): Turn {
    var m1 := m.(headerBytes := m.headerBytes + |line| + 2);
    if line == [] then OnBlankLine(lim, m1)
    else
      var m2 := m1.(headerCount := m1.headerCount + 1);
      if m2.headerCount > lim.maxHeaderCount then
        Return(Fail(m2, HeaderFieldsTooLarge, "too many header fields"), |line| + 2)
      else
        match AddLine(if m.state.Trailers? then m.req.trailers else m.req.headers, line, m.state.Trailers?)
        case Reject(e, d) => Return(Fail(m2, e, d), |line| + 2)
        case Ok(h) => Continue(m2.(req := WithFields(m, h)), |line| + 2)
  }

  function WithFields(m: Machine, h: Fields): Request {
    if m.state.Trailers? then m.req.(trailers := h) else m.req.(headers := h)
  }

  function OnBlankLine(lim: Limits, m: Machine): Turn {
    if m.state.Trailers? then Continue(m.(state := Done), 2)
    else
      var m1 := FinishHeaders(lim, m);
      if m1.state.Error? then Return(m1, 2) else Continue(m1, 2)
  }

  function OnChunkLine(lim: Limits, m: Machine, line: string): Turn {
    var size := ReadChunkSize(line);
    if size.None? then Return(Fail(m, BadRequest, "invalid chunk size"), 0)
    else if size.value == 0 then Continue(m.(state := Trailers), |line| + 2)
    else if size.value > lim.maxBodyBytes || |m.req.body| + size.value > lim.maxBodyBytes then
      Return(Fail(m, PayloadTooLarge, "body exceeds limit"), 0)
    else Continue(m.(remaining := size.value, state := ChunkData), |line| + 2)
  }

  function OnLine(lim: Limits, m: Machine, line: string): Turn {
    if m.state.RequestLine? then OnStartLine(m, line)
    else if m.state.ChunkSize? then OnChunkLine(lim, m, line)
    else OnFieldLine(lim, m, line)
  }

  function StepLine(lim: Limits, m: Machine, rest: string): Turn {
    var eol := FindCrlf(rest);
    if eol < 0 then Return(if PartialTooLong(lim, m, |rest|) then FailTooLong(m) else m, 0)
    else if LineTooLong(lim, m, eol) then Return(FailTooLong(m), 0)
    else OnLine(lim, m, rest[..eol])
  }

  function StepData(m: Machine, rest: string): Turn {
    if rest == [] then Return(m, 0)
    else
      var n := if |rest| < m.remaining then |rest| else m.remaining;
      var left := m.remaining - n;
      Continue(m.(req := m.req.(body := m.req.body + rest[..n]), remaining := left,
                  state := if left > 0 then m.state else if m.state.Body? then Done else ChunkDataEnd), n)
  }

  function StepChunkDataEnd(m: Machine, rest: string): Turn {
    if |rest| < 2 then Return(m, 0)
    else if rest[..2] != CRLF then Return(Fail(m, BadRequest, "missing CRLF after chunk data"), 0)
    else Continue(m.(state := ChunkSize), 2)
  }

  function Step(lim: Limits, m: Machine, rest: string): Turn {
    if InLine(m) then StepLine(lim, m, rest)
    else if InData(m) then StepData(m, rest)
    else if m.state.ChunkDataEnd? then StepChunkDataEnd(m, rest)
    else Return(m, 0)
  }

  /** An accepted line is used up together with its CRLF. */
  lemma OnLineUses(lim: Limits, m: Machine, line: string)
    requires InLine(m)
    ensures OnLine(lim, m, line).used <= |line| + 2
    ensures OnLine(lim, m, line).Continue? ==> OnLine(lim, m, line).used == |line| + 2
    ensures OnLine(lim, m, line).Return? ==> OnLine(lim, m, line).m.state.Error?
  {
    hide ReadRequestLine, AddLine, ReadChunkSize, DecideFraming;
  }

  /** A turn uses no more than it was given, and a turn that continues either uses a byte or leaves the
      data states, so the loop ends. */
  lemma StepUses(lim: Limits, m: Machine, rest: string)
    ensures Step(lim, m, rest).used <= |rest|
    ensures Step(lim, m, rest).Continue? && Step(lim, m, rest).used == 0 ==>
              InData(m) && !InData(Step(lim, m, rest).m)
  {
    hide OnLine;
    if InLine(m) && FindCrlf(rest) >= 0 {
      OnLineUses(lim, m, rest[..FindCrlf(rest)]);
    }
  }

  /** What a call of `feed` leaves: the machine and the number of bytes consumed. */
  datatype Fed = Fed(m: Machine, used: nat)

  function After(n: nat, r: Fed): Fed { Fed(r.m, n + r.used) }

  function Feed(lim: Limits, m: Machine, data: string): (r: Fed)
    ensures r.used <= |data|
    decreases |data|, if InData(m) then 1 else 0
  {
    StepUses(lim, m, data);
    match Step(lim, m, data)
    case Return(m', n) => Fed(m', n)
    case Continue(m', n) => After(n, Feed(lim, m', data[n..]))
  }

  predicate Halted(m: Machine) { m.state.Done? || m.state.Error? }

  lemma FeedHalted(lim: Limits, m: Machine, data: string)
    requires Halted(m)
    ensures Feed(lim, m, data) == Fed(m, 0)
  {
  }

  lemma FeedTurn(lim: Limits, m: Machine, data: string)
    ensures Step(lim, m, data).used <= |data|
    ensures Feed(lim, m, data) == (match Step(lim, m, data)
                                   case Return(m', n) => Fed(m', n)
                                   case Continue(m', n) => After(n, Feed(lim, m', data[n..])))
  {
    hide Step;
    StepUses(lim, m, data);
  }
}
