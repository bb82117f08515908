/** The other end of the connection: a client that knows which of its requests were HEAD and reads the replies
    back from the bytes on the wire, by the head's own framing fields. */
module Client {
  import opened Text
  import opened Numbers
  import opened Headers
  import opened RequestParser
  import opened Segmentation
  import opened Messages
  import opened Response
  import opened ChunkedCoding
  import opened Requests
  import opened Exchanges
  import opened Sending
  import opened Connection

  datatype Reply = Reply(status: nat, fields: Fields, body: string, trailers: Fields)

  const PROTOCOL := "HTTP/1.1 "

  /** The number between the protocol and the next space. */
  function StatusOf(line: string): Option<nat> {
    if !(PROTOCOL <= line) then None
    else
      var rest := line[|PROTOCOL|..];
      var sp := FindChar(rest, ' ');
      if sp < 0 then None else Decimal(rest[..sp])
  }

  /** How the body is delimited, as section 6.3 of RFC 9112 has a client find out. */
  function FramingSeen(isHead: bool, status: nat, fs: Fields): Option<Framing> {
    if isHead || NoContentStatus(status) then Some(NoFraming)
    else if Named(fs, "Transfer-Encoding") != [] then Some(ByChunks)
    else
      var cl := Named(fs, "Content-Length");
      if cl == [] then Some(ByClose)
      else
        var n := Decimal(cl[0].value);
        if n.None? then None else Some(ByLength(n.value))
  }

  /** A parser about to read a chunk size. */
  const CHUNK_READER := START.(state := ChunkSize)

  /** Body, trailers, and what follows. */
  datatype Content = Content(body: string, trailers: Fields, rest: string)

  /** A body that ends with the connection is complete only once that is closed. */
  function ReadBody(lim: Limits, closed: bool, framing: Framing, s: string): Option<Content> {
    match framing
    case NoFraming => Some(Content("", [], s))
    case ByLength(n) => if n <= |s| then Some(Content(s[..n], [], s[n..])) else None
    case ByChunks =>
      var f := Feed(lim, CHUNK_READER, s);
      if f.m.state.Done? then Some(Content(f.m.req.body, f.m.req.trailers, s[f.used..])) else None
    case ByClose => if closed then Some(Content(s, [], "")) else None
  }

  function ReadFinal(lim: Limits, closed: bool, isHead: bool, s: string): Option<(Reply, string)> {
    var h := ReadHead(s);
    if h.None? || !AreFieldLines(h.value.lines) then None
    else
      var status, fs := StatusOf(h.value.startLine), FieldsOf(h.value.lines);
      if status.None? then None
      else
        var framing := FramingSeen(isHead, status.value, fs);
        if framing.None? then None
        else WithBody(status.value, fs, ReadBody(lim, closed, framing.value, h.value.rest))
  }

  function WithBody(status: nat, fs: Fields, c: Option<Content>): Option<(Reply, string)> {
    if c.None? then None else Some((Reply(status, fs, c.value.body, c.value.trailers), c.value.rest))
  }

  predicate IsInterim(h: Option<Head>) {
    h.Some? && StatusOf(h.value.startLine).Some? && StatusOf(h.value.startLine).value / 100 == 1
  }

  /** One reply, behind at most one interim response. */
  function ReadReply(lim: Limits, closed: bool, isHead: bool, s: string): Option<(Reply, string)> {
    ReadFinal(lim, closed, isHead, if IsInterim(ReadHead(s)) then ReadHead(s).value.rest else s)
  }

  /** A reply to each request, and what is left, from a connection that has said all it has to say. */
  function ReadReplies(lim: Limits, heads: seq<bool>, s: string): Option<(seq<Reply>, string)>
    decreases |heads|
  {
    if heads == [] then Some(([], s))
    else
      var r := ReadReply(lim, true, heads[0], s);
      if r.None? then None
      else
        var more := ReadReplies(lim, heads[1..], r.value.1);
        if more.None? then None else Some(([r.value.0] + more.value.0, more.value.1))
  }

  /** As many replies as are complete in the bytes so far, while the connection is open. */
  function ReadSoFar(lim: Limits, heads: seq<bool>, s: string): seq<Reply>
    decreases |heads|
  {
    if heads == [] then []
    else
      var r := ReadReply(lim, false, heads[0], s);
      if r.None? then [] else [r.value.0] + ReadSoFar(lim, heads[1..], r.value.1)
  }

  // ---------- one reply ----------

  /** Field values that mean themselves. */
  predicate TidyField(f: Field) { IsToken(f.name) && IsFieldValue(f.value) && Trimmed(f.value) }

  predicate TidyFields(fs: Fields) { forall i :: 0 <= i < |fs| ==> TidyField(fs[i]) }

  lemma {:induction false} NonFramingTidy(fs: Fields)
    requires TidyFields(fs)
    ensures TidyFields(NonFraming(fs))
  {
    hide IsFramingName, TidyField;
    if fs != [] {
      NonFramingTidy(fs[..|fs| - 1]);
    }
  }

  lemma TidyAppend(a: Fields, b: Fields)
    requires TidyFields(a) && TidyFields(b)
    ensures TidyFields(a + b)
  {
    hide TidyField;
  }

  lemma LiteralNames()
    ensures IsToken("Server") && IsToken("Date") && IsToken("Content-Length")
    ensures IsToken("Transfer-Encoding") && IsToken("Connection")
  {
  }

  lemma LiteralValues()
    ensures IsFieldValue("httpd-cpp") && Trimmed("httpd-cpp") && IsFieldValue("chunked") && Trimmed("chunked")
    ensures IsFieldValue("close") && Trimmed("close") && IsFieldValue("keep-alive") && Trimmed("keep-alive")
  {
  }

  lemma DerivedTidy(res: Response, opts: HeadOptions)
    requires IsFieldValue(opts.date) && Trimmed(opts.date)
    ensures TidyFields(ServerField(res)) && TidyFields(DateField(opts)) && TidyFields(LengthField(res, opts))
    ensures TidyFields(ConnectionField(res, opts))
  {
    hide IsToken, IsFieldValue, Trimmed, Has, ToBase, FramingFor;
    LiteralNames();
    LiteralValues();
    match FramingFor(res, opts.http10) {
      case ByLength(n) => ToBaseTrimmed(n);
      case _ =>
    }
  }

  lemma HeadFieldsTidy(res: Response, opts: HeadOptions)
    requires TidyFields(res.headers) && IsFieldValue(opts.date) && Trimmed(opts.date)
    ensures TidyFields(HeadFields(res, opts))
  {
    hide TidyFields, NonFraming, ServerField, DateField, LengthField, ConnectionField, IsFieldValue, Trimmed;
    NonFramingTidy(res.headers);
    DerivedTidy(res, opts);
    TidyAppend(NonFraming(res.headers), ServerField(res));
    TidyAppend(HandlerFields(res), DateField(opts));
    TidyAppend(DatedFields(res, opts), LengthField(res, opts));
    TidyAppend(FramedFields(res, opts), ConnectionField(res, opts));
  }

  lemma ValueNoBreaks(v: string)
    requires IsFieldValue(v)
    ensures NoBreaks(v)
  {
  }

  lemma TidyIsClean(fs: Fields)
    requires TidyFields(fs)
    ensures CleanFields(fs)
  {
    hide IsToken, IsFieldValue, NoBreaks, Trimmed;
    forall i | 0 <= i < |fs|
      ensures NoBreaks(fs[i].name) && NoBreaks(fs[i].value)
    {
      assert TidyField(fs[i]);
      TokenNoBreaks(fs[i].name);
      ValueNoBreaks(fs[i].value);
    }
  }

  /** What a response must be like for its head to mean itself: the repository's handlers see to it. */
  predicate TidyHead(res: Response, opts: HeadOptions) {
    && TidyFields(res.headers) && IsFieldValue(opts.date) && Trimmed(opts.date)
    && res.status < Pow(10, 19)
    && (FramingFor(res, opts.http10).ByLength? ==> FramingFor(res, opts.http10).n < Pow(10, 19))
  }

  lemma StatusReadsBack(res: Response)
    requires res.status < Pow(10, 19)
    ensures StatusOf(StatusLine(res)) == Some(res.status)
  {
    hide ToBase, ReasonPhrase, Pow, Decimal;
    var digits, phrase := ToBase(res.status, 10), ReasonPhrase(res.status);
    var line := StatusLine(res);
    ToBaseClean(res.status, 10, ' ');
    assert line[..|PROTOCOL|] == PROTOCOL;
    assert line[|PROTOCOL|..] == digits + [' '] + phrase;
    FindCharAt(digits, ' ', phrase);
    assert (digits + [' '] + phrase)[..|digits|] == digits;
    DecimalRoundTrip(res.status);
  }

  lemma HeadReadsBack(res: Response, opts: HeadOptions, body: string)
    requires TidyHead(res, opts)
    ensures var h := ReadHead(HeadText(res, opts) + body);
            && h.Some? && h.value.rest == body && StatusOf(h.value.startLine) == Some(res.status)
            && AreFieldLines(h.value.lines) && FieldsOf(h.value.lines) == HeadFields(res, opts)
  {
    hide HeadText, HeadFields, RenderAll, Pow, StatusLine, IsFieldValue, Trimmed, TidyFields, FramingFor, ReadHead,
         StatusOf, AreFieldLines, FieldsOf;
    TidyIsClean(res.headers);
    ValueNoBreaks(opts.date);
    HeadRoundTrip(res, opts, body);
    StatusReadsBack(res);
    HeadFieldsTidy(res, opts);
    TidyLinesRead(HeadFields(res, opts));
  }

  lemma TidyLinesRead(fs: Fields)
    requires TidyFields(fs)
    ensures AreFieldLines(RenderAll(fs)) && FieldsOf(RenderAll(fs)) == fs
  {
    hide IsToken, IsFieldValue, Trimmed, AreFieldLines, FieldsOf, RenderAll;
    assert forall i :: 0 <= i < |fs| ==> TidyField(fs[i]);
    TrailerLinesRead(fs);
  }

  /** The client finds out the framing the server decided on. */
  lemma FramingReadsBack(res: Response, opts: HeadOptions, isHead: bool)
    requires TidyHead(res, opts)
    ensures FramingSeen(isHead, res.status, HeadFields(res, opts)) ==
            Some(if isHead then NoFraming else FramingFor(res, opts.http10))
  {
    hide HeadFields, Named, Pow, ToBase, Decimal, TidyFields, IsFieldValue, Trimmed;
    FramingHeadersDerived(res, opts);
    match FramingFor(res, opts.http10) {
      case ByLength(n) => DecimalRoundTrip(n);
      case _ =>
    }
  }

  // ---------- bodies ----------

  /** The client's limits admit a chunked body, and its trailers mean themselves. */
  predicate ChunksFit(lim: Limits, e: Exchange) {
    e.plan.FromStream? && e.plan.mode.InChunks? ==>
      && lim.maxChunkLine > 0 && SizesFit(lim, Pieces(e.plan.producer, e.k))
      && |DataSent(e)| <= lim.maxBodyBytes
      && CleanTrailers(TrailersSent(e))
      && |FieldText(TrailersSent(e))| + 2 <= lim.maxHeaderBytes && |TrailersSent(e)| <= lim.maxHeaderCount
  }

  lemma {:induction false} PlainStreamText(p: Producer, mode: Mode, k: nat)
    requires !mode.InChunks?
    ensures StreamText(p, mode, k) == Concat(Pieces(p, k))
  {
    hide PieceOf;
    if k > 0 {
      PlainStreamText(p, mode, k - 1);
      PiecesCount(p, k - 1);
      assert Pieces(p, k)[..k - 1] == Pieces(p, k - 1);
    }
  }

  /** Without chunks the body is its data. */
  lemma PlainBody(e: Exchange)
    requires !(e.plan.FromStream? && e.plan.mode.InChunks?)
    ensures BodyText(e) == DataSent(e) && TrailersSent(e) == []
  {
    hide StreamText, FileText, Concat;
    if e.plan.FromStream? {
      PlainStreamText(e.plan.producer, e.plan.mode, e.k);
      assert StreamText(e.plan.producer, e.plan.mode, e.k) + "" == StreamText(e.plan.producer, e.plan.mode, e.k);
    }
  }

  lemma ChunkedBodyRead(lim: Limits, closed: bool, e: Exchange, rest: string)
    requires e.plan.FromStream? && e.plan.mode.InChunks? && e.over && Consistent(e) && ChunksFit(lim, e)
    ensures ReadBody(lim, closed, ByChunks, BodyText(e) + rest) == Some(Content(DataSent(e), TrailersSent(e), rest))
  {
    hide Feed, BodyText, Concat, SizesFit, CleanTrailers, FieldText;
    ChunkedBodyReadsBack(lim, CHUNK_READER, e, rest);
    assert "" + DataSent(e) == DataSent(e);
    assert (BodyText(e) + rest)[|BodyText(e)|..] == rest;
  }

  function FramingOn(res: Response, req: Request): Framing {
    if req.verb == "HEAD" then NoFraming else FramingFor(res, req.IsHttp10())
  }

  lemma PlanFits(res: Response, req: Request)
    ensures var plan, framing := PlanFor(res, req), FramingOn(res, req);
            && (framing.NoFraming? ==> plan == Memory(""))
            && (framing.ByChunks? <==> plan.FromStream? && plan.mode.InChunks?)
  {
  }

  /** Delimited by that framing, a whole body gives back its data and its trailers, and nothing of what follows. One
      that only the close will end is not read before it does. */
  lemma BodyReadsBack(lim: Limits, closed: bool, res: Response, req: Request, e: Exchange, rest: string)
    requires e.plan == PlanFor(res, req) && Consistent(e) && Whole(e) && ChunksFit(lim, e)
    requires closed && FramingOn(res, req).ByClose? ==> rest == ""
    ensures ReadBody(lim, closed, FramingOn(res, req), BodyText(e) + rest) ==
            if !closed && FramingOn(res, req).ByClose? then None
            else Some(Content(DataSent(e), TrailersSent(e), rest))
  {
    hide Feed, BodyText, DataSent, PlanFor, FramingFor, ChunksFit, TrailersSent;
    PlanFits(res, req);
    match FramingOn(res, req) {
      case NoFraming =>
        NoBody(e);
        assert "" + rest == rest;
      case ByChunks => ChunkedBodyRead(lim, closed, e, rest);
      case ByLength(n) =>
        PlainBody(e);
        DeclaredLengthIsSent(res, req, e);
        assert (BodyText(e) + rest)[..n] == BodyText(e) && (BodyText(e) + rest)[n..] == rest;
      case ByClose =>
        PlainBody(e);
        assert BodyText(e) + "" == BodyText(e);
    }
  }

  /** Chunks without the last one are no complete body. */
  lemma ChunksAlone(lim: Limits, e: Exchange)
    requires e.plan.FromStream? && e.plan.mode.InChunks? && !e.over && ChunksFit(lim, e)
    ensures ReadBody(lim, false, ByChunks, BodyText(e)) == None
  {
    hide Feed, Concat, SizesFit, CleanTrailers, FieldText, StreamText, LastChunkText, PiecesText;
    var p, text := e.plan.producer, BodyText(e);
    ChunkedStreamText(p, e.k);
    assert text == PiecesText(Pieces(p, e.k)) + "";
    assert text == PiecesText(Pieces(p, e.k));
    if Feed(lim, CHUNK_READER, text).m.state.Done? {
      NoTrailers();
      ChunkedRoundTrip(lim, CHUNK_READER, Pieces(p, e.k), [], "");
      assert text + LastChunkText([]) + "" == text + LastChunkText([]);
      VerdictIsFinal(lim, CHUNK_READER, text, LastChunkText([]));
    }
  }

  lemma NoTrailers()
    ensures CleanTrailers([]) && FieldText([]) == "" && LastChunkText([]) != []
  {
  }

  /** Until it is whole, no body is complete. */
  lemma BodyNotYet(lim: Limits, res: Response, req: Request, e: Exchange)
    requires e.plan == PlanFor(res, req) && Consistent(e) && !Whole(e) && ChunksFit(lim, e)
    ensures ReadBody(lim, false, FramingOn(res, req), BodyText(e)) == None
  {
    hide Feed, BodyText, ChunksFit, StreamLength, StreamOpen, StreamEnded, StreamText, EndText;
    PlanFits(res, req);
    if FramingOn(res, req).ByChunks? {
      ChunksAlone(lim, e);
    } else {
      NotYetLength(res, req, e);
    }
  }

  lemma NotYetLength(res: Response, req: Request, e: Exchange)
    requires e.plan == PlanFor(res, req) && Consistent(e) && !Whole(e) && !FramingOn(res, req).ByChunks?
    ensures FramingOn(res, req).ByClose? ||
            (FramingOn(res, req).ByLength? && |BodyText(e)| < FramingOn(res, req).n)
  {
    hide StreamText;
    if e.plan.FromStream? && !e.plan.mode.InChunks? {
      PlainStreamLength(e.plan.producer, e.plan.mode, e.k);
    }
  }

  lemma NoBody(e: Exchange)
    requires e.plan == Memory("")
    ensures BodyText(e) == "" && DataSent(e) == "" && TrailersSent(e) == []
  {
  }

  // ---------- replies ----------

  /** What the client is to read, as the response and the request determine it. */
  ghost function ReplyOf(res: Response, opts: HeadOptions, req: Request): Reply {
    Reply(res.status, HeadFields(res, opts), DataFor(res, req), TrailersFor(res, req))
  }

  /** The exchange is this response to this request, and something a client can read. */
  ghost predicate Readable(lim: Limits, res: Response, opts: HeadOptions, req: Request, e: Exchange) {
    && e.head == HeadText(res, opts) && e.plan == PlanFor(res, req) && opts.http10 == req.IsHttp10()
    && Consistent(e) && ChunksFit(lim, e)
    && TidyHead(res, opts) && res.status / 100 != 1
  }

  /** Whatever stands behind its head, a client finds the framing and goes on to the body. */
  lemma FinalReads(lim: Limits, closed: bool, res: Response, opts: HeadOptions, req: Request, x: string)
    requires TidyHead(res, opts) && res.status / 100 != 1 && opts.http10 == req.IsHttp10()
    ensures ReadFinal(lim, closed, req.verb == "HEAD", HeadText(res, opts) + x) ==
            WithBody(res.status, HeadFields(res, opts), ReadBody(lim, closed, FramingOn(res, req), x))
    ensures !IsInterim(ReadHead(HeadText(res, opts) + x))
  {
    hide ReadHead, HeadText, HeadFields, FramingFor, TidyHead, ReadBody, FramingSeen, StatusOf, AreFieldLines, FieldsOf;
    HeadReadsBack(res, opts, x);
    FramingReadsBack(res, opts, req.verb == "HEAD");
  }

  /** A head without fields. */
  lemma BareHeadReads(start: string, t: string)
    requires FindCrlf(start) < 0
    ensures ReadHead(Line(start) + (CRLF + t)) == Some(Head(start, [], t))
  {
    hide FindCrlf, TakeLines;
    var s := Line(start) + (CRLF + t);
    FindCrlfAfterLine(start, CRLF + t);
    assert s[..|start|] == start && s[|start| + 2..] == CRLF + t;
    TakeLinesBack([], t);
    assert Lines([]) + (CRLF + t) == CRLF + t;
  }

  const INTERIM := Response(100, [], "", None, None, None)

  lemma HundredDigits()
    ensures ToBase(100, 10) == "100"
  {
    assert ToBase(1, 10) == "1";
    assert ToBase(10, 10) == ToBase(1, 10) + "0";
    assert ToBase(100, 10) == ToBase(10, 10) + "0";
  }

  lemma ContinueIsAHead(t: string)
    ensures CONTINUE_TEXT + t == Line(StatusLine(INTERIM)) + (CRLF + t)
  {
    hide ToBase;
    HundredDigits();
    assert CONTINUE_TEXT == Line(StatusLine(INTERIM)) + CRLF;
    Assoc(Line(StatusLine(INTERIM)), CRLF, t);
  }

  lemma InterimReads(t: string)
    ensures IsInterim(ReadHead(CONTINUE_TEXT + t)) && ReadHead(CONTINUE_TEXT + t).value.rest == t
  {
    hide ReadHead, StatusOf, StatusLine, Pow;
    ContinueIsAHead(t);
    StatusLineClean(INTERIM);
    BareHeadReads(StatusLine(INTERIM), t);
    WidthBounds();
    StatusReadsBack(INTERIM);
  }

  /** An exchange with `rest` behind it: its interim response, its head, and then the body. */
  lemma ExchangeReads(
    lim: Limits, closed: bool, res: Response, opts: HeadOptions, req: Request, e: Exchange, rest: string)
    requires Readable(lim, res, opts, req, e)
    ensures ReadReply(lim, closed, req.verb == "HEAD", ExchangeText(e) + rest) ==
            WithBody(res.status, HeadFields(res, opts), ReadBody(lim, closed, FramingOn(res, req), BodyText(e) + rest))
  {
    hide ReadHead, ReadFinal, IsInterim, BodyText, CONTINUE_TEXT, HeadText, HeadFields, ReadBody, TidyHead, FramingOn,
         ChunksFit, Consistent, PlanFor, WithBody;
    var t := e.head + (BodyText(e) + rest);
    FinalReads(lim, closed, res, opts, req, BodyText(e) + rest);
    Assoc(InterimText(e.interim) + e.head, BodyText(e), rest);
    Assoc(InterimText(e.interim), e.head, BodyText(e) + rest);
    assert "" + t == t;
    if e.interim {
      InterimReads(t);
    }
  }

  /** A whole exchange is read back as the handler's reply, unless its body waits for the close. */
  lemma ReplyReadsBack(
    lim: Limits, closed: bool, res: Response, opts: HeadOptions, req: Request, e: Exchange, rest: string)
    requires Readable(lim, res, opts, req, e) && Whole(e)
    requires closed && FramingOn(res, req).ByClose? ==> rest == ""
    ensures ReadReply(lim, closed, req.verb == "HEAD", ExchangeText(e) + rest) ==
            if !closed && FramingOn(res, req).ByClose? then None else Some((ReplyOf(res, opts, req), rest))
  {
    hide ReadReply, BodyText, HeadFields, FramingOn, ChunksFit, Consistent, PlanFor, HeadText, TidyHead, ReadBody,
         ExchangeText, DataSent, TrailersSent, Whole, DataFor, TrailersFor;
    ExchangeReads(lim, closed, res, opts, req, e, rest);
    WholeCarries(res, req, e);
    BodyReadsBack(lim, closed, res, req, e, rest);
  }

  /** Nothing is read from one that is not whole. */
  lemma ReplyNotYet(lim: Limits, res: Response, opts: HeadOptions, req: Request, e: Exchange)
    requires Readable(lim, res, opts, req, e) && !Whole(e)
    ensures ReadReply(lim, false, req.verb == "HEAD", ExchangeText(e)) == None
  {
    hide ReadReply, BodyText, HeadFields, FramingOn, ChunksFit, Consistent, PlanFor, HeadText, TidyHead, ReadBody,
         ExchangeText, Whole;
    ExchangeReads(lim, false, res, opts, req, e, "");
    assert ExchangeText(e) + "" == ExchangeText(e) && BodyText(e) + "" == BodyText(e);
    BodyNotYet(lim, res, req, e);
  }

  // ---------- whole conversations ----------

  /** What exchange `j` answers: a request, or after the last one the input that could not be parsed. */
  function AskedAt(requests: seq<Request>, j: nat): Request {
    if j < |requests| then requests[j] else EMPTY_REQUEST
  }

  function ResponseAt(w: World, requests: seq<Request>, m: Machine, j: nat): Response {
    if j < |requests| then w.handler(j, requests[j]) else ErrorResponse(m)
  }

  function OptionsAt(w: World, requests: seq<Request>, j: nat): HeadOptions {
    if j < |requests| then OptionsFor(w, j, requests[j]) else ErrorOptions(w, j)
  }

  /** The responses have tidy heads and final statuses, and the client's limits admit their chunked bodies. */
  ghost predicate Tidy(lim: Limits, w: World, requests: seq<Request>, m: Machine, j: nat, e: Exchange) {
    && TidyHead(ResponseAt(w, requests, m, j), OptionsAt(w, requests, j))
    && ResponseAt(w, requests, m, j).status / 100 != 1
    && ChunksFit(lim, e)
  }

  ghost predicate AllTidy(lim: Limits, w: World, requests: seq<Request>, m: Machine, log: seq<Exchange>) {
    forall j {:trigger Tidy(lim, w, requests, m, j, log[j])} :: 0 <= j < |log| ==>
      Tidy(lim, w, requests, m, j, log[j])
  }

  lemma ErrorPlan(m: Machine)
    ensures PlanFor(ErrorResponse(m), EMPTY_REQUEST) == Memory(ErrorResponse(m).body)
    ensures FramingFor(ErrorResponse(m), false).ByLength?
  {
    hide ReasonPhrase;
  }

  /** Input that cannot be parsed is answered with the status of its error, says why, and announces the close. */
  lemma ErrorReply(w: World, j: nat, m: Machine)
    ensures var r := ReplyOf(ErrorResponse(m), ErrorOptions(w, j), EMPTY_REQUEST);
            && r.status == StatusFor(m.error)
            && r.body == ReasonPhrase(r.status) + ": " + m.detail + "\n" && r.trailers == []
            && Named(r.fields, "Connection") == [Field("Connection", "close")]
            && Named(r.fields, "Content-Length") == [Field("Content-Length", ToBase(|r.body|, 10))]
            && Named(r.fields, "Content-Type") == [Field("Content-Type", "text/plain; charset=utf-8")]
  {
    hide ReasonPhrase, HeadFields, Named, ToBase, IsDerived;
    var res, opts := ErrorResponse(m), ErrorOptions(w, j);
    FramingHeadersDerived(res, opts);
    ContentTypeIsKept();
    NamedOne(res.headers[0], "Content-Type");
    HandlerFieldsKept(res, opts, "Content-Type");
    assert |EMPTY_REQUEST.verb| == 0 && |"HEAD"| == 4;
  }

  lemma ContentTypeIsKept()
    ensures !IsDerived("Content-Type") && !SameLetters("Content-Type", "Server")
    ensures IEquals("Content-Type", "Content-Type")
  {
    hide SameLetters;
    assert |"Content-Type"| == 12 && |"Server"| == 6;
    assert forall k :: 0 <= k < |DERIVED_NAMES| ==> |DERIVED_NAMES[k]| != 12 by {
      assert |"Content-Length"| == 14 && |"Transfer-Encoding"| == 17 && |"Connection"| == 10 && |"Date"| == 4;
    }
    forall s: string
      ensures |s| != 12 ==> !SameLetters("Content-Type", s)
    {
      LengthsAgree("Content-Type", s);
    }
  }

  lemma LengthsAgree(a: string, b: string)
    ensures SameLetters(a, b) ==> |a| == |b|
  {
  }

  lemma ExchangeReadable(lim: Limits, w: World, requests: seq<Request>, m: Machine, log: seq<Exchange>, j: nat)
    requires InOrder(w, requests, m, log) && OnlyLastOpen(w, requests, log)
    requires AllTidy(lim, w, requests, m, log) && j < |log|
    ensures Readable(lim, ResponseAt(w, requests, m, j), OptionsAt(w, requests, j), AskedAt(requests, j), log[j])
    ensures FramingOn(ResponseAt(w, requests, m, j), AskedAt(requests, j)).ByClose? ==>
              j == |log| - 1 && MustClose(w, requests, m, log)
  {
    hide HeadText, PlanFor, Consistent, Whole, ChunksFit, TidyHead, ErrorResponse, FramingFor;
    assert Tidy(lim, w, requests, m, j, log[j]);
    assert Consistent(log[j]);
    if j < |requests| {
      assert Answers(w, j, requests[j], log[j]);
      assert j < |log| - 1 ==> GoesOn(w, j, requests[j]);
    } else {
      assert AnswersError(w, j, m, log[j]);
      ErrorPlan(m);
    }
  }

  function TextFrom(log: seq<Exchange>, j: nat): string
    requires j <= |log|
    decreases |log| - j
  {
    if j == |log| then "" else ExchangeText(log[j]) + TextFrom(log, j + 1)
  }

  lemma {:induction false} TextFromAll(log: seq<Exchange>, j: nat)
    requires j <= |log|
    ensures LogText(log[..j]) + TextFrom(log, j) == LogText(log)
    decreases |log| - j
  {
    hide ExchangeText;
    if j == |log| {
      assert log[..j] == log;
      assert LogText(log) + "" == LogText(log);
    } else {
      TextFromAll(log, j + 1);
      assert log[..j + 1][..j] == log[..j];
      Assoc(LogText(log[..j]), ExchangeText(log[j]), TextFrom(log, j + 1));
    }
  }

  function HeadsFrom(requests: seq<Request>, n: nat, j: nat): (hs: seq<bool>)
    requires j <= n
    ensures |hs| == n - j && forall i :: 0 <= i < n - j ==> hs[i] == (AskedAt(requests, j + i).verb == "HEAD")
  {
    seq(n - j, i requires 0 <= i < n - j => AskedAt(requests, j + i).verb == "HEAD")
  }

  /** The replies due from the `j`th up to the `n`th, whatever was done to send them. */
  ghost function RepliesFrom(w: World, requests: seq<Request>, m: Machine, n: nat, j: nat): seq<Reply>
    requires j <= n
    decreases n - j
  {
    if j == n then []
    else
      [ReplyOf(ResponseAt(w, requests, m, j), OptionsAt(w, requests, j), AskedAt(requests, j))] +
      RepliesFrom(w, requests, m, n, j + 1)
  }

  lemma {:induction false} RepliesReadBack(
    lim: Limits, w: World, requests: seq<Request>, m: Machine, log: seq<Exchange>, j: nat, after: string)
    requires InOrder(w, requests, m, log) && OnlyLastOpen(w, requests, log) && AllWhole(log)
    requires AllTidy(lim, w, requests, m, log) && j <= |log|
    requires MustClose(w, requests, m, log) ==> after == ""
    ensures ReadReplies(lim, HeadsFrom(requests, |log|, j), TextFrom(log, j) + after) ==
            Some((RepliesFrom(w, requests, m, |log|, j), after))
    decreases |log| - j
  {
    hide InOrder, OnlyLastOpen, AllTidy, MustClose, ExchangeText, Readable, Whole, ReadReply, ReplyOf, FramingOn,
         AskedAt, ResponseAt, OptionsAt;
    if j == |log| {
      assert "" + after == after;
    } else {
      var heads := HeadsFrom(requests, |log|, j);
      var rest := TextFrom(log, j + 1) + after;
      RepliesReadBack(lim, w, requests, m, log, j + 1, after);
      ExchangeReadable(lim, w, requests, m, log, j);
      Assoc(ExchangeText(log[j]), TextFrom(log, j + 1), after);
      assert j == |log| - 1 && after == "" ==> rest == "";
      assert Whole(log[j]);
      ReplyReadsBack(lim, true, ResponseAt(w, requests, m, j), OptionsAt(w, requests, j), AskedAt(requests, j), log[j],
                     rest);
      assert heads[1..] == HeadsFrom(requests, |log|, j + 1);
    }
  }

  /** End to end: a client that reads the wire of a connection with nothing left to send gets, in order, for every
      request taken exactly the reply its handler decided: the status, the fields with the derived framing
      ones, the body's data and the trailers, however the body was produced, framed and sent. */
  lemma WireReadsBack(c: Connection, lim: Limits)
    requires c.Valid() && !c.HasOutput() && AllWhole(c.hist.log)
    requires AllTidy(lim, c.world, c.hist.requests, c.parser, c.hist.log)
    ensures ReadReplies(lim, HeadsFrom(c.hist.requests, |c.hist.log|, 0), c.sock.wire) ==
            Some((RepliesFrom(c.world, c.hist.requests, c.parser, |c.hist.log|, 0), InterimText(c.hist.owed)))
  {
    hide Tracks, Flows, SourceMatches, InOrder, OnlyLastOpen, MustClose, Bounded, LogText, AllWhole, AllTidy,
         ReadReplies, HeadsFrom, RepliesFrom, TextFrom, CONTINUE_TEXT;
    AllSent(c);
    TextFromAll(c.hist.log, 0);
    assert c.hist.log[..0] == [];
    EmptyLog(TextFrom(c.hist.log, 0));
    RepliesReadBack(lim, c.world, c.hist.requests, c.parser, c.hist.log, 0, InterimText(c.hist.owed));
  }

  lemma EmptyLog(t: string)
    ensures LogText([]) + t == t
  {
  }

  // ---------- while the connection is still talking ----------

  lemma {:induction false} TakeLinesStable(s: string, x: string)
    requires TakeLines(s).Some?
    ensures TakeLines(s + x) == Some((TakeLines(s).value.0, TakeLines(s).value.1 + x))
    decreases |s|
  {
    hide FindCrlf, CrlfAt;
    FindCrlfStable(s, x);
    var eol := FindCrlf(s);
    CrlfInside(s);
    if eol == 0 {
      assert (s + x)[2..] == s[2..] + x;
    } else {
      assert (s + x)[..eol] == s[..eol] && (s + x)[eol + 2..] == s[eol + 2..] + x;
      TakeLinesStable(s[eol + 2..], x);
    }
  }

  lemma CrlfInside(s: string)
    ensures FindCrlf(s) >= 0 ==> FindCrlf(s) + 2 <= |s|
  {
  }

  lemma ReadHeadStable(s: string, x: string)
    requires ReadHead(s).Some?
    ensures ReadHead(s + x) == Some(ReadHead(s).value.(rest := ReadHead(s).value.rest + x))
  {
    hide FindCrlf, TakeLines;
    FindCrlfStable(s, x);
    CrlfInside(s);
    var eol := FindCrlf(s);
    assert (s + x)[..eol] == s[..eol] && (s + x)[eol + 2..] == s[eol + 2..] + x;
    TakeLinesStable(s[eol + 2..], x);
  }

  lemma ReadBodyStable(lim: Limits, framing: Framing, s: string, x: string)
    requires ReadBody(lim, false, framing, s).Some?
    ensures var c := ReadBody(lim, false, framing, s).value;
            ReadBody(lim, false, framing, s + x) == Some(c.(rest := c.rest + x))
  {
    hide Feed;
    match framing {
      case ByLength(n) => assert (s + x)[..n] == s[..n] && (s + x)[n..] == s[n..] + x;
      case ByChunks =>
        VerdictIsFinal(lim, CHUNK_READER, s, x);
        var f := Feed(lim, CHUNK_READER, s);
        assert (s + x)[f.used..] == s[f.used..] + x;
      case _ =>
    }
  }

  lemma ReadFinalStable(lim: Limits, isHead: bool, s: string, x: string)
    requires ReadFinal(lim, false, isHead, s).Some?
    ensures var r := ReadFinal(lim, false, isHead, s).value;
            ReadFinal(lim, false, isHead, s + x) == Some((r.0, r.1 + x))
  {
    hide ReadHead, ReadBody, FramingSeen, StatusOf, AreFieldLines, FieldsOf;
    ReadHeadStable(s, x);
    var h := ReadHead(s).value;
    var framing := FramingSeen(isHead, StatusOf(h.startLine).value, FieldsOf(h.lines));
    ReadBodyStable(lim, framing.value, h.rest, x);
  }

  /** A complete reply stays what it is, whatever arrives behind it. */
  lemma ReadReplyStable(lim: Limits, isHead: bool, s: string, x: string)
    requires ReadReply(lim, false, isHead, s).Some?
    ensures var r := ReadReply(lim, false, isHead, s).value;
            ReadReply(lim, false, isHead, s + x) == Some((r.0, r.1 + x))
  {
    hide ReadHead, ReadFinal, IsInterim;
    HeadFirst(lim, isHead, s);
    ReadHeadStable(s, x);
    InterimStable(ReadHead(s), ReadHead(s + x));
    var t := if IsInterim(ReadHead(s)) then ReadHead(s).value.rest else s;
    ReadFinalStable(lim, isHead, t, x);
  }

  lemma HeadFirst(lim: Limits, isHead: bool, s: string)
    requires ReadReply(lim, false, isHead, s).Some?
    ensures ReadHead(s).Some?
  {
    hide ReadHead, ReadBody, FramingSeen, StatusOf, AreFieldLines, FieldsOf;
  }

  lemma InterimStable(a: Option<Head>, b: Option<Head>)
    requires a.Some? && b.Some? && a.value.startLine == b.value.startLine
    ensures IsInterim(a) == IsInterim(b)
  {
  }

  /** The exchanges that are whole: all, or all but the last. */
  ghost function WholePart(log: seq<Exchange>): seq<Exchange> {
    if log != [] && !Whole(log[|log| - 1]) then log[..|log| - 1] else log
  }

  /** What can be read of the text of a log from exchange `j` on: nothing but its replies, in order. */
  lemma {:induction false} SoFarIsPrefix(
    lim: Limits, w: World, requests: seq<Request>, m: Machine, log: seq<Exchange>, j: nat, s: string, x: string)
    requires InOrder(w, requests, m, log) && OnlyLastOpen(w, requests, log) && AllTidy(lim, w, requests, m, log)
    requires j <= |WholePart(log)| && TextFrom(log, j) <= s + x
    requires |WholePart(log)| < |log| ==> s + x == TextFrom(log, j)
    ensures ReadSoFar(lim, HeadsFrom(requests, |log|, j), s) <= RepliesFrom(w, requests, m, |WholePart(log)|, j)
    decreases |log| - j
  {
    hide InOrder, OnlyLastOpen, AllTidy, ExchangeText, Readable, ReadReply, ReplyOf, FramingOn, AskedAt, ResponseAt,
         OptionsAt, Whole, MustClose;
    var heads := HeadsFrom(requests, |log|, j);
    if j < |log| && ReadReply(lim, false, heads[0], s).Some? {
      var e, after := log[j], (s + x)[|ExchangeText(log[j])|..];
      var t := ReadReply(lim, false, heads[0], s).value.1;
      ReadReplyStable(lim, heads[0], s, x);
      ExchangeReadable(lim, w, requests, m, log, j);
      NextText(log, j, s + x);
      if j == |WholePart(log)| {
        NothingBehind(log, j);
        ReplyNotYet(lim, ResponseAt(w, requests, m, j), OptionsAt(w, requests, j), AskedAt(requests, j), e);
      } else {
        WholeBefore(w, requests, log, j);
        ReplyReadsBack(lim, false, ResponseAt(w, requests, m, j), OptionsAt(w, requests, j), AskedAt(requests, j), e,
                       after);
        assert t + x == after;
        assert heads[1..] == HeadsFrom(requests, |log|, j + 1);
        SoFarIsPrefix(lim, w, requests, m, log, j + 1, t, x);
      }
    }
  }

  lemma NextText(log: seq<Exchange>, j: nat, all: string)
    requires j < |log| && TextFrom(log, j) <= all
    ensures |ExchangeText(log[j])| <= |all| && all == ExchangeText(log[j]) + all[|ExchangeText(log[j])|..]
    ensures TextFrom(log, j + 1) <= all[|ExchangeText(log[j])|..]
    ensures all == TextFrom(log, j) ==> all[|ExchangeText(log[j])|..] == TextFrom(log, j + 1)
  {
    hide ExchangeText;
    var n := |ExchangeText(log[j])|;
    assert TextFrom(log, j)[..n] == ExchangeText(log[j]) && TextFrom(log, j)[n..] == TextFrom(log, j + 1);
  }

  lemma NothingBehind(log: seq<Exchange>, j: nat)
    requires log != [] && j == |log| - 1
    ensures TextFrom(log, j) == ExchangeText(log[j])
  {
    hide ExchangeText;
    assert TextFrom(log, j + 1) == "";
    assert ExchangeText(log[j]) + "" == ExchangeText(log[j]);
  }

  lemma WholeBefore(w: World, requests: seq<Request>, log: seq<Exchange>, j: nat)
    requires OnlyLastOpen(w, requests, log) && j < |WholePart(log)|
    ensures Whole(log[j]) && WholePart(log)[j] == log[j]
  {
    hide Whole, Consistent, GoesOn;
  }

  /** And every reply that is completely there is read. */
  lemma {:induction false} SoFarIsAll(
    lim: Limits, w: World, requests: seq<Request>, m: Machine, log: seq<Exchange>, j: nat, i: nat, s: string)
    requires InOrder(w, requests, m, log) && OnlyLastOpen(w, requests, log) && AllTidy(lim, w, requests, m, log)
    requires j <= i <= |WholePart(log)| && TextFrom(log[..i], j) <= s
    requires i == |log| ==> !MustClose(w, requests, m, log)
    ensures |ReadSoFar(lim, HeadsFrom(requests, |log|, j), s)| >= i - j
    decreases i - j
  {
    hide InOrder, OnlyLastOpen, AllTidy, ExchangeText, Readable, ReadReply, ReplyOf, FramingOn, AskedAt, ResponseAt,
         OptionsAt, Whole, MustClose;
    if j < i {
      var heads, e := HeadsFrom(requests, |log|, j), log[j];
      NextText(log[..i], j, s);
      var rest := s[|ExchangeText(e)|..];
      ExchangeReadable(lim, w, requests, m, log, j);
      WholeBefore(w, requests, log, j);
      ReplyReadsBack(lim, false, ResponseAt(w, requests, m, j), OptionsAt(w, requests, j), AskedAt(requests, j), e,
                     rest);
      assert heads[1..] == HeadsFrom(requests, |log|, j + 1);
      SoFarIsAll(lim, w, requests, m, log, j + 1, i, rest);
    }
  }

  lemma TextFromStart(log: seq<Exchange>)
    ensures TextFrom(log, 0) == LogText(log)
  {
    hide TextFrom, LogText;
    TextFromAll(log, 0);
    assert log[..0] == [];
    EmptyLog(TextFrom(log, 0));
  }

  /** An interim response is only owed when everything before it is whole. */
  lemma OwedMeansWhole(c: Connection)
    requires c.Valid()
    ensures c.hist.owed ==> WholePart(c.hist.log) == c.hist.log
  {
    hide Tracks, InOrder, OnlyLastOpen, Bounded, DataDue, Residue, MustClose, Flows, Whole, Expecting;
    if c.hist.owed {
      LastIsWhole(c.world, c.hist.requests, c.parser, c.hist.log, c.hist.owed);
    }
  }

  /** The first `i` exchanges are on the wire, whole, and none of them is ended by the close. */
  ghost predicate SentWhole(c: Connection, i: nat)
    reads c
  {
    && i <= |WholePart(c.hist.log)| <= |c.hist.log| && LogText(c.hist.log[..i]) <= c.sock.wire
    && (i < |c.hist.log| || !c.closeAfterWrite)
  }

  /** At every point of every run: what a client reads from the bytes sent so far are the first of the replies decided,
      and it reads every one that has been sent completely, up to one that only the close will end. */
  lemma ClientSoFar(c: Connection, lim: Limits, i: nat)
    requires c.Valid() && AllTidy(lim, c.world, c.hist.requests, c.parser, c.hist.log)
    ensures var got := ReadSoFar(lim, HeadsFrom(c.hist.requests, |c.hist.log|, 0), c.sock.wire);
            && got <= RepliesFrom(c.world, c.hist.requests, c.parser, |WholePart(c.hist.log)|, 0)
            && (SentWhole(c, i) ==> |got| >= i)
  {
    hide Tracks, SourceMatches, InOrder, OnlyLastOpen, MustClose, Bounded, LogText, AllTidy, ReadSoFar, HeadsFrom,
         RepliesFrom, TextFrom, WholePart, CONTINUE_TEXT, DataDue, Residue, InterimMatches;
    var h := c.hist;
    TextFromStart(h.log);
    OwedMeansWhole(c);
    assert LogText(h.log) + "" == LogText(h.log);
    SoFarIsPrefix(lim, c.world, h.requests, c.parser, h.log, 0, c.sock.wire, c.Pending());
    WholeLength(h.log);
    if SentWhole(c, i) {
      TextFromStart(h.log[..i]);
      SoFarIsAll(lim, c.world, h.requests, c.parser, h.log, 0, i, c.sock.wire);
    }
  }

  lemma WholeLength(log: seq<Exchange>)
    ensures |WholePart(log)| <= |log|
  {
  }
}
