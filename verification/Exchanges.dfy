/** What a connection owes its peer: for each request at most one 100 Continue, then a head, then a body
    that comes from memory, from a file, or from a producer. Everything here is about values; the
    connection object that sends these bytes is in `Connection`. */
module Exchanges {
  import opened Text
  import opened Headers
  import opened RequestParser
  import opened Segmentation
  import opened Driver
  import opened Reachable
  import opened Response
  import opened ChunkedCoding

  const CONTINUE_TEXT := "HTTP/1.1 100 Continue\r\n\r\n"

  /** Everything outside the connection: limits, handlers, the clock, the drain flag. The number is the
      position of the response on the connection, so handlers may keep state and time may pass. */
  datatype World = World(
    lim: Limits, handler: (nat, Request) -> Response, date: nat -> string, draining: nat -> bool)

  function OptionsFor(w: World, j: nat, req: Request): HeadOptions {
    HeadOptions(req.KeepAlive() && !w.draining(j), req.IsHttp10(), w.date(j))
  }

  // ---------- bodies ----------

  datatype Mode = Sized(n: nat) | InChunks | Raw

  datatype Plan = Memory(bytes: string) | FromFile(file: FileBody) | FromStream(producer: Producer, mode: Mode)

  /** The body a response will have, given the request it answers. */
  function PlanFor(res: Response, req: Request): Plan {
    var framing := FramingFor(res, req.IsHttp10());
    if req.verb == "HEAD" || framing.NoFraming? then Memory("")
    else if res.file.Some? then
      if res.file.value.length > 0 then FromFile(res.file.value) else Memory("")
    else if res.producer.Some? then
      if res.streamLength.Some? then
        if res.streamLength.value == 0 then Memory("")
        else FromStream(res.producer.value, Sized(res.streamLength.value))
      else FromStream(res.producer.value, if framing.ByChunks? then InChunks else Raw)
    else Memory(res.body)
  }

  function PieceOf(a: Answer): string { if a.Piece? then a.piece else "" }

  function TrailersOf(a: Answer): Fields { if a.Piece? then a.trailers else [] }

  function PieceText(mode: Mode, piece: string): string {
    if mode.InChunks? then ChunkText(piece) else piece
  }

  /** What the first `k` answers put on the wire, before any last chunk. */
  function StreamText(p: Producer, mode: Mode, k: nat): string {
    if k == 0 then "" else StreamText(p, mode, k - 1) + PieceText(mode, PieceOf(p(k - 1)))
  }

  /** The data bytes of the first `k` answers, whatever the coding. */
  function StreamLength(p: Producer, k: nat): nat {
    if k == 0 then 0 else StreamLength(p, k - 1) + |PieceOf(p(k - 1))|
  }

  function EndText(p: Producer, mode: Mode, k: nat): string {
    if mode.InChunks? && k > 0 then LastChunkText(TrailersOf(p(k - 1))) else ""
  }

  function FileText(f: FileBody, k: nat): string {
    if f.offset + k <= |f.content| then f.content[f.offset..f.offset + k] else ""
  }

  /** One request answered: `k` counts file bytes sent or producer answers used; `over` once the body
      source has nothing more to give. */
  datatype Exchange = Exchange(interim: bool, head: string, plan: Plan, k: nat, over: bool)

  function BodyText(e: Exchange): string {
    match e.plan
    case Memory(bytes) => bytes
    case FromFile(f) => FileText(f, e.k)
    case FromStream(p, mode) => StreamText(p, mode, e.k) + if e.over then EndText(p, mode, e.k) else ""
  }

  function InterimText(b: bool): string { if b then CONTINUE_TEXT else "" }

  function ExchangeText(e: Exchange): string { InterimText(e.interim) + e.head + BodyText(e) }

  function LogText(log: seq<Exchange>): string {
    if log == [] then "" else LogText(log[..|log| - 1]) + ExchangeText(log[|log| - 1])
  }

  lemma LogTextAppend(log: seq<Exchange>, e: Exchange)
    ensures LogText(log + [e]) == LogText(log) + ExchangeText(e)
  {
    assert (log + [e])[..|log|] == log;
  }

  /** The last exchange growing by some bytes grows the whole log by those bytes. */
  lemma LogTextGrow(log: seq<Exchange>, e: Exchange, x: string)
    requires log != [] && ExchangeText(e) == ExchangeText(log[|log| - 1]) + x
    ensures LogText(log[|log| - 1 := e]) == LogText(log) + x
  {
    hide ExchangeText;
    var k := |log| - 1;
    assert log[k := e][..k] == log[..k];
    Assoc(LogText(log[..k]), ExchangeText(log[k]), x);
  }

  // ---------- bodies against declared lengths ----------

  /** A stream has not ended after `k` answers: each was a non-empty piece with more to come, and a sized
      stream still owes bytes. */
  ghost predicate StreamOpen(p: Producer, mode: Mode, k: nat) {
    && (forall i :: 0 <= i < k ==> p(i).Piece? && p(i).more && p(i).piece != [])
    && (mode.Sized? ==> StreamLength(p, k) < mode.n)
  }

  /** It ended with the answer before `k`. */
  ghost predicate StreamEnded(p: Producer, mode: Mode, k: nat) {
    && k > 0 && StreamOpen(p, mode, k - 1) && p(k - 1).Piece?
    && (mode.Sized? ==> StreamLength(p, k) <= mode.n)
    && (!p(k - 1).more || (mode.Sized? && StreamLength(p, k) == mode.n))
  }

  /** The exchange is as far as its source says. */
  ghost predicate Consistent(e: Exchange) {
    match e.plan
    case Memory(_) => e.over
    case FromFile(f) =>
      && e.k <= f.length && (e.over <==> e.k == f.length) && (e.k > 0 ==> f.offset + e.k <= |f.content|)
    case FromStream(p, mode) => if e.over then StreamEnded(p, mode, e.k) else StreamOpen(p, mode, e.k)
  }

  /** Over, and nothing promised is missing. */
  ghost predicate Whole(e: Exchange) {
    e.over && (e.plan.FromStream? && e.plan.mode.Sized? ==> StreamLength(e.plan.producer, e.k) == e.plan.mode.n)
  }

  lemma {:induction false} PlainStreamLength(p: Producer, mode: Mode, k: nat)
    requires !mode.InChunks?
    ensures |StreamText(p, mode, k)| == StreamLength(p, k)
  {
    if k > 0 {
      PlainStreamLength(p, mode, k - 1);
    }
  }

  /** Truthful framing: the body of a response whose head declares Content-Length n never exceeds n, and
      is exactly n bytes once whole, for memory, file and sized-stream bodies alike. */
  lemma DeclaredLengthIsSent(res: Response, req: Request, e: Exchange)
    requires e.plan == PlanFor(res, req) && Consistent(e) && req.verb != "HEAD"
    requires FramingFor(res, req.IsHttp10()).ByLength?
    ensures |BodyText(e)| <= FramingFor(res, req.IsHttp10()).n
    ensures Whole(e) ==> |BodyText(e)| == FramingFor(res, req.IsHttp10()).n
  {
    match e.plan {
      case Memory(_) =>
      case FromFile(f) =>
      case FromStream(p, mode) => PlainStreamLength(p, mode, e.k);
    }
  }

  function Pieces(p: Producer, k: nat): seq<string> {
    if k == 0 then [] else Pieces(p, k - 1) + [PieceOf(p(k - 1))]
  }

  lemma {:induction false} ChunkedStreamText(p: Producer, k: nat)
    ensures StreamText(p, InChunks, k) == PiecesText(Pieces(p, k))
  {
    hide ChunkText, PieceOf;
    if k > 0 {
      ChunkedStreamText(p, k - 1);
      assert Pieces(p, k)[..k - 1] == Pieces(p, k - 1) by { PiecesCount(p, k - 1); }
      PiecesCount(p, k);
    }
  }

  lemma {:induction false} PiecesCount(p: Producer, k: nat)
    ensures |Pieces(p, k)| == k
    ensures forall i :: 0 <= i < k && p(i).Piece? ==> Pieces(p, k)[i] == p(i).piece
  {
    if k > 0 {
      PiecesCount(p, k - 1);
    }
  }

  /** A finished chunked body is read back by the parser as the producer's data and last trailers. */
  lemma ChunkedBodyReadsBack(lim: Limits, m: Machine, e: Exchange, rest: string)
    requires e.plan.FromStream? && e.plan.mode.InChunks? && e.over && Consistent(e)
    requires m.state.ChunkSize? && m.remaining == 0 && m.req.trailers == []
    requires |m.req.body| + |Concat(Pieces(e.plan.producer, e.k))| <= lim.maxBodyBytes
    requires lim.maxChunkLine > 0 && SizesFit(lim, Pieces(e.plan.producer, e.k))
    requires CleanTrailers(e.plan.producer(e.k - 1).trailers)
    requires m.headerBytes + |FieldText(e.plan.producer(e.k - 1).trailers)| + 2 <= lim.maxHeaderBytes
    requires m.headerCount + |e.plan.producer(e.k - 1).trailers| <= lim.maxHeaderCount
    ensures var f := Feed(lim, m, BodyText(e) + rest);
            && f.m.state.Done? && f.used == |BodyText(e)|
            && f.m.req.body == m.req.body + Concat(Pieces(e.plan.producer, e.k))
            && f.m.req.trailers == e.plan.producer(e.k - 1).trailers
  {
    hide Feed, CleanTrailers, SizesFit, Concat, LastChunkText, PiecesText;
    var p := e.plan.producer;
    ChunkedStreamText(p, e.k);
    ChunkedRoundTrip(lim, m, Pieces(p, e.k), p(e.k - 1).trailers, rest);
  }

  // ---------- what a response promises ----------

  /** After `k` answers and no fewer the producer has given its last: the declared bytes are all there, or, with
      none declared, nothing more was to come. */
  ghost predicate LastAnswer(p: Producer, declared: Option<nat>, k: nat) {
    && k > 0 && p(k - 1).Piece? && (forall i :: 0 <= i < k - 1 ==> p(i).Piece? && p(i).more)
    && match declared
       case None => !p(k - 1).more
       case Some(n) => |Concat(Pieces(p, k - 1))| < n && |Concat(Pieces(p, k))| == n
  }

  lemma {:induction false} PiecesLength(p: Producer, k: nat)
    ensures |Concat(Pieces(p, k))| == StreamLength(p, k)
  {
    hide PieceOf;
    if k > 0 {
      PiecesLength(p, k - 1);
      PiecesCount(p, k - 1);
      assert Pieces(p, k)[..k - 1] == Pieces(p, k - 1);
    }
  }

  lemma {:induction false} StreamLengthGrows(p: Producer, j: nat, k: nat)
    requires j <= k
    ensures StreamLength(p, j) <= StreamLength(p, k)
    decreases k
  {
    hide PieceOf;
    if j < k {
      StreamLengthGrows(p, j, k - 1);
    }
  }

  lemma LastAnswerOnce(p: Producer, declared: Option<nat>, j: nat, k: nat)
    requires LastAnswer(p, declared, j) && LastAnswer(p, declared, k)
    ensures j == k
  {
    hide Pieces, Concat, StreamLength;
    var a, b := Min(j, k), if j < k then k else j;
    if a < b {
      PiecesLength(p, a);
      PiecesLength(p, b - 1);
      StreamLengthGrows(p, a, b - 1);
    }
  }

  /** How many answers a producer has to give. */
  ghost function AnswersDue(p: Producer, declared: Option<nat>): nat {
    if exists k :: LastAnswer(p, declared, k) then
      var k: nat :| LastAnswer(p, declared, k);
      k
    else 0
  }

  /** The data that the client of this request is to get: none for HEAD and for statuses without a body, or else the
      range of the file, all pieces of the producer, or the text. */
  ghost function DataFor(res: Response, req: Request): string {
    if req.verb == "HEAD" || IsBodiless(res.status) then ""
    else if res.file.Some? then
      var f := res.file.value;
      if f.offset + f.length <= |f.content| then f.content[f.offset..f.offset + f.length] else ""
    else if res.producer.Some? then
      if res.streamLength == Some(0) then ""
      else Concat(Pieces(res.producer.value, AnswersDue(res.producer.value, res.streamLength)))
    else res.body
  }

  /** The trailers it is to get: those of the last answer, if the stream goes in chunks. */
  ghost function TrailersFor(res: Response, req: Request): Fields {
    if req.verb == "HEAD" || IsBodiless(res.status) || !IsEndless(res) || req.IsHttp10() then []
    else
      var p := res.producer.value;
      var k := AnswersDue(p, None);
      if k > 0 && p(k - 1).Piece? then p(k - 1).trailers else []
  }

  /** The data a body carries, whatever its coding. */
  function DataSent(e: Exchange): string {
    match e.plan
    case Memory(bytes) => bytes
    case FromFile(f) => FileText(f, e.k)
    case FromStream(p, _) => Concat(Pieces(p, e.k))
  }

  function TrailersSent(e: Exchange): Fields {
    if e.plan.FromStream? && e.plan.mode.InChunks? && e.k > 0 then TrailersOf(e.plan.producer(e.k - 1)) else []
  }

  lemma EndedIsLast(p: Producer, mode: Mode, k: nat)
    requires StreamEnded(p, mode, k) && (mode.Sized? ==> StreamLength(p, k) == mode.n)
    ensures var declared := if mode.Sized? then Some(mode.n) else None;
            LastAnswer(p, declared, k) && AnswersDue(p, declared) == k
  {
    hide Pieces, Concat, StreamLength;
    var declared := if mode.Sized? then Some(mode.n) else None;
    PiecesLength(p, k - 1);
    PiecesLength(p, k);
    assert LastAnswer(p, declared, k);
    LastAnswerOnce(p, declared, k, AnswersDue(p, declared));
  }

  /** A whole exchange carries what the response promises for that request, no more and no less. */
  lemma WholeCarries(res: Response, req: Request, e: Exchange)
    requires e.plan == PlanFor(res, req) && Consistent(e) && Whole(e)
    ensures DataSent(e) == DataFor(res, req) && TrailersSent(e) == TrailersFor(res, req)
  {
    hide Pieces, Concat, StreamLength, StreamEnded, AnswersDue;
    FramingMeaning(res, req.IsHttp10());
    if e.plan.FromStream? {
      EndedIsLast(e.plan.producer, e.plan.mode, e.k);
    }
  }

  // ---------- the log of a connection ----------

  function ErrorResponse(m: Machine): Response {
    var status := StatusFor(m.error);
    Response(status, [Field("Content-Type", "text/plain; charset=utf-8")],
             ReasonPhrase(status) + ": " + m.detail + "\n", None, None, None)
  }

  function ErrorOptions(w: World, j: nat): HeadOptions { HeadOptions(false, false, w.date(j)) }

  /** Exchange `j` answers this request, as its handler decided. */
  ghost predicate Answers(w: World, j: nat, req: Request, e: Exchange) {
    var res := w.handler(j, req);
    && e.head == HeadText(res, OptionsFor(w, j, req))
    && e.plan == PlanFor(res, req)
    && (e.interim ==> req.expectContinue)
  }

  /** Response `j` lets the connection go on exactly when the request asked for that, the server is not draining, and
      the client can tell where the body ends. */
  lemma GoesOnMeaning(w: World, j: nat, req: Request)
    ensures var res := w.handler(j, req);
            GoesOn(w, j, req) <==>
              && req.KeepAlive() && !w.draining(j)
              && !(req.IsHttp10() && IsEndless(res) && !IsBodiless(res.status))
  {
    hide FramingFor;
    FramingMeaning(w.handler(j, req), req.IsHttp10());
  }

  ghost predicate AnswersError(w: World, j: nat, m: Machine, e: Exchange) {
    e.head == HeadText(ErrorResponse(m), ErrorOptions(w, j)) && e.plan == Memory(ErrorResponse(m).body)
  }

  /** The connection goes on after response `j`. */
  ghost predicate GoesOn(w: World, j: nat, req: Request) {
    StaysOpen(w.handler(j, req), OptionsFor(w, j, req))
  }

  function ErrorCount(m: Machine): nat { if m.state.Error? then 1 else 0 }

  /** The exchanges are the answers to the requests, in order, and to the parse error if there was one. */
  ghost predicate InOrder(w: World, requests: seq<Request>, m: Machine, log: seq<Exchange>) {
    && |log| == |requests| + ErrorCount(m)
    && (forall j {:trigger Answers(w, j, requests[j], log[j])} :: 0 <= j < |requests| ==>
          Answers(w, j, requests[j], log[j]))
    && (forall j {:trigger AnswersError(w, j, m, log[j])} :: |requests| <= j < |log| ==>
          AnswersError(w, j, m, log[j]))
  }

  /** Only the last exchange may be unfinished, come up short, or answer a request that closes. */
  ghost predicate OnlyLastOpen(w: World, requests: seq<Request>, log: seq<Exchange>) {
    && (forall j {:trigger Consistent(log[j])} :: 0 <= j < |log| ==> Consistent(log[j]))
    && (forall j {:trigger Whole(log[j])} :: 0 <= j < |log| - 1 ==> Whole(log[j]))
    && (forall j {:trigger GoesOn(w, j, requests[j])} :: 0 <= j < |requests| && j < |log| - 1 ==>
          GoesOn(w, j, requests[j]))
  }

  /** Nothing may follow this exchange: its head announced the close, or its body came up short. */
  ghost predicate ClosesAfter(w: World, j: nat, req: Request, e: Exchange) {
    !GoesOn(w, j, req) || (e.over && !Whole(e))
  }

  /** The reasons to close, and there are no others: the input could not be parsed, or the last exchange is
      one that nothing may follow. */
  ghost predicate MustClose(w: World, requests: seq<Request>, m: Machine, log: seq<Exchange>) {
    || m.state.Error?
    || (0 < |log| <= |requests| && ClosesAfter(w, |log| - 1, requests[|log| - 1], log[|log| - 1]))
  }

  /** Before an error, the log does not depend on where the parser is. */
  lemma LogIgnoresParser(w: World, requests: seq<Request>, m: Machine, m': Machine, log: seq<Exchange>)
    requires InOrder(w, requests, m, log) && !m.state.Error? && !m'.state.Error?
    ensures InOrder(w, requests, m', log)
    ensures MustClose(w, requests, m', log) == MustClose(w, requests, m, log)
  {
    hide Answers, AnswersError, ClosesAfter;
  }

  /** A response just begun: nothing of a file or a stream has been sent yet. */
  function Begun(interim: bool, head: string, plan: Plan): Exchange {
    Exchange(interim, head, plan, 0, plan.Memory?)
  }

  lemma BegunConsistent(res: Response, req: Request, interim: bool, head: string)
    ensures var e := Begun(interim, head, PlanFor(res, req));
            && Consistent(e) && (e.over ==> Whole(e))
            && ExchangeText(e) == InterimText(interim) + head + (if e.plan.Memory? then e.plan.bytes else "")
  {
    hide FramingFor;
    var e := Begun(interim, head, PlanFor(res, req));
    if e.plan.FromStream? {
      assert StreamLength(e.plan.producer, 0) == 0;
      assert StreamText(e.plan.producer, e.plan.mode, 0) == "";
    }
  }

  lemma LogAppendAnswer(w: World, requests: seq<Request>, log: seq<Exchange>, req: Request, e: Exchange)
    requires InOrder(w, requests, START, log) && OnlyLastOpen(w, requests, log)
    requires !MustClose(w, requests, START, log) && (log != [] ==> log[|log| - 1].over)
    requires Answers(w, |requests|, req, e) && Consistent(e) && (e.over ==> Whole(e))
    ensures InOrder(w, requests + [req], START, log + [e])
    ensures OnlyLastOpen(w, requests + [req], log + [e])
    ensures MustClose(w, requests + [req], START, log + [e]) <==> !GoesOn(w, |requests|, req)
  {
    hide Answers, AnswersError, GoesOn, Consistent, Whole;
    var rs, l := requests + [req], log + [e];
    forall j | 0 <= j < |rs|
      ensures Answers(w, j, rs[j], l[j])
    {
      assert j < |requests| ==> Answers(w, j, requests[j], log[j]);
    }
    forall j | 0 <= j < |l|
      ensures Consistent(l[j]) && (j < |l| - 1 ==> Whole(l[j]))
    {
      assert j < |log| ==> Consistent(log[j]) && Whole(log[j]);
    }
    forall j | 0 <= j < |rs| && j < |l| - 1
      ensures GoesOn(w, j, rs[j])
    {
      assert GoesOn(w, j, requests[j]);
    }
  }

  lemma LogAppendError(w: World, requests: seq<Request>, m: Machine, log: seq<Exchange>, e: Exchange)
    requires InOrder(w, requests, START, log) && OnlyLastOpen(w, requests, log)
    requires !MustClose(w, requests, START, log) && (log != [] ==> log[|log| - 1].over)
    requires m.state.Error? && AnswersError(w, |requests|, m, e) && Consistent(e)
    ensures InOrder(w, requests, m, log + [e]) && OnlyLastOpen(w, requests, log + [e])
  {
    hide Answers, AnswersError, GoesOn, Consistent, Whole;
    var l := log + [e];
    forall j | 0 <= j < |requests|
      ensures Answers(w, j, requests[j], l[j])
    {
      assert Answers(w, j, requests[j], log[j]);
    }
    forall j | 0 <= j < |l|
      ensures Consistent(l[j]) && (j < |l| - 1 ==> Whole(l[j]))
    {
      assert j < |log| ==> Consistent(log[j]) && Whole(log[j]);
    }
    forall j | 0 <= j < |requests|
      ensures GoesOn(w, j, requests[j])
    {
    }
  }

  /** The last exchange moving on leaves the rest of the log as it was. */
  lemma LogAdvance(w: World, requests: seq<Request>, m: Machine, log: seq<Exchange>, e: Exchange)
    requires InOrder(w, requests, m, log) && OnlyLastOpen(w, requests, log)
    requires log != [] && !log[|log| - 1].over && !m.state.Error?
    requires e == log[|log| - 1].(k := e.k, over := e.over) && Consistent(e)
    ensures InOrder(w, requests, m, log[|log| - 1 := e])
    ensures OnlyLastOpen(w, requests, log[|log| - 1 := e])
    ensures MustClose(w, requests, m, log[|log| - 1 := e]) <==>
              MustClose(w, requests, m, log) || (e.over && !Whole(e))
  {
    hide Consistent, Whole, GoesOn, HeadText, PlanFor, AnswersError;
    var k := |log| - 1;
    var l := log[k := e];
    forall j | 0 <= j < |requests|
      ensures Answers(w, j, requests[j], l[j])
    {
      assert Answers(w, j, requests[j], log[j]);
    }
    forall j | 0 <= j < |l|
      ensures Consistent(l[j]) && (j < k ==> Whole(l[j]))
    {
      assert j < k ==> Consistent(log[j]) && Whole(log[j]);
    }
  }

  // ---------- the parser's side ----------

  /** `requests` is what has been taken from the bytes received, and `m` with `input` is what is left:
      whatever arrives next, together they mean what the whole stream means. */
  ghost predicate Tracks(lim: Limits, received: string, requests: seq<Request>, m: Machine, input: string) {
    |input| <= |received| && forall x :: TracksWith(lim, received, requests, m, input, x)
  }

  ghost predicate TracksWith(
    lim: Limits, received: string, requests: seq<Request>, m: Machine, input: string, x: string)
    requires |input| <= |received|
  {
    var d := Drain(lim, m, input + x);
    Drain(lim, START, received + x) == Drained(requests + d.requests, d.m, |received| - |input| + d.used)
  }

  lemma TracksStart(lim: Limits)
    ensures Tracks(lim, "", [], START, "")
  {
    hide Drain;
    forall x
      ensures TracksWith(lim, "", [], START, "", x)
    {
      assert [] + Drain(lim, START, "" + x).requests == Drain(lim, START, "" + x).requests;
    }
  }

  lemma TracksArrive(lim: Limits, received: string, requests: seq<Request>, m: Machine, input: string, data: string)
    requires Tracks(lim, received, requests, m, input)
    ensures Tracks(lim, received + data, requests, m, input + data)
  {
    hide Drain;
    forall x
      ensures TracksWith(lim, received + data, requests, m, input + data, x)
    {
      assert TracksWith(lim, received, requests, m, input, data + x);
      Assoc(received, data, x);
      Assoc(input, data, x);
    }
  }

  /** Feeding the input, and taking the request if one is finished, keeps the relation. */
  lemma TracksFeed(lim: Limits, received: string, requests: seq<Request>, m: Machine, input: string)
    requires Tracks(lim, received, requests, m, input)
    ensures var f := Feed(lim, m, input);
            if f.m.state.Done? then Tracks(lim, received, requests + [f.m.req], START, input[f.used..])
            else Tracks(lim, received, requests, f.m, input[f.used..])
  {
    hide Feed, Drain, TracksWith;
    var f := Feed(lim, m, input);
    var rest := input[f.used..];
    forall x
      ensures if f.m.state.Done? then TracksWith(lim, received, requests + [f.m.req], START, rest, x)
              else TracksWith(lim, received, requests, f.m, rest, x)
    {
      TracksFeedWith(lim, received, requests, m, input, x);
    }
  }

  lemma TracksFeedWith(lim: Limits, received: string, requests: seq<Request>, m: Machine, input: string, x: string)
    requires Tracks(lim, received, requests, m, input)
    ensures var f := Feed(lim, m, input);
            if f.m.state.Done? then TracksWith(lim, received, requests + [f.m.req], START, input[f.used..], x)
            else TracksWith(lim, received, requests, f.m, input[f.used..], x)
  {
    hide Feed;
    var f := Feed(lim, m, input);
    var rest := input[f.used..];
    assert TracksWith(lim, received, requests, m, input, x);
    if f.m.state.Done? {
      VerdictIsFinal(lim, m, input, x);
      assert (input + x)[f.used..] == rest + x;
      Assoc(requests, [f.m.req], Drain(lim, START, rest + x).requests);
    } else {
      Resume(lim, m, input, x);
      var g := Feed(lim, f.m, rest + x);
      assert (input + x)[f.used + g.used..] == (rest + x)[g.used..];
    }
  }

  lemma FeedNothing(lim: Limits, m: Machine)
    requires !m.state.Done?
    ensures Feed(lim, m, "").used == 0 && !Feed(lim, m, "").m.state.Done?
  {
    hide OnLine;
    FeedTurn(lim, m, "");
    FindCrlfEmpty();
  }

  /** A parser with nothing to do has delivered everything the received bytes mean. */
  lemma TracksAll(lim: Limits, received: string, requests: seq<Request>, m: Machine, input: string)
    requires Tracks(lim, received, requests, m, input)
    requires Waits(lim, m, input) || (input == [] && !m.state.Done?) || m.state.Error?
    ensures Drain(lim, START, received).requests == requests
  {
    hide Feed;
    assert TracksWith(lim, received, requests, m, input, "");
    assert input + "" == input && received + "" == received;
    assert requests + [] == requests;
    if m.state.Error? {
      FeedHalted(lim, m, input);
    } else if input == [] {
      FeedNothing(lim, m);
    }
  }

  // ---------- data states always have data to wait for ----------

  predicate DataDue(m: Machine) { InData(m) ==> m.remaining > 0 }

  lemma StepKeepsDue(lim: Limits, m: Machine, rest: string)
    requires DataDue(m)
    ensures DataDue(Step(lim, m, rest).m)
  {
    hide AddLine, ReadChunkSize, DecideFraming, ReadRequestLine;
  }

  /** A request is only ever finished by using up input. */
  lemma {:induction false} FeedKeepsDue(lim: Limits, m: Machine, data: string)
    requires DataDue(m)
    ensures DataDue(Feed(lim, m, data).m)
    ensures Feed(lim, m, data).m.state.Done? && !m.state.Done? ==> Feed(lim, m, data).used > 0
    decreases |data|, if InData(m) then 1 else 0
  {
    hide Step;
    FeedTurn(lim, m, data);
    StepUses(lim, m, data);
    StepKeepsDue(lim, m, data);
    StepReturns(lim, m, data);
    var t := Step(lim, m, data);
    if t.Continue? {
      FeedKeepsDue(lim, t.m, data[t.used..]);
    }
  }

  lemma StepReturns(lim: Limits, m: Machine, rest: string)
    requires DataDue(m)
    ensures Step(lim, m, rest).Return? ==> !Step(lim, m, rest).m.state.Done? || m.state.Done?
    ensures Step(lim, m, rest).Continue? ==> Step(lim, m, rest).used > 0
  {
    hide AddLine, ReadChunkSize, DecideFraming, ReadRequestLine;
  }
}
