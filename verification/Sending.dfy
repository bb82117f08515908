/** The values a connection works with, and what each of its steps does to them: the body source in flight,
    pulling from a producer, and the order of bytes from the log to the wire. */
module Sending {
  import opened Text
  import opened Numbers
  import opened RequestParser
  import opened Reachable
  import opened Response
  import opened ChunkedCoding
  import opened Exchanges
  import opened Kernel

  const OUT_HIGH_WATER: nat := 256 * 1024
  const PRODUCER_LOW_WATER: nat := 64 * 1024
  const SENDFILE_MAX: nat := 1024 * 1024

  /** How one write call left things: go on, wait for EPOLLOUT, or give up. */
  datatype Io = Going | Blocked | Broken

  /** Why `drive` returned: it keeps the connection, or it must be closed for one of three reasons. */
  datatype Verdict = Keep | Abort | Finished | PeerGone

  /** What the rest of the current response's body comes from: a file with the bytes still owed, or a producer
      with the number of answers used and, if it is sized, the bytes still owed. */
  datatype Source =
    | NoSource
    | FileSource(file: FileBody, off: nat, left: nat)
    | StreamSource(producer: Producer, asked: nat, chunked: bool, sized: bool, left: nat)
  {
    /** The file has no bytes left although the response promised more. */
    predicate RanDry() { FileSource? && off >= |file.content| }
  }

  /** What has happened on the connection so far: requests taken, exchanges begun, whether a 100 Continue has not
      yet been followed by its response, and how far into a block its file stood when writing was last allowed. */
  datatype History = History(requests: seq<Request>, log: seq<Exchange>, owed: bool, base: nat)

  /** The same exchange, as far along or further. */
  ghost predicate Grown(e: Exchange, e': Exchange) { e' == e.(k := e'.k, over := e'.over) && e.k <= e'.k }

  /** Nothing but the last exchange changes, and that one only goes on; new ones follow it. */
  ghost predicate LogGrown(a: seq<Exchange>, b: seq<Exchange>) {
    a == [] ||
    (var k := |a| - 1; k < |b| && b[..k] == a[..k] && Grown(a[k], b[k]))
  }

  /** Nothing taken or begun is forgotten, and the place in the block is only reset by a new response. */
  ghost predicate Extends(a: History, b: History) {
    && a.requests <= b.requests && LogGrown(a.log, b.log)
    && (b.base == a.base || (b.base == 0 && |a.log| < |b.log|))
  }

  lemma ExtendsTwice(a: History, b: History, c: History)
    requires Extends(a, b) && Extends(b, c)
    ensures Extends(a, c)
  {
    if a.log != [] {
      var k, n := |a.log| - 1, |b.log| - 1;
      assert c.log[..k] == c.log[..n][..k] && b.log[..k] == b.log[..n][..k];
      assert k < n ==> c.log[k] == c.log[..n][k] && b.log[k] == b.log[..n][k];
    }
  }

  lemma ExtendsBegun(a: History, b: History)
    requires a.requests <= b.requests && a.log <= b.log
    requires b.base == a.base || (b.base == 0 && |a.log| < |b.log|)
    ensures Extends(a, b)
  {
  }

  lemma ExtendsLast(a: History, e: Exchange)
    requires a.log != [] && Grown(a.log[|a.log| - 1], e)
    ensures Extends(a, a.(log := a.log[|a.log| - 1 := e]))
  {
    var k := |a.log| - 1;
    assert a.log[k := e][..k] == a.log[..k];
  }

  // ---------- sendfile ----------

  function Available(s: Source): nat {
    if s.FileSource? && s.off < |s.file.content| then |s.file.content| - s.off else 0
  }

  /** What one `sendfile` is asked for. */
  function FileWant(s: Source): nat { if s.FileSource? then Min(s.left, SENDFILE_MAX) else 0 }

  function FileCall(s: Source): Call
    requires s.FileSource?
  {
    TransmitFile(s.file.content, s.off, FileWant(s))
  }

  /** How many bytes it moves: it stops at the end of the file as well. */
  function FileCount(s: Source, k: Socket): nat { Taken(FileAnswer(k), Min(FileWant(s), Available(s))) }

  lemma FileReach(s: Source)
    requires s.FileSource?
    ensures |Reach(s.file.content, s.off, FileWant(s))| == Min(FileWant(s), Available(s))
    ensures forall n :: 0 < n <= Min(FileWant(s), Available(s)) ==>
              Reach(s.file.content, s.off, FileWant(s))[..n] == s.file.content[s.off..s.off + n]
  {
  }

  /** How the program reads the answer to a write: a short count is taken to mean that the socket is full, and
      a count of zero from `sendfile` that the file has ended. */
  function SendResult(o: Send, want: nat): Io {
    match o
    case SendInterrupted => Going
    case SendFails => Broken
    case SendBlocks => Blocked
    case Room(n) => if n < want then Blocked else Going
  }

  function FileResult(s: Source, o: Send): Io
    requires s.FileSource?
  {
    match o
    case SendInterrupted => Going
    case SendFails => Broken
    case SendBlocks => Blocked
    case Room(_) =>
      var sent := Taken(o, Min(FileWant(s), Available(s)));
      if sent == 0 then Broken
      else if sent == s.left then Going
      else if sent < FileWant(s) then Blocked
      else Going
  }

  /** How far into a block of `sendfile` the file in flight has been sent. */
  function Residue(s: Source): nat {
    if s.FileSource? && s.off >= s.file.offset then (s.off - s.file.offset) % SENDFILE_MAX else 0
  }

  /** Some of the file in flight has been sent. */
  predicate Moved(s: Source) { s.FileSource? && s.off > s.file.offset }

  /** What a `send` did to the socket, as the program sees it. */
  lemma QueueDone(k: Socket, data: string)
    requires Alive(k) && !k.short && data != []
    ensures Permitted(k, Transmit(data))
    ensures var k', n, io := Do(k, Transmit(data)), Taken(NextSend(k), |data|), SendResult(NextSend(k), |data|);
            && k' == k.(sends := k'.sends, wire := k'.wire, short := k'.short, full := k'.full, failed := k'.failed)
            && k'.sends == Rest(k.sends)
            && n <= |data| && k'.wire == k.wire + data[..n]
            && (io.Blocked? <==> k'.short) && (io.Broken? <==> !Alive(k'))
            && (k'.short ==> k'.full && n < |data|)
            && (io.Going? ==> NextSend(k).SendInterrupted? || n == |data|)
  {
  }

  /** What a `sendfile` did to the socket, as the program sees it. */
  lemma FileDone(k: Socket, s: Source)
    requires s.FileSource? && s.left > 0 && Alive(k) && !k.short
    ensures Permitted(k, FileCall(s))
    ensures var k', n, io := Do(k, FileCall(s)), FileCount(s, k), FileResult(s, FileAnswer(k));
            && k' == k.(sends := k'.sends, wire := k'.wire, short := k'.short, full := k'.full,
                        failed := k'.failed, eof := k'.eof)
            && k'.sends == Rest(k.sends)
            && n <= s.left && (n > 0 ==> s.off + n <= |s.file.content|)
            && k'.wire == k.wire + (if n > 0 then s.file.content[s.off..s.off + n] else "")
            && (io.Blocked? <==> k'.short) && (io.Broken? <==> !Alive(k'))
            && (k'.short && !k'.full ==> n > 0 && s.off + n >= |s.file.content|)
            && (k'.eof ==> n == 0 && s.RanDry())
            && (io.Going? && 0 < n < s.left ==> n == SENDFILE_MAX)
            && (n == s.left ==> io.Going?) && (io.Broken? ==> n == 0)
  {
    FileReach(s);
    assert k.wire + "" == k.wire;
  }

  /** A `sendfile` that the program goes on after has moved nothing, a whole block or the rest of the file; one
      that came up short with room to spare has left the file elsewhere in its block. */
  lemma BlocksStep(k: Socket, s: Source)
    requires s.FileSource? && s.left > 0 && s.off >= s.file.offset && Alive(k) && !k.short
    ensures var k', n := Do(k, FileCall(s)), FileCount(s, k);
            && n <= s.left
            && (n < s.left ==>
                  var s' := s.(off := s.off + n, left := s.left - n);
                  && (!k'.short ==> Residue(s') == Residue(s))
                  && (k'.short && !k'.full ==> Residue(s') != Residue(s) && Moved(s')))
  {
    hide Do, FileResult, FileCall, FileCount, Residue;
    FileDone(k, s);
    FileShort(k, s);
    ResidueAdd(s, FileCount(s, k));
  }

  lemma ResidueAdd(s: Source, n: nat)
    requires s.FileSource? && n <= s.left && s.off >= s.file.offset
    ensures var s' := s.(off := s.off + n, left := s.left - n);
            && (n == 0 || n == SENDFILE_MAX ==> Residue(s') == Residue(s))
            && (0 < n < SENDFILE_MAX ==> Residue(s') != Residue(s))
  {
    var d, b := s.off - s.file.offset, SENDFILE_MAX;
    assert d == b * (d / b) + d % b && d + n == b * ((d + n) / b) + (d + n) % b;
    if n == b {
      assert (d + b) / b == d / b + 1;
    }
  }

  lemma FileShort(k: Socket, s: Source)
    requires s.FileSource? && s.left > 0 && Alive(k) && !k.short
    ensures Do(k, FileCall(s)).short && !Do(k, FileCall(s)).full ==> 0 < FileCount(s, k) < FileWant(s)
  {
    FileReach(s);
  }

  /** A short count is taken to mean that the socket is full. That is wrong exactly when the file, not the
      socket, ended it: then the connection waits for room that is already there, and no edge announces it. */
  lemma StallsExactly(k: Socket, s: Source)
    requires s.FileSource? && s.left > 0 && Alive(k) && !k.short
    ensures var k' := Do(k, FileCall(s));
            k'.short && !k'.full <==>
              NextSend(k).Room? && 0 < Available(s) < Min(NextSend(k).n, FileWant(s))
    ensures var k' := Do(k, FileCall(s));
            s.off + s.left <= |s.file.content| ==> (k'.short ==> k'.full)
  {
    FileReach(s);
  }

  function StreamMode(s: Source): Mode
    requires s.StreamSource?
  {
    if s.sized then Sized(StreamLength(s.producer, s.asked) + s.left) else if s.chunked then InChunks else Raw
  }

  /** The body source in flight is the one of the last exchange, and as far along. */
  ghost predicate SourceMatches(s: Source, log: seq<Exchange>, interimOwed: bool) {
    if s.NoSource? then log != [] ==> log[|log| - 1].over
    else
      && log != [] && !interimOwed
      && var e := log[|log| - 1];
      && !e.over
      && (s.FileSource? ==>
            && e.plan == FromFile(s.file)
            && s.off == s.file.offset + e.k && e.k < s.file.length && s.left == s.file.length - e.k)
      && (s.StreamSource? ==>
            s.asked == e.k && e.plan == FromStream(s.producer, StreamMode(s)) && !(s.chunked && s.sized))
  }

  /** The parser is past the header section of a request that waits to be told to go on. */
  predicate Expecting(m: Machine) { PastHeaders(m) && !Halted(m) && m.req.expectContinue }

  /** Exactly the requests that wait for a 100 Continue have been sent one, and are owed their response. */
  ghost predicate InterimMatches(owed: bool, continueSent: bool, m: Machine, closing: bool) {
    && owed == Expecting(m)
    && (!m.state.Error? ==> continueSent == owed)
    && (owed ==> !closing)
  }

  /** Wire order: what the kernel took and what is still queued are, together, exactly the exchanges in
      order, with at most one 100 Continue ahead of the next. */
  ghost predicate Flows(wire: string, pending: string, log: seq<Exchange>, interimOwed: bool) {
    wire + pending == LogText(log) + InterimText(interimOwed)
  }

  lemma FlowsAppend(wire: string, pending: string, log: seq<Exchange>, owed: bool, e: Exchange, more: string)
    requires Flows(wire, pending, log, owed) && ExchangeText(e) == InterimText(owed) + more
    ensures Flows(wire, pending + more, log + [e], false)
  {
    hide ExchangeText, LogText;
    LogTextAppend(log, e);
    Assoc(wire, pending, more);
    Assoc(LogText(log), InterimText(owed), more);
    assert LogText(log + [e]) + "" == LogText(log + [e]);
  }

  lemma NoSourceOwed(log: seq<Exchange>, a: bool, b: bool)
    requires SourceMatches(NoSource, log, a)
    ensures SourceMatches(NoSource, log, b)
  {
  }

  lemma FlowsInterim(wire: string, pending: string, log: seq<Exchange>)
    requires Flows(wire, pending, log, false)
    ensures Flows(wire, pending + CONTINUE_TEXT, log, true)
  {
    hide LogText;
    assert LogText(log) + "" == LogText(log);
    Assoc(wire, pending, CONTINUE_TEXT);
  }

  /** Bytes moving from the queue to the kernel keep the order. */
  lemma FlowsSend(wire: string, pending: string, log: seq<Exchange>, owed: bool, n: nat)
    requires Flows(wire, pending, log, owed) && n <= |pending|
    ensures Flows(wire + pending[..n], pending[n..], log, owed)
  {
    hide LogText;
    Assoc(wire, pending[..n], pending[n..]);
    assert pending[..n] + pending[n..] == pending;
  }

  /** The body source in flight right after a response with this plan was begun. */
  function SourceFor(plan: Plan): Source {
    match plan
    case Memory(_) => NoSource
    case FromFile(f) => FileSource(f, f.offset, f.length)
    case FromStream(p, mode) =>
      StreamSource(p, 0, mode.InChunks?, mode.Sized?, if mode.Sized? then mode.n else 0)
  }

  lemma SourceBegun(res: Response, req: Request, log: seq<Exchange>, interim: bool, head: string)
    ensures var plan := PlanFor(res, req);
            SourceMatches(SourceFor(plan), log + [Begun(interim, head, plan)], false)
  {
    hide FramingFor;
    var plan := PlanFor(res, req);
    var e := Begun(interim, head, plan);
    assert (log + [e])[|log + [e]| - 1] == e;
    if plan.FromStream? {
      assert StreamLength(plan.producer, 0) == 0;
    }
  }

  /** What dispatching appends to `out`: the head, and the body if it is in memory. */
  function QueuedText(res: Response, opts: HeadOptions, plan: Plan): string {
    HeadText(res, opts) + if plan.Memory? then plan.bytes else ""
  }

  /** Beginning the answer to the next request keeps the log in order and the bytes in order, and closes
      exactly when the response says so. */
  lemma AnswerBegun(w: World, requests: seq<Request>, log: seq<Exchange>, owed: bool, wire: string,
                    pending: string, req: Request)
    requires InOrder(w, requests, START, log) && OnlyLastOpen(w, requests, log)
    requires !MustClose(w, requests, START, log)
    requires SourceMatches(NoSource, log, owed) && Flows(wire, pending, log, owed)
    requires owed ==> req.expectContinue
    ensures var res := w.handler(|log|, req);
            var opts := OptionsFor(w, |log|, req);
            var e := Begun(owed, HeadText(res, opts), PlanFor(res, req));
            && |log| == |requests|
            && InOrder(w, requests + [req], START, log + [e]) && OnlyLastOpen(w, requests + [req], log + [e])
            && (MustClose(w, requests + [req], START, log + [e]) <==> !StaysOpen(res, opts))
            && Flows(wire, pending + QueuedText(res, opts, e.plan), log + [e], false)
            && SourceMatches(SourceFor(e.plan), log + [e], false)
            && HeadText(res, opts) != []
  {
    hide HeadText, PlanFor, Consistent, Whole, Flows, ExchangeText, StaysOpen, MustClose;
    var res := w.handler(|log|, req);
    var opts := OptionsFor(w, |log|, req);
    var e := Begun(owed, HeadText(res, opts), PlanFor(res, req));
    BegunConsistent(res, req, owed, e.head);
    LogAppendAnswer(w, requests, log, req, e);
    SourceBegun(res, req, log, owed, e.head);
    HeadNotEmpty(res, opts);
    Assoc(InterimText(owed), e.head, if e.plan.Memory? then e.plan.bytes else "");
    FlowsAppend(wire, pending, log, owed, e, QueuedText(res, opts, e.plan));
  }

  lemma ErrorBegun(w: World, requests: seq<Request>, m: Machine, log: seq<Exchange>, owed: bool, wire: string,
                   pending: string)
    requires InOrder(w, requests, START, log) && OnlyLastOpen(w, requests, log)
    requires !MustClose(w, requests, START, log)
    requires SourceMatches(NoSource, log, owed) && Flows(wire, pending, log, owed) && m.state.Error?
    ensures var res := ErrorResponse(m);
            var head := HeadText(res, ErrorOptions(w, |log|));
            var e := Begun(owed, head, Memory(res.body));
            && InOrder(w, requests, m, log + [e]) && OnlyLastOpen(w, requests, log + [e])
            && Flows(wire, pending + (head + res.body), log + [e], false)
            && SourceMatches(NoSource, log + [e], false)
            && head != []
  {
    hide HeadText, Flows, ErrorResponse, MustClose;
    var res := ErrorResponse(m);
    var head := HeadText(res, ErrorOptions(w, |log|));
    var e := Begun(owed, head, Memory(res.body));
    LogAppendError(w, requests, m, log, e);
    HeadNotEmpty(res, ErrorOptions(w, |log|));
    Assoc(InterimText(owed), head, res.body);
    FlowsAppend(wire, pending, log, owed, e, head + res.body);
  }

  // ---------- pulling from a producer ----------

  /** The contract violations for which a stream is aborted: an exception, an empty piece with more to
      come, or more bytes than were declared. */
  ghost predicate Violates(p: Producer, mode: Mode, i: nat) {
    && StreamOpen(p, mode, i)
    && (p(i).Throws? || (p(i).more && p(i).piece == []) ||
        (mode.Sized? && StreamLength(p, i) + |p(i).piece| > mode.n))
  }

  /** The producer in flight breaks its contract within the next refill. */
  ghost predicate ProducerBroken(s: Source) {
    s.StreamSource? && exists i :: BreaksAt(s, i)
  }

  ghost predicate BreaksAt(s: Source, i: nat)
    requires s.StreamSource?
  {
    var p, mode := s.producer, StreamMode(s);
    && i >= s.asked && Violates(p, mode, i)
    && |StreamText(p, mode, i)| < |StreamText(p, mode, s.asked)| + PRODUCER_LOW_WATER
  }

  /** The most a refill that ended with answer `k` can have queued: backpressure. */
  function RefillBound(s: Source, k: nat): nat {
    if s.StreamSource? && k > 0 then
      var p, mode := s.producer, StreamMode(s);
      PRODUCER_LOW_WATER + |PieceText(mode, PieceOf(p(k - 1)))| + |EndText(p, mode, k)|
    else 0
  }

  /** The most that one response has in the queue at a time: its head with a body from memory, or one refill
      of its stream. */
  function OneResponse(e: Exchange): nat {
    if e.plan.FromStream? && e.k > 0 then
      var p, mode := e.plan.producer, e.plan.mode;
      PRODUCER_LOW_WATER + |PieceText(mode, PieceOf(p(e.k - 1)))| + |EndText(p, mode, e.k)|
    else |e.head| + if e.plan.Memory? then |e.plan.bytes| else 0
  }

  /** Backpressure: behind the high-water mark at most one response and one 100 Continue are queued, and of a
      stream that has begun no more than one refill, spent bytes not yet dropped included. */
  ghost predicate Bounded(out: string, outOff: nat, s: Source, log: seq<Exchange>) {
    && |out| - outOff < OUT_HIGH_WATER + |CONTINUE_TEXT| + (if log == [] then 0 else OneResponse(log[|log| - 1]))
    && (s.StreamSource? && s.asked > 0 ==> |out| < RefillBound(s, s.asked))
  }

  /** `text` is exactly what the answers from `s.asked` up to `k` put on the wire, last chunk included. */
  ghost predicate Pulled(s: Source, k: nat, left: nat, over: bool, text: string)
    requires s.StreamSource?
  {
    var p, mode := s.producer, StreamMode(s);
    && k > s.asked
    && StreamText(p, mode, k) + (if over then EndText(p, mode, k) else "") == StreamText(p, mode, s.asked) + text
    && (if over then StreamEnded(p, mode, k) else StreamOpen(p, mode, k))
    && mode == StreamMode(s.(asked := k, left := left))
    && (!over ==> |text| >= PRODUCER_LOW_WATER) && |text| < RefillBound(s, k)
  }

  /** One more acceptable answer: the stream goes on, or ends with it. */
  lemma OneMore(p: Producer, mode: Mode, k: nat)
    requires StreamOpen(p, mode, k) && !Violates(p, mode, k)
    ensures p(k).Piece? && StreamLength(p, k + 1) == StreamLength(p, k) + |p(k).piece|
    ensures StreamText(p, mode, k + 1) == StreamText(p, mode, k) + PieceText(mode, p(k).piece)
    ensures if p(k).more && (mode.Sized? ==> StreamLength(p, k + 1) < mode.n) then StreamOpen(p, mode, k + 1)
            else StreamEnded(p, mode, k + 1)
  {
    hide PieceText;
  }

  /** The loop of `refill_from_producer`: asks for pieces until the low-water mark is reached or the body
      ends, for every producer, infinite ones included. */
  method PullPieces(s: Source) returns (ok: bool, text: string, k: nat, left: nat, more: bool)
    requires s.StreamSource? && StreamOpen(s.producer, StreamMode(s), s.asked)
    ensures var p, mode := s.producer, StreamMode(s);
            if ok then
              && k > s.asked && StreamText(p, mode, k) == StreamText(p, mode, s.asked) + text
              && (if more then StreamOpen(p, mode, k) else StreamEnded(p, mode, k))
              && mode == StreamMode(s.(asked := k, left := left))
              && (more ==> |text| >= PRODUCER_LOW_WATER)
              && |text| < PRODUCER_LOW_WATER + |PieceText(mode, PieceOf(p(k - 1)))|
            else ProducerBroken(s)
  {
    hide ChunkText, StreamOpen, StreamEnded, StreamText, StreamLength;
    var p := s.producer;
    ghost var mode := StreamMode(s);
    ok, text, k, left, more := true, "", s.asked, s.left, true;
    assert StreamText(p, mode, s.asked) + "" == StreamText(p, mode, s.asked);
    while more && |text| < PRODUCER_LOW_WATER
      invariant k >= s.asked && (k == s.asked ==> more && text == "")
      invariant StreamText(p, mode, k) == StreamText(p, mode, s.asked) + text
      invariant if more then StreamOpen(p, mode, k) else StreamEnded(p, mode, k)
      invariant mode == StreamMode(s.(asked := k, left := left))
      invariant k > s.asked ==> |text| < PRODUCER_LOW_WATER + |PieceText(mode, PieceOf(p(k - 1)))|
      decreases PRODUCER_LOW_WATER - |text|, more
    {
      var answer := p(k);
      if answer.Throws? || (answer.more && answer.piece == []) || (s.sized && |answer.piece| > left) {
        assert BreaksAt(s, k);
        ok := false;
        return;
      }
      OneMore(p, mode, k);
      var piece := answer.piece;
      more := answer.more;
      ghost var was := text;
      if s.sized {
        left := left - |piece|;
        text := text + piece;
        if left == 0 { more := false; }
      } else if s.chunked {
        ChunkGrows(piece);
        text := AppendChunk(text, piece);
      } else {
        text := text + piece;
      }
      Assoc(StreamText(p, mode, s.asked), was, PieceText(mode, piece));
      k := k + 1;
    }
  }

  /** Pieces, and after the last one the last chunk with the trailers if the body is chunked. */
  method Pull(s: Source) returns (ok: bool, text: string, k: nat, left: nat, more: bool)
    requires s.StreamSource? && StreamOpen(s.producer, StreamMode(s), s.asked) && !(s.chunked && s.sized)
    ensures if ok then Pulled(s, k, left, !more, text)
            else ProducerBroken(s)
  {
    hide StreamText, StreamOpen, StreamLength, LastChunkText;
    ok, text, k, left, more := PullPieces(s);
    if ok {
      ghost var p, mode := s.producer, StreamMode(s);
      assert StreamText(p, mode, k) + "" == StreamText(p, mode, k);
      ghost var was := text;
      if !more && s.chunked { text := AppendLastChunk(text, s.producer(k - 1).trailers); }
      Assoc(StreamText(p, mode, s.asked), was, if more then "" else EndText(p, mode, k));
      assert was + "" == was;
    }
  }

  lemma SourceOwes(s: Source, log: seq<Exchange>, owed: bool)
    requires SourceMatches(s, log, owed) && s.FileSource?
    ensures s.left > 0 && s.off >= s.file.offset
  {
  }

  lemma SourceLogged(s: Source, log: seq<Exchange>, owed: bool)
    requires SourceMatches(s, log, owed) && !s.NoSource?
    ensures log != [] && !owed && (s.StreamSource? ==> !(s.chunked && s.sized))
  {
  }

  lemma ChunkGrows(piece: string)
    ensures |ChunkText(piece)| >= |piece|
  {
    hide ToBase;
  }

  /** Framing adds at most twenty bytes to a piece. */
  lemma ChunkOverhead(piece: string)
    requires |piece| < TWO_64
    ensures |ChunkText(piece)| <= |piece| + 20
  {
    hide ToBase;
    WidthBounds();
    ToBaseLength(|piece|, 16, 16);
  }

  /** Backpressure in numbers: with pieces of at most `n` bytes, a refill queues less than 64 KiB, one piece
      with its framing, and the end of the body, however long the body is. */
  lemma RefillBounded(s: Source, k: nat, n: nat)
    requires s.StreamSource? && k > 0 && |PieceOf(s.producer(k - 1))| <= n < TWO_64
    ensures RefillBound(s, k) <= 64 * 1024 + n + 20 + |EndText(s.producer, StreamMode(s), k)|
  {
    hide ChunkText, EndText, StreamLength;
    ChunkOverhead(PieceOf(s.producer(k - 1)));
  }

  /** Progress of the last exchange by some bytes, when those bytes go to the queue. */
  lemma FlowsQueue(wire: string, pending: string, log: seq<Exchange>, e: Exchange, x: string)
    requires Flows(wire, pending, log, false) && log != []
    requires ExchangeText(e) == ExchangeText(log[|log| - 1]) + x
    ensures Flows(wire, pending + x, log[|log| - 1 := e], false)
  {
    hide ExchangeText, LogText;
    LogTextGrow(log, e, x);
    Assoc(wire, pending, x);
    assert LogText(log) + "" == LogText(log);
    assert LogText(log[|log| - 1 := e]) + "" == LogText(log[|log| - 1 := e]);
  }

  lemma StreamAdvances(e: Exchange, k: nat, over: bool, text: string)
    requires e.plan.FromStream? && !e.over
    requires var p, mode := e.plan.producer, e.plan.mode;
             StreamText(p, mode, k) + (if over then EndText(p, mode, k) else "") == StreamText(p, mode, e.k) + text
    ensures ExchangeText(e.(k := k, over := over)) == ExchangeText(e) + text
  {
    hide StreamText, EndText;
    var before := StreamText(e.plan.producer, e.plan.mode, e.k);
    Assoc(InterimText(e.interim) + e.head, before, text);
    assert before + "" == before;
  }

  /** The bytes not yet accepted, kept at the front once the accepted part is the larger half. */
  method Compact(out: string, off: nat) returns (r: string, rOff: nat)
    requires off <= |out|
    ensures 2 * rOff <= |r| <= |out| && (rOff == |r| ==> r == []) && r[rOff..] == out[off..]
  {
    r, rOff := out, off;
    if off == |out| {
      r, rOff := [], 0;
    } else if off > |out| / 2 {
      r, rOff := out[off..], 0;
    }
  }

  lemma FileAdvances(e: Exchange, n: nat)
    requires e.plan.FromFile? && e.plan.file.offset + e.k + n <= |e.plan.file.content|
    ensures var f := e.plan.file;
            ExchangeText(e.(k := e.k + n, over := e.k + n == f.length)) ==
            ExchangeText(e) + f.content[f.offset + e.k..f.offset + e.k + n]
  {
    hide FileText, InterimText;
    var f := e.plan.file;
    FileTextGrows(f, e.k, n);
    Assoc(InterimText(e.interim) + e.head, FileText(f, e.k), f.content[f.offset + e.k..f.offset + e.k + n]);
  }

  lemma FileTextGrows(f: FileBody, k: nat, n: nat)
    requires f.offset + k + n <= |f.content|
    ensures FileText(f, k + n) == FileText(f, k) + f.content[f.offset + k..f.offset + k + n]
  {
    Slices(f.content, f.offset, f.offset + k, f.offset + k + n);
  }

  lemma Slices(s: string, a: nat, b: nat, c: nat)
    requires a <= b <= c <= |s|
    ensures s[a..c] == s[a..b] + s[b..c]
  {
  }

  /** With a body source in flight there has been no parse error. */
  lemma SourceMeansNoError(w: World, h: History, m: Machine)
    requires InOrder(w, h.requests, m, h.log) && OnlyLastOpen(w, h.requests, h.log)
    requires h.log != [] && !h.log[|h.log| - 1].over
    ensures !m.state.Error?
  {
    hide Answers, GoesOn, Whole;
    var k := |h.log| - 1;
    assert Consistent(h.log[k]);
    assert m.state.Error? ==> AnswersError(w, k, m, h.log[k]);
  }

  /** A file body moving on by `n` bytes that went straight to the kernel. */
  lemma FileStep(w: World, h: History, m: Machine, wire: string, n: nat)
    requires InOrder(w, h.requests, m, h.log) && OnlyLastOpen(w, h.requests, h.log)
    requires Flows(wire, "", h.log, false) && h.log != [] && !h.owed
    requires var e := h.log[|h.log| - 1];
             && e.plan.FromFile? && !e.over && n > 0 && e.k + n <= e.plan.file.length
             && e.plan.file.offset + e.k + n <= |e.plan.file.content|
    ensures var e := h.log[|h.log| - 1];
            var f := e.plan.file;
            var e' := e.(k := e.k + n, over := e.k + n == f.length);
            var log := h.log[|h.log| - 1 := e'];
            && InOrder(w, h.requests, m, log) && OnlyLastOpen(w, h.requests, log)
            && MustClose(w, h.requests, m, log) == MustClose(w, h.requests, m, h.log)
            && Flows(wire + f.content[f.offset + e.k..f.offset + e.k + n], "", log, false)
  {
    hide Flows, ExchangeText, InOrder, OnlyLastOpen, MustClose;
    var e := h.log[|h.log| - 1];
    var f := e.plan.file;
    var e' := e.(k := e.k + n, over := e.k + n == f.length);
    var x := f.content[f.offset + e.k..f.offset + e.k + n];
    FileAdvances(e, n);
    SourceMeansNoError(w, h, m);
    LogAdvance(w, h.requests, m, h.log, e');
    FlowsQueue(wire, "", h.log, e', x);
    assert "" + x == x;
    FlowsSend(wire, x, h.log[|h.log| - 1 := e'], false, |x|);
    assert x[..|x|] == x && x[|x|..] == "";
  }

  lemma StreamStillOpen(w: World, h: History, s: Source)
    requires OnlyLastOpen(w, h.requests, h.log) && s.StreamSource? && SourceMatches(s, h.log, h.owed)
    ensures StreamOpen(s.producer, StreamMode(s), s.asked)
  {
    assert Consistent(h.log[|h.log| - 1]);
  }

  /** A stream moving on to answer `k`, with `text` going to the empty queue. */
  lemma StreamStep(w: World, h: History, m: Machine, wire: string, s: Source, k: nat, left: nat, over: bool,
                   text: string)
    requires InOrder(w, h.requests, m, h.log) && OnlyLastOpen(w, h.requests, h.log)
    requires Flows(wire, "", h.log, h.owed) && s.StreamSource? && SourceMatches(s, h.log, h.owed)
    requires Pulled(s, k, left, over, text)
    ensures var e := h.log[|h.log| - 1].(k := k, over := over);
            var log := h.log[|h.log| - 1 := e];
            && InOrder(w, h.requests, m, log) && OnlyLastOpen(w, h.requests, log)
            && MustClose(w, h.requests, m, log) ==
               (MustClose(w, h.requests, m, h.log) || (over && s.sized && left != 0))
            && Flows(wire, text, log, h.owed)
            && SourceMatches(if over then NoSource else s.(asked := k, left := left), log, h.owed)
            && OneResponse(e) == RefillBound(s, k)
    ensures (!over ==> text != []) && |text| < RefillBound(s, k) && h.log[|h.log| - 1].k <= k
    ensures !over ==> RefillBound(s.(asked := k, left := left), k) == RefillBound(s, k)
  {
    hide Flows, ExchangeText, InOrder, OnlyLastOpen, StreamText, EndText, PieceText, MustClose;
    var e := h.log[|h.log| - 1];
    var e' := e.(k := k, over := over);
    StreamAdvances(e, k, over, text);
    SourceMeansNoError(w, h, m);
    assert Whole(e') <==> over && !(s.sized && left != 0);
    LogAdvance(w, h.requests, m, h.log, e');
    FlowsQueue(wire, "", h.log, e', text);
    assert "" + text == text;
  }

  lemma HeadNotEmpty(res: Response, opts: HeadOptions)
    ensures HeadText(res, opts) != []
  {
    hide StatusLine, HeadFields, RenderAll;
  }

  // ---------- progress ----------

  /** What every turn that reports progress brings down: kernel answers still to come, input not yet
      parsed, and the flags and the stream that can each be given up once in between. */
  datatype Rank = Rank(recvs: nat, input: nat, open: bool, untold: bool, sends: nat, writable: bool, streaming: bool)

  predicate Below(a: Rank, b: Rank) {
    || a.recvs < b.recvs
    || (a.recvs == b.recvs &&
        (|| a.input < b.input
         || (a.input == b.input &&
             (|| (!a.open && b.open)
              || (a.open == b.open &&
                  (|| (!a.untold && b.untold)
                   || (a.untold == b.untold &&
                       (|| a.sends < b.sends
                        || (a.sends == b.sends &&
                            (|| (!a.writable && b.writable)
                             || (a.writable == b.writable && !a.streaming && b.streaming)))))))))))
  }

  /** The same for the write loop: kernel answers, the stream, an empty queue to refill, the readiness. */
  datatype WriteRank = WriteRank(sends: nat, streaming: bool, drained: bool, writable: bool)

  predicate Lowered(a: WriteRank, b: WriteRank) {
    || a.sends < b.sends
    || (a.sends == b.sends &&
        (|| (!a.streaming && b.streaming)
         || (a.streaming == b.streaming &&
             (|| (!a.drained && b.drained)
              || (a.drained == b.drained && !a.writable && b.writable)))))
  }
}
