/** One connection of the server: an object that reads, parses, dispatches and writes until nothing makes
    progress. It meets the kernel only through the calls of `Kernel`. */
module Connection {
  import opened Text
  import opened Headers
  import opened RequestParser
  import opened Driver
  import opened Reachable
  import opened Response
  import opened Exchanges
  import opened Kernel
  import opened Sending
  import opened Backlog

  class Connection {
    const world: World

    // The kernel's end: changed by its calls and by nothing else.
    var sock: Socket

    var input: string
    var parser: Machine
    var out: string
    var outOff: nat
    var source: Source

    // Whether a call in that direction may still succeed before the next event.
    var canRead: bool
    var canWrite: bool

    var peerClosed: bool
    var closeAfterWrite: bool
    var continueSent: bool
    var answered: nat  // responses begun: the position handed to the handler and the clock

    ghost var hist: History

    function Pending(): string
      reads this
      requires outOff <= |out|
    {
      out[outOff..]
    }

    predicate HasOutput()
      reads this
    {
      |out| > outOff || !source.NoSource?
    }

    ghost predicate BuffersOk()
      reads this
    {
      && |input| < MaxIn(world.lim) + READ_SIZE
      && 2 * outOff <= |out| && (outOff == |out| ==> out == [])
      && Bounded(out, outOff, source, hist.log)
      && RecvScript(sock.recvs) && answered == |hist.log|
    }

    /** The connection's flags are what the kernel last answered. It believes that it cannot read only when a
        `recv` would have blocked, and that it cannot write only when the socket took all it had room for, or
        a file ended inside a block. While it may write, its file stands where it stood in its block. */
    ghost predicate Synced()
      reads this
    {
      && canRead == !sock.dry && canWrite == !sock.short && peerClosed == sock.ended
      && (!canRead ==> |input| < MaxIn(world.lim))
      && (!canWrite ==> sock.full || Parked())
      && (sock.eof ==> RanDry())
      && (Moved(source) ==> out == [])
      && (canWrite && source.FileSource? ==> Residue(source) == hist.base)
    }

    /** All that is left to send is a file that has no more bytes. */
    predicate RanDry()
      reads this
    {
      source.RanDry() && out == []
    }

    /** It has none after some, the last of them inside a block. */
    ghost predicate Parked()
      reads this
    {
      RanDry() && Moved(source) && Residue(source) != hist.base
    }

    ghost predicate Valid()
      reads this
    {
      && BuffersOk() && Synced()
      && DataDue(parser) && !parser.state.Done?
      && Tracks(world.lim, sock.received, hist.requests, parser, input)
      && InterimMatches(hist.owed, continueSent, parser, closeAfterWrite)
      && Flows(sock.wire, Pending(), hist.log, hist.owed)
      && InOrder(world, hist.requests, parser, hist.log)
      && OnlyLastOpen(world, hist.requests, hist.log)
      && closeAfterWrite == MustClose(world, hist.requests, parser, hist.log)
      && SourceMatches(source, hist.log, hist.owed)
    }

    constructor (world: World)
      ensures this.world == world && Valid()
      ensures hist == History([], [], false, 0) && sock == OPEN_SOCKET
      ensures !HasOutput() && input == "" && parser == START
    {
      this.world := world;
      sock := OPEN_SOCKET;
      input, parser, out, outOff, source := "", START, "", 0, NoSource;
      canRead, canWrite, peerClosed, closeAfterWrite, continueSent := true, true, false, false, false;
      answered := 0;
      hist := History([], [], false, 0);
      new;
      TracksStart(world.lim);
    }

    // ---------- reading ----------

    /** Reads until the socket would block, ends, fails, or the buffer is full. */
    method DoRead() returns (ok: bool, progress: bool, ghost data: string)
      requires Valid() && Alive(sock) && canRead && !closeAfterWrite && !peerClosed && |input| < MaxIn(world.lim)
      modifies this`sock, this`input, this`canRead, this`peerClosed
      ensures Valid() && Went(old(sock), sock) && ok == Alive(sock)
      ensures sock == old(sock).(recvs := sock.recvs, received := old(sock).received + data, ended := sock.ended,
                                 dry := sock.dry, failed := sock.failed)
      ensures input == old(input) + data
      ensures |sock.recvs| <= |old(sock).recvs| && (progress ==> |sock.recvs| < |old(sock).recvs|)
      ensures !progress ==> data == "" && !peerClosed
      ensures ok ==> peerClosed || !canRead || |input| >= MaxIn(world.lim)
    {
      hide Tracks, InOrder, OnlyLastOpen, MustClose, Flows, SourceMatches, InterimMatches, Went, Bounded, Do, DataDue,
           Permitted, RecvScript;
      ok, progress, data := true, false, "";
      WentNone(sock);
      assert input + "" == input && sock.received + "" == sock.received;
      while |input| < MaxIn(world.lim)
        invariant BuffersOk() && Synced() && Went(old(sock), sock) && Alive(sock)
        invariant canRead && !peerClosed && ok
        invariant sock == old(sock).(recvs := sock.recvs, received := old(sock).received + data)
        invariant input == old(input) + data
        invariant Tracks(world.lim, sock.received, hist.requests, parser, input)
        invariant |sock.recvs| <= |old(sock).recvs| && (progress ==> |sock.recvs| < |old(sock).recvs|)
        invariant !progress ==> data == ""
        decreases |sock.recvs|
      {
        var outcome := NextRecv(sock);
        ReceiveDone(sock);
        WentOne(old(sock), sock, Receive);
        TracksArrive(world.lim, sock.received, hist.requests, parser, input, BytesIn(outcome));
        Assoc(old(sock).received, data, BytesIn(outcome));
        Assoc(old(input), data, BytesIn(outcome));
        assert !outcome.Bytes? ==> data + BytesIn(outcome) == data && input + BytesIn(outcome) == input;
        data := data + BytesIn(outcome);
        sock := Do(sock, Receive);
        match outcome {
          case Bytes(bytes) =>
            input, progress := input + bytes, true;
          case Fin =>
            peerClosed, progress := true, true;
            break;
          case RecvInterrupted =>
          case RecvBlocks =>
            canRead := false;
            break;
          case RecvFails =>
            ok := false;
            break;
        }
      }
    }

    // ---------- dispatching ----------

    /** Ready for the next response: nothing is in flight from a body source and nothing has closed. */
    ghost predicate Idle()
      reads this
    {
      && BuffersOk() && !closeAfterWrite && source.NoSource? && |out| - outOff < OUT_HIGH_WATER
      && Flows(sock.wire, Pending(), hist.log, hist.owed)
      && InOrder(world, hist.requests, START, hist.log)
      && OnlyLastOpen(world, hist.requests, hist.log)
      && !MustClose(world, hist.requests, START, hist.log)
      && SourceMatches(NoSource, hist.log, hist.owed)
    }

    /** Queues a body that is in memory, or puts its file or its producer in flight. */
    method BeginBody(req: Request, res: Response, framing: Framing)
      requires source.NoSource? && framing == FramingFor(res, req.IsHttp10())
      modifies this`out, this`source
      ensures source == SourceFor(PlanFor(res, req))
      ensures out == old(out) + if PlanFor(res, req).Memory? then PlanFor(res, req).bytes else ""
    {
      if req.verb != "HEAD" && !framing.NoFraming? {
        if res.file.Some? {
          if res.file.value.length > 0 {
            source := FileSource(res.file.value, res.file.value.offset, res.file.value.length);
          }
        } else if res.producer.Some? {
          var sized := res.streamLength.Some?;
          var left := if sized then res.streamLength.value else 0;
          if !(sized && left == 0) {
            source := StreamSource(res.producer.value, 0, framing.ByChunks?, sized, left);
          }
        } else {
          out := out + res.body;
        }
      }
      assert old(out) + "" == old(out);
    }

    /** The response to `req` as bytes queued and a source in flight. */
    method WriteResponse(req: Request)
      requires source.NoSource?
      modifies this`out, this`source, this`closeAfterWrite
      ensures var res := world.handler(answered, req);
              var opts := OptionsFor(world, answered, req);
              && out == old(out) + QueuedText(res, opts, PlanFor(res, req))
              && source == SourceFor(PlanFor(res, req))
              && closeAfterWrite == (old(closeAfterWrite) || !StaysOpen(res, opts))
    {
      hide HeadText, PlanFor, SourceFor, FramingFor, HasToken, BeginsWithHandlers;
      var res := world.handler(answered, req);
      var opts := OptionsFor(world, answered, req);
      var framing;
      out, framing := WriteHead(out, res, opts);
      if !opts.keepAlive || framing.ByClose? { closeAfterWrite := true; }
      BeginBody(req, res, framing);
    }

    /** Answers a request: queues its head, and its body or puts the body's source in flight. The connection
        closes afterwards exactly when this response is one that nothing may follow. */
    method Dispatch(req: Request)
      requires Idle() && (hist.owed ==> req.expectContinue)
      modifies this`out, this`source, this`closeAfterWrite, this`hist, this`answered
      ensures BuffersOk() && Residue(source) == 0 && !Moved(source)
      ensures old(hist.log) <= hist.log && |hist.log| == |old(hist.log)| + 1
      ensures hist == History(old(hist.requests) + [req], hist.log, false, 0)
      ensures Flows(sock.wire, Pending(), hist.log, false)
      ensures InOrder(world, hist.requests, START, hist.log)
      ensures OnlyLastOpen(world, hist.requests, hist.log)
      ensures closeAfterWrite == MustClose(world, hist.requests, START, hist.log)
      ensures SourceMatches(source, hist.log, false)
    {
      hide InOrder, OnlyLastOpen, MustClose, Flows, SourceMatches, HeadText, PlanFor, StaysOpen, OptionsFor;
      ghost var res := world.handler(answered, req);
      ghost var opts := OptionsFor(world, answered, req);
      ghost var before := Pending();
      ghost var e := Begun(hist.owed, HeadText(res, opts), PlanFor(res, req));
      AnswerBegun(world, hist.requests, hist.log, hist.owed, sock.wire, before, req);
      WriteResponse(req);
      assert Pending() == before + QueuedText(res, opts, e.plan);
      hist := History(hist.requests + [req], hist.log + [e], false, 0);
      answered := answered + 1;
    }

    /** Answers a parse error and gives up on the connection's input. */
    method QueueError()
      requires Idle() && parser.state.Error?
      modifies this`out, this`closeAfterWrite, this`hist, this`answered
      ensures BuffersOk() && closeAfterWrite
      ensures old(hist.log) <= hist.log && |hist.log| == |old(hist.log)| + 1
      ensures hist == History(old(hist.requests), hist.log, false, old(hist.base))
      ensures Flows(sock.wire, Pending(), hist.log, false)
      ensures InOrder(world, hist.requests, parser, hist.log)
      ensures OnlyLastOpen(world, hist.requests, hist.log)
      ensures SourceMatches(NoSource, hist.log, false)
    {
      hide InOrder, OnlyLastOpen, MustClose, Flows, SourceMatches, HeadText, ErrorResponse, BeginsWithHandlers,
           FramingFor;
      var res := ErrorResponse(parser);
      ghost var before := Pending();
      ghost var e := Begun(hist.owed, HeadText(res, ErrorOptions(world, answered)), Memory(res.body));
      ErrorBegun(world, hist.requests, parser, hist.log, hist.owed, sock.wire, before);
      var text, _ := WriteHead(out, res, ErrorOptions(world, answered));
      out := text + res.body;
      assert Pending() == before + (e.head + res.body);
      closeAfterWrite, answered := true, answered + 1;
      hist := hist.(log := hist.log + [e], owed := false);
    }

    // ---------- parsing ----------

    /** Ready to feed the parser. */
    ghost predicate Feeding(f: Fed)
      reads this
    {
      && Valid() && !closeAfterWrite && source.NoSource? && |out| - outOff < OUT_HIGH_WATER
      && f == Feed(world.lim, parser, input)
    }

    method OnParseError(f: Fed)
      requires Feeding(f) && f.m.state.Error?
      modifies this`input, this`parser, this`out, this`closeAfterWrite, this`hist, this`answered
      ensures Valid() && closeAfterWrite && input == old(input)[f.used..]
      ensures hist == History(old(hist.requests), hist.log, false, old(hist.base)) && old(hist.log) <= hist.log
    {
      hide InOrder, OnlyLastOpen, Flows, SourceMatches, Tracks, Feed, DataDue, Bounded, ClosesAfter;
      LogIgnoresParser(world, hist.requests, parser, START, hist.log);
      TracksFeed(world.lim, sock.received, hist.requests, parser, input);
      FeedKeepsDue(world.lim, parser, input);
      parser, input := f.m, input[f.used..];
      QueueError();
    }

    method OnRequest(f: Fed)
      requires Feeding(f) && f.m.state.Done?
      modifies this`input, this`parser, this`out, this`source, this`closeAfterWrite, this`hist, this`answered,
               this`continueSent
      ensures Valid() && input == old(input)[f.used..]
      ensures hist == History(old(hist.requests) + [f.m.req], hist.log, false, 0)
      ensures old(hist.log) <= hist.log && |hist.log| == |old(hist.log)| + 1
    {
      hide InOrder, OnlyLastOpen, ClosesAfter, Flows, SourceMatches, Tracks, Feed, Bounded, Residue;
      LogIgnoresParser(world, hist.requests, parser, START, hist.log);
      TracksFeed(world.lim, sock.received, hist.requests, parser, input);
      if hist.owed {
        FeedKeepsExpect(world.lim, parser, input);
      }
      parser, input := START, input[f.used..];
      Dispatch(f.m.req);
      continueSent := false;
    }

    /** The request is not complete; its header section may be, and then it may be owed a 100 Continue. */
    method OnIncomplete(f: Fed)
      requires Feeding(f) && !Halted(f.m)
      modifies this`input, this`parser, this`out, this`hist, this`continueSent
      ensures Valid() && input == old(input)[f.used..] && parser == f.m && Waits(world.lim, parser, input)
      ensures continueSent == (old(continueSent) || Expecting(f.m))
      ensures out == if continueSent && !old(continueSent) then old(out) + CONTINUE_TEXT else old(out)
      ensures hist == if continueSent && !old(continueSent) then old(hist).(owed := true) else old(hist)
    {
      hide InOrder, OnlyLastOpen, MustClose, Flows, SourceMatches, Tracks, Feed, DataDue, Waits, OneResponse,
           RecvScript;
      OpenMeansNoError(world, hist, parser);
      NotYet(world, sock.received, hist, parser, input);
      parser, input := f.m, input[f.used..];
      if parser.req.expectContinue && !continueSent && PastHeaders(parser) {
        ghost var before := Pending();
        FlowsInterim(sock.wire, before, hist.log);
        NoSourceOwed(hist.log, false, true);
        out := out + CONTINUE_TEXT;
        assert Pending() == before + CONTINUE_TEXT;
        continueSent := true;
        hist := hist.(owed := true);
      }
    }

    /** Feeds the parser and answers what it delivers, until it needs more input, the response in flight
        has a body source, too much is queued, or the connection is closing. */
    method Process() returns (progress: bool)
      requires Valid()
      modifies this`input, this`parser, this`out, this`source, this`closeAfterWrite, this`hist, this`answered,
               this`continueSent
      ensures Valid() && Extends(old(hist), hist)
      ensures |input| <= |old(input)| && (old(closeAfterWrite) ==> closeAfterWrite)
      ensures closeAfterWrite || HeldBack() || input == [] || Waits(world.lim, parser, input)
      ensures !progress ==> input == old(input) && out == old(out) && source == old(source) &&
                            hist == old(hist) && closeAfterWrite == old(closeAfterWrite) &&
                            continueSent == old(continueSent)
      ensures progress ==> |input| < |old(input)| || (closeAfterWrite && !old(closeAfterWrite)) ||
                           (continueSent && !old(continueSent))
      ensures old(Waits(world.lim, parser, input)) ==> !progress && parser == old(parser)
    {
      hide InOrder, OnlyLastOpen, MustClose, Flows, SourceMatches, Tracks, Feed, Bounded, Residue, Extends;
      progress := false;
      ExtendsBegun(hist, hist);
      while !closeAfterWrite && source.NoSource? && |out| - outOff < OUT_HIGH_WATER
        invariant Valid() && |input| <= |old(input)|
        invariant Extends(old(hist), hist)
        invariant old(closeAfterWrite) ==> closeAfterWrite
        invariant progress ==> |input| < |old(input)|
        invariant !progress ==> input == old(input) && out == old(out) && source == old(source) &&
                                hist == old(hist) && closeAfterWrite == old(closeAfterWrite) &&
                                continueSent == old(continueSent) && parser == old(parser)
        invariant old(Waits(world.lim, parser, input)) ==> !progress
        decreases |input|
      {
        if input == [] { break; }
        var f := Feed(world.lim, parser, input);
        ghost var h := hist;
        FeedKeepsDue(world.lim, parser, input);
        if f.used > 0 { progress := true; }
        if f.m.state.Error? {
          OnParseError(f);
          ExtendsMore(old(hist), h, hist);
          return true;
        }
        if !f.m.state.Done? {
          var told := continueSent;
          assert f.used == 0 ==> input[f.used..] == input;
          OnIncomplete(f);
          ExtendsMore(old(hist), h, hist);
          if continueSent && !told { progress := true; }
          return;
        }
        OnRequest(f);
        ExtendsMore(old(hist), h, hist);
        progress := true;
      }
    }

    // ---------- writing ----------

    /** The kernel took `sent` bytes of the queue. */
    method Accepted(sent: nat)
      requires BuffersOk() && sent <= |out| - outOff
      modifies this`out, this`outOff
      ensures BuffersOk() && Pending() == old(Pending())[sent..]
    {
      assert out[outOff + sent..] == Pending()[sent..];
      out, outOff := Compact(out, outOff + sent);
    }

    /** One `send` of what is queued. */
    method SendQueued() returns (io: Io, moved: bool)
      requires Valid() && Alive(sock) && canWrite && |out| > outOff
      modifies this`sock, this`out, this`outOff, this`canWrite
      ensures Valid() && Permitted(old(sock), Transmit(old(Pending())))
      ensures sock == Do(old(sock), Transmit(old(Pending())))
      ensures Pending() == old(Pending())[Taken(NextSend(old(sock)), |old(Pending())|)..]
      ensures (io.Blocked? <==> !canWrite) && (io.Broken? <==> !Alive(sock))
      ensures moved == NextSend(old(sock)).Room?
      ensures !moved ==> out == old(out) && outOff == old(outOff)
    {
      hide InOrder, OnlyLastOpen, MustClose, Flows, SourceMatches, Tracks, InterimMatches, Bounded, DataDue, Do,
           SendResult, Taken, RecvScript, Permitted, Residue;
      var outcome := NextSend(sock);
      var want := |out| - outOff;
      var sent := Taken(outcome, want);
      var data := out[outOff..];
      QueueDone(sock, data);
      FlowsSend(sock.wire, data, hist.log, hist.owed, sent);
      NothingTaken(outcome, want);
      assert sock.wire + data[..0] == sock.wire && data[0..] == data;
      sock := Do(sock, Transmit(data));
      if outcome.Room? { Accepted(sent); }
      io, moved := SendResult(outcome, want), outcome.Room?;
      if io.Blocked? { canWrite := false; }
    }

    /** The kernel took `sent` bytes straight from the file, on top of `wire`. */
    method FileAccepted(sent: nat, ghost wire: string)
      requires BuffersOk() && out == [] && source.FileSource? && SourceMatches(source, hist.log, hist.owed)
      requires InOrder(world, hist.requests, parser, hist.log) && OnlyLastOpen(world, hist.requests, hist.log)
      requires closeAfterWrite == MustClose(world, hist.requests, parser, hist.log)
      requires Flows(wire, "", hist.log, hist.owed)
      requires 0 < sent <= source.left && source.off + sent <= |source.file.content|
      modifies this`source, this`hist
      ensures BuffersOk() && hist == old(hist).(log := hist.log) && Extends(old(hist), hist)
      ensures var s := old(source);
              && source == (if sent == s.left then NoSource else s.(off := s.off + sent, left := s.left - sent))
              && Flows(wire + s.file.content[s.off..s.off + sent], "", hist.log, hist.owed)
      ensures InOrder(world, hist.requests, parser, hist.log) && OnlyLastOpen(world, hist.requests, hist.log)
      ensures closeAfterWrite == MustClose(world, hist.requests, parser, hist.log)
      ensures SourceMatches(source, hist.log, hist.owed)
    {
      hide InOrder, OnlyLastOpen, MustClose, Flows;
      var FileSource(f, off, left) := source;
      ghost var e := hist.log[|hist.log| - 1];
      ghost var e' := e.(k := e.k + sent, over := e.k + sent == f.length);
      FileStep(world, hist, parser, wire, sent);
      ExtendsLast(hist, e');
      hist := hist.(log := hist.log[|hist.log| - 1 := e']);
      source := if sent == left then NoSource else FileSource(f, off + sent, left - sent);
    }

    /** One `sendfile`. */
    method SendFile() returns (io: Io, moved: bool)
      requires Valid() && Alive(sock) && canWrite && out == [] && source.FileSource?
      modifies this`sock, this`source, this`canWrite, this`hist
      ensures Valid() && hist == old(hist).(log := hist.log) && Extends(old(hist), hist)
      ensures Permitted(old(sock), FileCall(old(source))) && sock == Do(old(sock), FileCall(old(source)))
      ensures var s, n := old(source), FileCount(old(source), old(sock));
              && moved == (n > 0)
              && source == if n == s.left then NoSource else s.(off := s.off + n, left := s.left - n)
      ensures (io.Blocked? <==> !canWrite) && (io.Broken? <==> !Alive(sock))
      ensures !canWrite && !sock.full <==>
                NextSend(old(sock)).Room? &&
                0 < Available(old(source)) < Min(NextSend(old(sock)).n, FileWant(old(source)))
    {
      hide InOrder, OnlyLastOpen, MustClose, Flows, Tracks, InterimMatches, SourceMatches, Bounded, DataDue, Do,
           FileResult, FileCount, FileCall, FileWant, Available, RecvScript, Permitted, Residue, Extends;
      SourceOwes(source, hist.log, hist.owed);
      FileDone(sock, source);
      StallsExactly(sock, source);
      BlocksStep(sock, source);
      ghost var wire := sock.wire;
      assert Pending() == "";
      var sent := FileCount(source, sock);
      io, moved := FileResult(source, FileAnswer(sock)), sent > 0;
      sock := Do(sock, FileCall(source));
      assert wire + "" == wire;
      ExtendsBegun(hist, hist);
      if moved { FileAccepted(sent, wire); }
      if io.Blocked? { canWrite := false; }
      assert Pending() == "";
    }

    /** Pulls the next pieces of a stream into the empty queue, and ends the body when there are no more. */
    method Refill() returns (ok: bool)
      requires Valid() && out == [] && source.StreamSource?
      modifies this`out, this`source, this`closeAfterWrite, this`hist
      ensures Valid() && hist == old(hist).(log := hist.log) && Extends(old(hist), hist)
      ensures old(closeAfterWrite) ==> closeAfterWrite
      ensures source.NoSource? || (source.StreamSource? && out != []) || !ok
      ensures !ok ==> out == [] && source == old(source) && hist == old(hist) && ProducerBroken(source)
      ensures ok ==> |out| < RefillBound(old(source), hist.log[|hist.log| - 1].k)
    {
      hide InOrder, OnlyLastOpen, MustClose, Flows, Tracks, SourceMatches, StreamOpen, ProducerBroken, StreamMode,
           Pulled, RefillBound, OneResponse, Extends, DataDue, RecvScript, Residue;
      ghost var s := source;
      ExtendsBegun(hist, hist);
      SourceLogged(s, hist.log, hist.owed);
      StreamStillOpen(world, hist, s);
      var text, k, left, more;
      ok, text, k, left, more := Pull(source);
      if ok {
        StreamStep(world, hist, parser, sock.wire, s, k, left, !more, text);
        ghost var e := hist.log[|hist.log| - 1].(k := k, over := !more);
        ExtendsLast(hist, e);
        hist := hist.(log := hist.log[|hist.log| - 1 := e]);
        out := text;
        if more {
          source := source.(asked := k, left := left);
        } else {
          closeAfterWrite := closeAfterWrite || (source.sized && left != 0);
          source := NoSource;
        }
      }
    }

    ghost function WriteRankOf(): WriteRank
      reads this
    {
      WriteRank(|sock.sends|, source.StreamSource?, |out| <= outOff, canWrite)
    }

    /** One turn of the loop in `do_write`: the queue first, then the file, then the producer. */
    method WriteStep() returns (io: Io, moved: bool)
      requires Valid() && Alive(sock) && canWrite && HasOutput()
      modifies this`sock, this`out, this`outOff, this`source, this`canWrite, this`closeAfterWrite, this`hist
      ensures Valid() && Went(old(sock), sock) && hist == old(hist).(log := hist.log) && Extends(old(hist), hist)
      ensures old(closeAfterWrite) ==> closeAfterWrite
      ensures sock == old(sock).(sends := sock.sends, wire := sock.wire, short := sock.short, full := sock.full,
                                 failed := sock.failed, eof := sock.eof)
      ensures |sock.sends| <= |old(sock).sends| && (source.StreamSource? ==> old(source).StreamSource?)
      ensures io.Blocked? <==> !canWrite
      ensures io.Blocked? ==> HasOutput()
      ensures if io.Broken? then !Alive(sock) || ProducerBroken(source) else Alive(sock)
      ensures !moved ==> HasOutput() && closeAfterWrite == old(closeAfterWrite) && HeldBack() == old(HeldBack())
      ensures !io.Broken? ==> Lowered(WriteRankOf(), old(WriteRankOf()))
      ensures moved && io.Going? && |out| <= outOff ==>
                |sock.sends| < |old(sock).sends| || (old(source).StreamSource? && !source.StreamSource?)
    {
      hide InOrder, OnlyLastOpen, MustClose, Flows, SourceMatches, Tracks, InterimMatches, ProducerBroken, RefillBound,
           Went, Bounded, Residue, DataDue, Do, Extends, FileCount, FileCall, FileWant, Available, RecvScript,
           Permitted, Taken;
      ghost var k, s := sock, source;
      WentNone(k);
      ExtendsBegun(hist, hist);
      if |out| > outOff {
        QueueDone(k, Pending());
        WentOne(k, k, Transmit(Pending()));
        io, moved := SendQueued();
        assert |Pending()| == |out| - outOff;
      } else if source.FileSource? {
        SourceOwes(s, hist.log, hist.owed);
        FileDone(k, s);
        WentOne(k, k, FileCall(s));
        io, moved := SendFile();
      } else {
        var fine := Refill();
        io, moved := if fine then Going else Broken, true;
      }
    }

    /** Sends until the socket takes no more or all is sent. */
    method DoWrite() returns (ok: bool, progress: bool)
      requires Valid() && Alive(sock) && canWrite && HasOutput()
      modifies this`sock, this`out, this`outOff, this`source, this`canWrite, this`closeAfterWrite, this`hist
      ensures Valid() && Went(old(sock), sock) && hist == old(hist).(log := hist.log) && Extends(old(hist), hist)
      ensures old(closeAfterWrite) ==> closeAfterWrite
      ensures sock == old(sock).(sends := sock.sends, wire := sock.wire, short := sock.short, full := sock.full,
                                 failed := sock.failed, eof := sock.eof)
      ensures |sock.sends| <= |old(sock).sends| && (source.StreamSource? ==> old(source).StreamSource?)
      ensures if ok then Alive(sock) && (!canWrite || !HasOutput()) else !Alive(sock) || ProducerBroken(source)
      ensures ok && progress ==> |sock.sends| < |old(sock).sends| || !canWrite ||
                                 (old(source).StreamSource? && !source.StreamSource?)
      ensures ok && !progress ==>
                HasOutput() && closeAfterWrite == old(closeAfterWrite) && HeldBack() == old(HeldBack())
    {
      hide Valid, Went, ProducerBroken, Extends;
      ok, progress := true, false;
      WentNone(sock);
      ExtendsBegun(hist, hist);
      while canWrite && HasOutput()
        invariant Valid() && Alive(sock) && Went(old(sock), sock)
        invariant hist == old(hist).(log := hist.log) && Extends(old(hist), hist)
        invariant old(closeAfterWrite) ==> closeAfterWrite
        invariant sock == old(sock).(sends := sock.sends, wire := sock.wire, short := sock.short, full := sock.full)
        invariant |sock.sends| <= |old(sock).sends| && (source.StreamSource? ==> old(source).StreamSource?)
        invariant progress ==> |sock.sends| < |old(sock).sends| || !canWrite || |out| > outOff ||
                               (old(source).StreamSource? && !source.StreamSource?)
        invariant !progress ==> HasOutput() && closeAfterWrite == old(closeAfterWrite) && HeldBack() == old(HeldBack())
        decreases WriteRankOf().sends, WriteRankOf().streaming, WriteRankOf().drained, WriteRankOf().writable
      {
        ghost var k, h := sock, hist;
        var io, moved := WriteStep();
        WentTwice(old(sock), k, sock);
        ExtendsTwice(old(hist), h, hist);
        if io.Broken? { return false, progress; }
        progress := progress || moved;
      }
    }

    ghost function RankOf(): Rank
      reads this
    {
      Rank(|sock.recvs|, |input|, !closeAfterWrite, !continueSent, |sock.sends|, canWrite, source.StreamSource?)
    }

    /** Nothing more can be done without the kernel: whatever is readable has been read, whatever is
        complete has been answered, whatever could be written has been. */
    ghost predicate Quiet()
      reads this
    {
      && (canRead ==> peerClosed || closeAfterWrite || |input| >= MaxIn(world.lim))
      && (closeAfterWrite || HeldBack() || input == [] || Waits(world.lim, parser, input))
      && (canWrite ==> !HasOutput())
    }

    /** Requests wait in the input behind a body in flight or too much queued output. */
    predicate HeldBack()
      reads this
    {
      !source.NoSource? || |out| - outOff >= OUT_HIGH_WATER
    }

    /** The parser waits for more input although the buffer is full, so nothing is ever read again. */
    ghost predicate Stuck()
      reads this
    {
      && canRead && !peerClosed && !closeAfterWrite && !HasOutput()
      && |input| >= MaxIn(world.lim) && Waits(world.lim, parser, input)
    }

    /** The first third of a turn in `drive`: read if that is allowed and useful. */
    method MaybeRead() returns (ok: bool, progress: bool)
      requires Valid() && Alive(sock)
      modifies this`sock, this`input, this`canRead, this`peerClosed
      ensures Valid() && Went(old(sock), sock) && ok == Alive(sock)
      ensures if progress then |sock.recvs| < |old(sock).recvs|
              else |sock.recvs| <= |old(sock).recvs| && input == old(input)
      ensures sock.sends == old(sock).sends
      ensures ok && canRead ==> peerClosed || closeAfterWrite || |input| >= MaxIn(world.lim)
      ensures old(|input| >= MaxIn(world.lim)) ==>
                !progress && sock == old(sock) && canRead == old(canRead) && peerClosed == old(peerClosed)
    {
      hide Valid, Went;
      ok, progress := true, false;
      WentNone(sock);
      if canRead && !peerClosed && !closeAfterWrite && |input| < MaxIn(world.lim) {
        ghost var data;
        ok, progress, data := DoRead();
        assert data == "" ==> old(input) + data == old(input);
      }
    }

    /** The rest of a turn: parse and dispatch, write. */
    method ProcessAndWrite() returns (ok: bool, progress: bool)
      requires Valid() && Alive(sock)
      modifies this`sock, this`input, this`parser, this`out, this`outOff, this`source, this`canWrite,
               this`closeAfterWrite, this`continueSent, this`answered, this`hist
      ensures Valid() && Went(old(sock), sock) && Extends(old(hist), hist) && sock.recvs == old(sock).recvs
      ensures if ok then Alive(sock) else !Alive(sock) || ProducerBroken(source)
      ensures ok && progress ==> Below(RankOf(), old(RankOf()))
      ensures ok && !progress ==> input == old(input) && closeAfterWrite == old(closeAfterWrite)
      ensures ok && !progress ==> closeAfterWrite || HeldBack() || input == [] || Waits(world.lim, parser, input)
      ensures ok && !progress && canWrite ==> !HasOutput()
      ensures old(Stuck()) ==> ok && !progress && Stuck() && sock == old(sock)
    {
      hide Valid, Waits, ProducerBroken, Went, Extends;
      ok := true;
      WentNone(sock);
      progress := Process();
      if canWrite && HasOutput() {
        ghost var h := hist;
        var moved;
        ok, moved := DoWrite();
        ExtendsTwice(old(hist), h, hist);
        progress := progress || moved;
      }
    }

    /** One turn of the loop in `drive`: read, parse and dispatch, write. */
    method Turn() returns (ok: bool, progress: bool)
      requires Valid() && Alive(sock)
      modifies this`sock, this`input, this`parser, this`out, this`outOff, this`source, this`canRead, this`canWrite,
               this`peerClosed, this`closeAfterWrite, this`continueSent, this`answered, this`hist
      ensures Valid() && Went(old(sock), sock) && Extends(old(hist), hist)
      ensures if ok then Alive(sock) else !Alive(sock) || ProducerBroken(source)
      ensures ok && progress ==> Below(RankOf(), old(RankOf()))
      ensures ok && !progress ==> Quiet()
      ensures old(Stuck()) ==> ok && !progress && Stuck() && sock == old(sock)
    {
      hide Valid, Waits, ProducerBroken, Went, HasOutput, Extends;
      ExtendsBegun(hist, hist);
      ok, progress := MaybeRead();
      if ok {
        ghost var k := sock;
        var moved;
        ok, moved := ProcessAndWrite();
        WentTwice(old(sock), k, sock);
        progress := progress || moved;
      }
    }

    /** Everything complete that was received has been answered, and every answer is on the wire, whole. */
    ghost predicate Answered()
      reads this
    {
      && !HasOutput() && !closeAfterWrite && AllWhole(hist.log)
      && hist.requests == Drain(world.lim, START, sock.received).requests
      && sock.wire == LogText(hist.log) + InterimText(hist.owed)
    }

    /** Why `drive` may return as it did. It keeps a connection with output only if the last write came up
        short, for want of room or because a file ended early; it keeps one without output only if all
        complete requests are answered and the last `recv` would have blocked, except on a full buffer,
        which limits that fit rule out. It is finished only when all there is to send is sent and the last
        exchange is one that nothing may follow; the peer is gone only when everything is answered; it gives
        up only on a failed call, a file without bytes, or a producer that breaks its contract. */
    ghost predicate Justified(v: Verdict)
      reads this
    {
      match v
      case Keep =>
        && Alive(sock) && Quiet()
        && if HasOutput() then sock.short && (sock.full || Parked())
           else Answered() && !sock.ended && (sock.dry || Stuck()) && (LimitsFit(world.lim) ==> sock.dry)
      case Finished =>
        && Alive(sock) && !HasOutput() && sock.wire == LogText(hist.log)
        && MustClose(world, hist.requests, parser, hist.log)
        && (parser.state.Error? ==> hist.requests == Drain(world.lim, START, sock.received).requests)
      case PeerGone => Alive(sock) && Answered() && sock.ended
      case Abort => sock.failed || (sock.eof && RanDry()) || ProducerBroken(source)
    }

    /** Turns until nothing makes progress, which happens for every script and every producer. */
    method Drive() returns (v: Verdict)
      requires Valid() && Alive(sock)
      modifies this`sock, this`input, this`parser, this`out, this`outOff, this`source, this`canRead, this`canWrite,
               this`peerClosed, this`closeAfterWrite, this`continueSent, this`answered, this`hist
      ensures Valid() && Went(old(sock), sock) && Extends(old(hist), hist) && Justified(v)
      ensures old(Stuck()) ==> v.Keep? && Stuck() && sock == old(sock)
    {
      hide Valid, Quiet, Justified, ProducerBroken, Went, Extends;
      WentNone(sock);
      ExtendsBegun(hist, hist);
      while true
        invariant Valid() && Alive(sock) && Went(old(sock), sock) && Extends(old(hist), hist)
        invariant old(Stuck()) ==> Stuck() && sock == old(sock)
        decreases RankOf().recvs, RankOf().input, RankOf().open, RankOf().untold, RankOf().sends,
                  RankOf().writable, RankOf().streaming
      {
        ghost var k, h := sock, hist;
        var ok, progress := Turn();
        WentTwice(old(sock), k, sock);
        ExtendsTwice(old(hist), h, hist);
        if !ok {
          GivenUp(this);
          return Abort;
        }
        if !progress { break; }
      }
      QuietIsJustified(this);
      if HasOutput() { return Keep; }
      if closeAfterWrite { return Finished; }
      if peerClosed { return PeerGone; }
      return Keep;
    }
  }

  lemma GivenUp(c: Connection)
    requires c.Valid() && (!Alive(c.sock) || ProducerBroken(c.source))
    ensures c.Justified(Abort)
  {
    hide InOrder, OnlyLastOpen, MustClose, Flows, SourceMatches, Tracks, InterimMatches, Bounded, Residue,
         ProducerBroken;
  }

  /** A connection that nothing moves any more deserves the verdict its state calls for. */
  lemma QuietIsJustified(c: Connection)
    requires c.Valid() && Alive(c.sock) && c.Quiet()
    ensures c.Justified(if c.HasOutput() then Keep else if c.closeAfterWrite then Finished
                        else if c.peerClosed then PeerGone else Keep)
  {
    hide ProducerBroken, InOrder, OnlyLastOpen, MustClose, Flows, SourceMatches, Tracks, InterimMatches, Waits,
         LogText, Drain, Bounded, Residue, LimitsFit, AllWhole;
    if !c.HasOutput() {
      AllSent(c);
      if LimitsFit(c.world.lim) && c.canRead && !c.closeAfterWrite && !c.peerClosed {
        FitLeavesRoom(c.world.lim, c.sock.received);
        WaitingLeavesRoom(c.world.lim, c.sock.received, c.hist.requests, c.parser, c.input);
      }
    }
  }

  /** What stays true of a parser that has taken what it could and is not done. */
  lemma NotYet(w: World, received: string, h: History, m: Machine, input: string)
    requires InOrder(w, h.requests, m, h.log) && !MustClose(w, h.requests, m, h.log) && DataDue(m)
    requires Tracks(w.lim, received, h.requests, m, input) && !Halted(m)
    requires !Halted(Feed(w.lim, m, input).m)
    ensures var f := Feed(w.lim, m, input);
            && InOrder(w, h.requests, f.m, h.log) && !MustClose(w, h.requests, f.m, h.log) && DataDue(f.m)
            && Tracks(w.lim, received, h.requests, f.m, input[f.used..])
            && Waits(w.lim, f.m, input[f.used..])
            && (Expecting(m) ==> Expecting(f.m))
  {
    hide InOrder, MustClose, DataDue, Tracks, Feed;
    LogIgnoresParser(w, h.requests, m, Feed(w.lim, m, input).m, h.log);
    TracksFeed(w.lim, received, h.requests, m, input);
    FeedKeepsDue(w.lim, m, input);
    FeedSettles(w.lim, m, input);
    if Expecting(m) {
      FeedKeepsExpect(w.lim, m, input);
    }
  }

  lemma OpenMeansNoError(w: World, h: History, m: Machine)
    requires !MustClose(w, h.requests, m, h.log)
    ensures !m.state.Error?
  {
  }

  lemma ExtendsMore(a: History, b: History, c: History)
    requires Extends(a, b) && b.requests <= c.requests && b.log <= c.log
    requires c.base == b.base || (c.base == 0 && |b.log| < |c.log|)
    ensures Extends(a, c)
  {
    hide Extends;
    ExtendsBegun(b, c);
    ExtendsTwice(a, b, c);
  }

  lemma NothingTaken(o: Send, offered: nat)
    ensures !o.Room? ==> Taken(o, offered) == 0
  {
  }

  ghost predicate AllWhole(log: seq<Exchange>) {
    forall j {:trigger Whole(log[j])} :: 0 <= j < |log| ==> Whole(log[j])
  }

  /** With nothing left to send, everything logged is on the wire. */
  lemma AllSent(c: Connection)
    requires c.Valid() && !c.HasOutput()
    ensures c.sock.wire == LogText(c.hist.log) + InterimText(c.hist.owed)
    ensures c.closeAfterWrite ==> !c.hist.owed && c.sock.wire == LogText(c.hist.log)
    ensures !c.closeAfterWrite ==> AllWhole(c.hist.log)
    ensures c.input == [] || Waits(c.world.lim, c.parser, c.input) || c.parser.state.Error? ==>
              c.hist.requests == Drain(c.world.lim, START, c.sock.received).requests
  {
    hide Tracks, Waits, Flows, LogText, AllWhole, Drain, SourceMatches, InOrder, OnlyLastOpen, MustClose;
    assert c.Pending() == [];
    FlowsDrained(c.sock.wire, c.hist.log, c.hist.owed);
    if !c.closeAfterWrite {
      LastIsWhole(c.world, c.hist.requests, c.parser, c.hist.log, c.hist.owed);
    } else {
      assert LogText(c.hist.log) + "" == LogText(c.hist.log);
    }
    if c.input == [] || Waits(c.world.lim, c.parser, c.input) || c.parser.state.Error? {
      TracksAll(c.world.lim, c.sock.received, c.hist.requests, c.parser, c.input);
    }
  }

  lemma FlowsDrained(wire: string, log: seq<Exchange>, owed: bool)
    requires Flows(wire, [], log, owed)
    ensures wire == LogText(log) + InterimText(owed)
  {
    hide LogText;
    assert wire + [] == wire;
  }

  lemma LastIsWhole(w: World, requests: seq<Request>, m: Machine, log: seq<Exchange>, owed: bool)
    requires InOrder(w, requests, m, log) && OnlyLastOpen(w, requests, log)
    requires !MustClose(w, requests, m, log) && SourceMatches(NoSource, log, owed)
    ensures AllWhole(log)
  {
    hide Whole, Consistent, GoesOn, Answers, AnswersError;
  }

  /** Where the bytes received leave room, a parser that waits has left room in the buffer. */
  lemma WaitingLeavesRoom(lim: Limits, received: string, requests: seq<Request>, m: Machine, input: string)
    requires LeavesRoom(lim, received) && Tracks(lim, received, requests, m, input) && Waits(lim, m, input)
    ensures |input| < MaxIn(lim)
  {
    hide Feed;
    assert TracksWith(lim, received, requests, m, input, "");
    assert received + "" == received && input + "" == input;
  }
}
