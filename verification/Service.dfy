/** What the server is for: given room, intact files and well-behaved producers, whatever arrives is answered
    completely, and the connection ends up with nothing to send. */
module Service {
  import opened RequestParser
  import opened Driver
  import opened Reachable
  import opened Response
  import opened Exchanges
  import opened Kernel
  import opened Sending
  import opened Backlog
  import opened Connection
  import opened Runs

  /** The body can be delivered: its file has all that is promised, its producer keeps its contract and ends with
      answer `end`. */
  ghost predicate Deliverable(plan: Plan, end: nat) {
    match plan
    case Memory(_) => true
    case FromFile(f) => f.offset + f.length <= |f.content|
    case FromStream(p, mode) => StreamEnded(p, mode, end) && KeepsContract(p, mode)
  }

  ghost predicate KeepsContract(p: Producer, mode: Mode) { forall i :: !Violates(p, mode, i) }

  function BodyLength(plan: Plan, end: nat): nat {
    match plan
    case Memory(bytes) => |bytes|
    case FromFile(f) => f.length
    case FromStream(p, mode) => |StreamText(p, mode, end)| + |EndText(p, mode, end)|
  }

  // ---------- a stream ends once ----------

  lemma {:induction false} LengthGrows(p: Producer, i: nat, j: nat)
    requires i <= j
    ensures StreamLength(p, i) <= StreamLength(p, j)
    decreases j - i
  {
    hide PieceOf;
    if i < j {
      LengthGrows(p, i, j - 1);
    }
  }

  lemma {:induction false} TextGrows(p: Producer, mode: Mode, i: nat, j: nat)
    requires i <= j
    ensures |StreamText(p, mode, i)| <= |StreamText(p, mode, j)|
    decreases j - i
  {
    hide PieceText;
    if i < j {
      TextGrows(p, mode, i, j - 1);
    }
  }

  lemma OpenBeforeEnd(p: Producer, mode: Mode, k: nat, end: nat)
    requires StreamOpen(p, mode, k) && StreamEnded(p, mode, end)
    ensures k < end
  {
    if k >= end {
      LengthGrows(p, end, k);
    }
  }

  lemma EndsOnce(p: Producer, mode: Mode, k: nat, end: nat)
    requires StreamEnded(p, mode, k) && StreamEnded(p, mode, end)
    ensures k == end
  {
    OpenBeforeEnd(p, mode, k - 1, end);
    OpenBeforeEnd(p, mode, end - 1, k);
  }

  /** No exchange ever says more than it will have said in the end. */
  lemma BodyBounded(e: Exchange, end: nat)
    requires Consistent(e) && Deliverable(e.plan, end)
    ensures |BodyText(e)| <= BodyLength(e.plan, end)
  {
    hide StreamText, EndText, StreamOpen, StreamEnded, KeepsContract;
    match e.plan {
      case Memory(_) =>
      case FromFile(f) =>
      case FromStream(p, mode) =>
        if e.over {
          EndsOnce(p, mode, e.k, end);
        } else {
          OpenBeforeEnd(p, mode, e.k, end);
          TextGrows(p, mode, e.k, end);
        }
    }
  }

  // ---------- how much there is to say ----------

  /** Everything said in answer to the first `n` requests, at most. */
  function Volume(w: World, requests: seq<Request>, ends: seq<nat>, n: nat): nat
    requires n <= |requests| == |ends|
  {
    if n == 0 then 0
    else
      var req := requests[n - 1];
      var res := w.handler(n - 1, req);
      Volume(w, requests, ends, n - 1) + |CONTINUE_TEXT| + |HeadText(res, OptionsFor(w, n - 1, req))| +
      BodyLength(PlanFor(res, req), ends[n - 1])
  }

  function ErrorVolume(w: World, n: nat, m: Machine): nat {
    |CONTINUE_TEXT| + |HeadText(ErrorResponse(m), ErrorOptions(w, n))| + |ErrorResponse(m).body|
  }

  ghost predicate AllDeliverable(w: World, requests: seq<Request>, ends: seq<nat>)
    requires |requests| == |ends|
  {
    forall j {:trigger DeliverableAt(w, requests, ends, j)} :: 0 <= j < |requests| ==>
      DeliverableAt(w, requests, ends, j)
  }

  ghost predicate DeliverableAt(w: World, requests: seq<Request>, ends: seq<nat>, j: nat)
    requires j < |requests| == |ends|
  {
    Deliverable(PlanFor(w.handler(j, requests[j]), requests[j]), ends[j])
  }

  /** The first `n` exchanges of a log that answers these requests in order. */
  ghost predicate Prefix(w: World, requests: seq<Request>, log: seq<Exchange>, n: nat) {
    n <= |requests| && n <= |log| &&
    forall j {:trigger log[j]} :: 0 <= j < n ==> Answers(w, j, requests[j], log[j]) && Consistent(log[j])
  }

  lemma {:induction false} PrefixVolume(w: World, requests: seq<Request>, ends: seq<nat>, log: seq<Exchange>, n: nat)
    requires |requests| == |ends| && AllDeliverable(w, requests, ends) && Prefix(w, requests, log, n)
    ensures |LogText(log[..n])| <= Volume(w, requests, ends, n)
    decreases n
  {
    hide HeadText, PlanFor, Deliverable, BodyLength, Consistent, BodyText, CONTINUE_TEXT;
    if n == 0 {
      assert log[..0] == [];
    } else {
      PrefixVolume(w, requests, ends, log, n - 1);
      assert log[..n][..n - 1] == log[..n - 1];
      var e := log[n - 1];
      assert DeliverableAt(w, requests, ends, n - 1);
      BodyBounded(e, ends[n - 1]);
    }
  }

  lemma {:induction false} VolumeGrows(w: World, requests: seq<Request>, ends: seq<nat>, i: nat, n: nat)
    requires i <= n <= |requests| == |ends|
    ensures Volume(w, requests, ends, i) <= Volume(w, requests, ends, n)
    decreases n - i
  {
    hide HeadText, PlanFor, BodyLength, CONTINUE_TEXT, OptionsFor;
    if i < n {
      VolumeGrows(w, requests, ends, i, n - 1);
    }
  }

  // ---------- one event ----------

  /** A stream whose every response can be delivered, with the ends of its streamed bodies. */
  ghost predicate Servable(w: World, stream: string, ends: seq<nat>) {
    var requests := Drain(w.lim, START, stream).requests;
    LimitsFit(w.lim) && |ends| == |requests| && AllDeliverable(w, requests, ends)
  }

  /** Room for everything there will be to say. */
  function Enough(w: World, stream: string, ends: seq<nat>): nat
    requires |ends| == |Drain(w.lim, START, stream).requests|
  {
    var d := Drain(w.lim, START, stream);
    Volume(w, d.requests, ends, |d.requests|) + ErrorVolume(w, |d.requests|, d.m) + |CONTINUE_TEXT|
  }

  /** Part of the stream has been received. */
  ghost predicate OnStream(c: Connection, stream: string)
    reads c
  {
    c.Valid() && c.sock.received <= stream
  }

  /** What has been taken are the first requests of the stream; after an error, all of them and that error. */
  lemma TakenOfStream(lim: Limits, received: string, rest: string, requests: seq<Request>, m: Machine, input: string)
    requires Tracks(lim, received, requests, m, input)
    ensures requests <= Drain(lim, START, received + rest).requests
    ensures m.state.Error? ==> Drain(lim, START, received + rest).requests == requests
    ensures m.state.Error? ==> Drain(lim, START, received + rest).m == m
  {
    hide Drain;
    assert TracksWith(lim, received, requests, m, input, rest);
    if m.state.Error? {
      HaltedDrain(lim, m, input + rest);
      assert requests + [] == requests;
    }
  }

  lemma HaltedDrain(lim: Limits, m: Machine, x: string)
    requires m.state.Error?
    ensures Drain(lim, m, x) == Drained([], m, 0)
  {
    FeedHalted(lim, m, x);
  }

  lemma LogPrefix(w: World, all: seq<Request>, h: History, m: Machine)
    requires InOrder(w, h.requests, m, h.log) && OnlyLastOpen(w, h.requests, h.log) && h.requests <= all
    ensures Prefix(w, all, h.log, |h.requests|)
  {
    hide Answers, Consistent, GoesOn, Whole, AnswersError;
    forall j {:trigger h.log[j]} | 0 <= j < |h.requests|
      ensures Answers(w, j, all[j], h.log[j]) && Consistent(h.log[j])
    {
      assert Answers(w, j, h.requests[j], h.log[j]);
    }
  }

  /** The log is the answers, and at most one error response behind them. */
  lemma LogLength(w: World, all: seq<Request>, ends: seq<nat>, h: History, m: Machine, last: Machine)
    requires InOrder(w, h.requests, m, h.log) && OnlyLastOpen(w, h.requests, h.log) && h.requests <= all
    requires m.state.Error? ==> h.requests == all && m == last
    requires |ends| == |all| && AllDeliverable(w, all, ends)
    ensures |LogText(h.log)| <= Volume(w, all, ends, |all|) + ErrorVolume(w, |all|, last)
  {
    hide HeadText, PlanFor, OptionsFor, Volume, Answers, Consistent, GoesOn, Whole, CONTINUE_TEXT, AllDeliverable,
         Prefix, ErrorResponse;
    var n := |h.requests|;
    LogPrefix(w, all, h, m);
    PrefixVolume(w, all, ends, h.log, n);
    VolumeGrows(w, all, ends, n, |all|);
    if m.state.Error? {
      assert AnswersError(w, n, m, h.log[n]);
      assert h.log[..|h.log| - 1] == h.log[..n];
    } else {
      assert h.log[..n] == h.log;
    }
  }

  lemma SentAtMost(c: Connection, stream: string, ends: seq<nat>)
    requires OnStream(c, stream) && Servable(c.world, stream, ends)
    ensures |c.sock.wire| <= Enough(c.world, stream, ends)
  {
    hide Tracks, Drain, OnlyLastOpen, InOrder, Bounded, RecvScript, DataDue, InterimMatches, Residue, MustClose,
         SourceMatches, LogText, Volume, ErrorVolume, AllDeliverable, LimitsFit, CONTINUE_TEXT;
    var rest := stream[|c.sock.received|..];
    assert c.sock.received + rest == stream;
    TakenOfStream(c.world.lim, c.sock.received, rest, c.hist.requests, c.parser, c.input);
    var d := Drain(c.world.lim, START, stream);
    LogLength(c.world, d.requests, ends, c.hist, c.parser, d.m);
    assert |c.sock.wire| <= |c.sock.wire + c.Pending()|;
  }

  /** Nothing in flight ever fails: an intact file does not run dry, and no producer breaks its contract. */
  lemma SourceSound(w: World, all: seq<Request>, ends: seq<nat>, h: History, m: Machine, s: Source)
    requires InOrder(w, h.requests, m, h.log) && OnlyLastOpen(w, h.requests, h.log) && h.requests <= all
    requires SourceMatches(s, h.log, h.owed) && |ends| == |all| && AllDeliverable(w, all, ends)
    ensures !s.RanDry() && !ProducerBroken(s)
  {
    hide HeadText, PlanFor, OptionsFor, GoesOn, Whole, StreamEnded, Violates, StreamMode;
    if !s.NoSource? {
      var n := |h.log| - 1;
      assert Consistent(h.log[n]);
      SourceMeansNoError(w, h, m);
      assert Answers(w, n, h.requests[n], h.log[n]);
      assert DeliverableAt(w, all, ends, n);
    }
  }

  lemma InFlightSound(c: Connection, stream: string, ends: seq<nat>)
    requires OnStream(c, stream) && Servable(c.world, stream, ends)
    ensures !c.RanDry() && !ProducerBroken(c.source)
  {
    hide Tracks, Drain, OnlyLastOpen, InOrder, Bounded, RecvScript, DataDue, InterimMatches, Residue, MustClose, Flows,
         SourceMatches, AllDeliverable, LimitsFit, ProducerBroken;
    var rest := stream[|c.sock.received|..];
    assert c.sock.received + rest == stream;
    TakenOfStream(c.world.lim, c.sock.received, rest, c.hist.requests, c.parser, c.input);
    SourceSound(c.world, Drain(c.world.lim, START, stream).requests, ends, c.hist, c.parser, c.source);
  }

  /** The event delivers the stream, and the kernel has room for everything. */
  ghost predicate Served(c: Connection, v: Verdict, stream: string, ends: seq<nat>, sends: seq<Send>)
    reads c
  {
    && c.Valid() && c.Justified(v) && Servable(c.world, stream, ends)
    && Roomy(sends, Enough(c.world, stream, ends))
    && Went(Wake(OPEN_SOCKET, Event(true, true, EachByte(stream), sends)), c.sock)
  }

  lemma RoomyFine(ss: seq<Send>, n: nat)
    requires Roomy(ss, n)
    ensures SendFine(ss)
  {
  }

  lemma NothingPending(c: Connection, v: Verdict, stream: string, ends: seq<nat>, sends: seq<Send>)
    requires Served(c, v, stream, ends, sends)
    ensures !v.Abort? && !c.HasOutput() && c.sock.received <= stream
    ensures v.Keep? ==> c.sock.received == stream
  {
    hide Connection.Valid, Drain, LogText, Waits, LimitsFit, Residue, MustClose, Went, Enough, AllDeliverable, Roomy,
         SendFine, ProducerBroken;
    var k := Wake(OPEN_SOCKET, Event(true, true, EachByte(stream), sends));
    EachByteReceived(k, c.sock, stream);
    EachByteFine(stream);
    RoomyFine(sends, Enough(c.world, stream, ends));
    WentFine(k, c.sock);
    SentAtMost(c, stream, ends);
    WentRoomy(k, c.sock, Enough(c.world, stream, ends));
    InFlightSound(c, stream, ends);
  }

  /** Liveness: one event that delivers a stream to a server whose limits fit, with intact files, producers that keep
      their contract and end, and room in the kernel, ends with nothing left to send: every request in the stream is
      answered whole, up to and including the first that nothing may follow. */
  lemma EverythingServed(c: Connection, v: Verdict, stream: string, ends: seq<nat>, sends: seq<Send>)
    requires Served(c, v, stream, ends, sends)
    ensures !v.Abort? && !c.HasOutput() && c.sock.wire == LogText(c.hist.log) + InterimText(c.hist.owed)
    ensures var all, n := Drain(c.world.lim, START, stream).requests, |c.hist.requests|;
            && c.hist.requests <= all && |c.hist.log| == n + ErrorCount(c.parser)
            && (c.hist.requests == all || (n > 0 && ClosesAfter(c.world, n - 1, all[n - 1], c.hist.log[n - 1])))
  {
    hide Connection.Valid, Connection.Justified, Drain, LogText, LimitsFit, Went, Enough, AllDeliverable, Roomy,
         ClosesAfter, InterimText, AllWhole;
    NothingPending(c, v, stream, ends, sends);
    NothingLeftUnanswered(c, v);
    var rest := stream[|c.sock.received|..];
    assert c.sock.received + rest == stream;
    TracksOf(c);
    TakenOfStream(c.world.lim, c.sock.received, rest, c.hist.requests, c.parser, c.input);
    NotGone(c, v, stream, ends, sends);
  }

  lemma TracksOf(c: Connection)
    requires c.Valid()
    ensures Tracks(c.world.lim, c.sock.received, c.hist.requests, c.parser, c.input)
  {
    hide Tracks, Drain, OnlyLastOpen, InOrder, Bounded, RecvScript, DataDue, InterimMatches, Residue, MustClose, Flows,
         SourceMatches;
  }

  /** The stream has no end of its own. */
  lemma NotGone(c: Connection, v: Verdict, stream: string, ends: seq<nat>, sends: seq<Send>)
    requires Served(c, v, stream, ends, sends)
    ensures v.Keep? || v.Finished?
  {
    hide Connection.Valid, Drain, LogText, Waits, LimitsFit, Residue, MustClose, Went, Enough, AllDeliverable, Roomy,
         ProducerBroken;
    EachByteReceived(Wake(OPEN_SOCKET, Event(true, true, EachByte(stream), sends)), c.sock, stream);
    NothingPending(c, v, stream, ends, sends);
  }

  /** The run itself. */
  method ServeStream(w: World, stream: string, ghost ends: seq<nat>, sends: seq<Send>)
    returns (c: Connection, v: Verdict)
    requires Servable(w, stream, ends) && Roomy(sends, Enough(w, stream, ends))
    ensures c.world == w && RunOf([Event(true, true, EachByte(stream), sends)], c.sock)
    ensures Served(c, v, stream, ends, sends) && !v.Abort? && !c.HasOutput()
    ensures v.Keep? ==> c.Answered() && c.sock.received == stream
  {
    hide Connection.Valid, Connection.Justified, Drain, LogText, Went, RecvScript, Extends, Servable, Enough, Roomy,
         Residue, EachByte;
    var ev := Event(true, true, EachByte(stream), sends);
    c := new Connection(w);
    EachByteFine(stream);
    ghost var k := c.sock;
    v := OnEvent(c, ev);
    assert [ev][..0] == [] && [ev][..1] == [ev];
    RunMore([ev], 0, k, c.sock);
    NothingPending(c, v, stream, ends, sends);
    if v.Keep? {
      KeptAnswered(c);
    }
  }

  lemma KeptAnswered(c: Connection)
    requires c.Justified(Keep) && !c.HasOutput()
    ensures c.Answered()
  {
    hide Drain, LogText, Waits, LimitsFit, Residue, MustClose, AllWhole, InterimText;
  }
}
