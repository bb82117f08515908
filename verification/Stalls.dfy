/** The two ways in which a kept connection can wait for something that does not come, shown on whole runs:
    a parser that waits on a full buffer, and a file that ended before the response did. */
module Stalls {
  import opened Text
  import opened Numbers
  import opened Headers
  import opened RequestParser
  import opened Driver
  import opened Reachable
  import opened LineGrammar
  import opened Messages
  import opened Response
  import opened Requests
  import opened Exchanges
  import opened Kernel
  import opened Sending
  import opened Backlog
  import opened Connection
  import opened Runs

  // ---------- a full buffer ----------

  /** A stream that means no request, no error and no expectation so far. */
  predicate Silent(lim: Limits, stream: string) {
    var d := Drain(lim, START, stream);
    d.requests == [] && !d.m.state.Error? && !(PastHeaders(d.m) && d.m.req.expectContinue)
  }

  lemma DrainError(lim: Limits, m: Machine, x: string)
    requires m.state.Error?
    ensures Drain(lim, m, x) == Drained([], m, 0)
  {
    FeedHalted(lim, m, x);
  }

  lemma SilentSoFar(lim: Limits, received: string, rest: string, requests: seq<Request>, m: Machine, input: string)
    requires Tracks(lim, received, requests, m, input) && Silent(lim, received + rest)
    ensures requests == [] && !m.state.Error? && !Expecting(m)
    ensures rest == "" ==> |input| >= |received| - Drain(lim, START, received).used
  {
    hide Feed, Drain;
    assert TracksWith(lim, received, requests, m, input, rest);
    assert rest == "" ==> received + rest == received;
    if m.state.Error? {
      DrainError(lim, m, input + rest);
    }
    if Expecting(m) {
      FeedKeepsExpect(lim, m, input + rest);
      OneFeed(lim, m, input + rest);
    }
  }

  lemma OneFeed(lim: Limits, m: Machine, x: string)
    requires Drain(lim, m, x).requests == []
    ensures Drain(lim, m, x).m == Feed(lim, m, x).m
  {
    hide Feed;
  }

  lemma NothingLogged(w: World, h: History, m: Machine, s: Source, wire: string, pending: string)
    requires InOrder(w, h.requests, m, h.log) && SourceMatches(s, h.log, h.owed)
    requires Flows(wire, pending, h.log, h.owed) && h.requests == [] && !m.state.Error? && !h.owed
    ensures h.log == [] && s.NoSource? && pending == "" && !MustClose(w, h.requests, m, h.log)
  {
    hide Answers, AnswersError, ClosesAfter;
    assert LogText([]) + InterimText(false) == "";
  }

  /** A connection that has received part of a silent stream has nothing to say. */
  lemma NothingSaid(c: Connection, rest: string)
    requires c.Valid() && Silent(c.world.lim, c.sock.received + rest)
    ensures !c.HasOutput() && c.source.NoSource? && !c.closeAfterWrite
    ensures rest == "" ==> |c.input| >= |c.sock.received| - Drain(c.world.lim, START, c.sock.received).used
  {
    hide Tracks, Drain, InOrder, OnlyLastOpen, MustClose, Silent, Flows, SourceMatches, Bounded, RecvScript, DataDue;
    SilentSoFar(c.world.lim, c.sock.received, rest, c.hist.requests, c.parser, c.input);
    NothingLogged(c.world, c.hist, c.parser, c.source, c.sock.wire, c.Pending());
  }

  function FillingEvent(lim: Limits): Event { Event(true, true, EachByte(Filling(lim)), []) }

  lemma FillingIsSilent(lim: Limits)
    requires !LimitsFit(lim)
    ensures Silent(lim, Filling(lim))
  {
    hide Drain, Filling, LimitsFit;
    FillingWaits(lim);
  }

  /** After that event the connection is stuck. */
  lemma FillingSticks(c: Connection, v: Verdict)
    requires c.Valid() && c.Justified(v) && !LimitsFit(c.world.lim)
    requires Went(Wake(OPEN_SOCKET, FillingEvent(c.world.lim)), c.sock)
    ensures v.Keep? && c.Stuck()
  {
    hide Tracks, Drain, InOrder, OnlyLastOpen, MustClose, Flows, SourceMatches, InterimMatches, Went, Filling, Silent,
         Waits, LimitsFit, LogText, Bounded, RecvScript;
    var lim := c.world.lim;
    var k := Wake(OPEN_SOCKET, FillingEvent(lim));
    EachByteReceived(k, c.sock, Filling(lim));
    EachByteFine(Filling(lim));
    WentFine(k, c.sock);
    FillingIsSilent(lim);
    var rest := Filling(lim)[|c.sock.received|..];
    assert c.sock.received + rest == Filling(lim);
    NothingSaid(c, rest);
    FillingWaits(lim);
  }

  /** Outside the exact condition a connection does stop: on the stream that fills the buffer the server keeps one
      that has nothing to send and is never read again, whatever events follow. */
  method StuckRun(world: World, later: seq<Event>) returns (c: Connection)
    requires !LimitsFit(world.lim) && Scripts(later)
    ensures c.world == world && c.Valid() && c.Stuck()
    ensures RunOf([FillingEvent(world.lim)] + later, c.sock)
    ensures c.sock.received <= Filling(world.lim)
  {
    hide InOrder, OnlyLastOpen, MustClose, Flows, SourceMatches, Tracks, InterimMatches, LogText, Drain, Went,
         Bounded, Waits, LimitsFit, Filling, Residue, RecvScript, Connection.Valid, Connection.Stuck,
         Connection.Justified;
    var events := [FillingEvent(world.lim)] + later;
    c := new Connection(world);
    EachByteFine(Filling(world.lim));
    assert events[..0] == [];
    ghost var k := c.sock;
    var v := OnEvent(c, events[0]);
    EachByteReceived(Wake(k, events[0]), c.sock, Filling(world.lim));
    RunMore(events, 0, k, c.sock);
    FillingSticks(c, v);
    KeptAlive(c);
    var i := 1;
    while i < |events|
      invariant 1 <= i <= |events| && fresh(c) && c.world == world
      invariant c.Valid() && c.Stuck() && Alive(c.sock) && c.sock.received <= Filling(world.lim)
      invariant RunOf(events[..i], c.sock)
    {
      k := c.sock;
      v := OnEvent(c, events[i]);
      RunMore(events, i, k, c.sock);
      KeptAlive(c);
      i := i + 1;
    }
    assert events[..|events|] == events;
  }

  // ---------- a file that ends early ----------

  /** How many bytes of what it promises the file has. */
  function Present(f: FileBody): nat { if f.offset < |f.content| then |f.content| - f.offset else 0 }

  /** The never half, at every point of every run: a connection that may not write although the socket has room is
      sending a file that has some of the bytes promised and not all, and all that it has is on the wire. With a
      file that has them all, or none, or without a file, a short write leaves a full socket. */
  lemma ParksOnlyOnEarlyEnd(c: Connection)
    requires c.Valid() && !c.canWrite && !c.sock.full
    ensures c.hist.log != []
    ensures var e := c.hist.log[|c.hist.log| - 1];
            && e.plan.FromFile? && 0 < Present(e.plan.file) < e.plan.file.length
            && e.k == Present(e.plan.file) && !e.over && c.sock.wire == LogText(c.hist.log)
  {
    hide Tracks, Drain, InOrder, MustClose, Flows, Bounded, RecvScript, DataDue, InterimMatches, LogText, Residue,
         GoesOn, Whole;
    assert Consistent(c.hist.log[|c.hist.log| - 1]);
    assert c.Pending() == [];
    FlowsDrained(c.sock.wire, c.hist.log, c.hist.owed);
    assert LogText(c.hist.log) + "" == LogText(c.hist.log);
  }

  /** The response promises more than its file has. */
  predicate TooShort(f: FileBody) { Present(f) < f.length }

  /** Such a response is being sent. */
  ghost predicate InFlight(c: Connection)
    reads c
  {
    c.Valid() && c.source.FileSource? && TooShort(c.source.file)
  }

  /** How much of its file has been sent, and how many bytes come before the file's. */
  ghost function Counted(log: seq<Exchange>): nat { if log == [] then 0 else log[|log| - 1].k }

  ghost function Ahead(log: seq<Exchange>): nat {
    if log == [] then 0
    else
      var e := log[|log| - 1];
      |LogText(log[..|log| - 1])| + |InterimText(e.interim)| + |e.head|
  }

  lemma SourceIsFile(w: World, h: History, s: Source)
    requires OnlyLastOpen(w, h.requests, h.log) && SourceMatches(s, h.log, h.owed)
    requires s.FileSource? && TooShort(s.file)
    ensures h.log != [] && h.log[|h.log| - 1].plan == FromFile(s.file) && !h.owed && !h.log[|h.log| - 1].over
    ensures s.off == s.file.offset + Counted(h.log) && Counted(h.log) <= Present(s.file)
    ensures Counted(h.log) > 0 ==> s.off <= |s.file.content|
  {
    hide GoesOn, Whole;
    assert Consistent(h.log[|h.log| - 1]);
  }

  lemma LogTextLast(log: seq<Exchange>, f: FileBody)
    requires log != [] && log[|log| - 1].plan == FromFile(f)
    requires Counted(log) > 0 ==> f.offset + Counted(log) <= |f.content|
    ensures |LogText(log)| == Ahead(log) + Counted(log)
  {
    hide InterimText;
    var k := |log| - 1;
    assert LogText(log) == LogText(log[..k]) + ExchangeText(log[k]);
    assert |FileText(f, log[k].k)| == log[k].k;
  }

  lemma FlowsLength(wire: string, pending: string, log: seq<Exchange>)
    requires Flows(wire, pending, log, false)
    ensures |wire| + |pending| == |LogText(log)|
  {
    hide LogText;
    assert |wire + pending| == |LogText(log) + ""|;
  }

  /** Bytes sent and queued are those ahead of the file and as much of it as is counted; once some of the file is sent
      nothing is queued. */
  lemma SentSoFar(c: Connection)
    requires InFlight(c)
    ensures c.hist.log != [] && c.hist.log[|c.hist.log| - 1].plan == FromFile(c.source.file) && c.HasOutput()
    ensures c.source.off == c.source.file.offset + Counted(c.hist.log)
    ensures Counted(c.hist.log) <= Present(c.source.file)
    ensures c.source.RanDry() <==> Counted(c.hist.log) == Present(c.source.file)
    ensures |c.sock.wire| + |c.Pending()| == Ahead(c.hist.log) + Counted(c.hist.log)
    ensures Counted(c.hist.log) > 0 ==> c.Pending() == []
  {
    hide Tracks, Drain, OnlyLastOpen, MustClose, SourceMatches, Bounded, RecvScript, DataDue, InterimMatches, Residue,
         InOrder, Flows, Ahead, LogText;
    SourceIsFile(c.world, c.hist, c.source);
    FlowsLength(c.sock.wire, c.Pending(), c.hist.log);
    LogTextLast(c.hist.log, c.source.file);
  }

  ghost predicate SameHead(a: seq<Exchange>, b: seq<Exchange>) {
    a != [] && |b| >= |a| && b[|a| - 1].head == a[|a| - 1].head
  }

  /** It stays in flight: its file can never be sent whole, so no other response can follow. */
  lemma StaysInFlight(h: History, c: Connection, f: FileBody)
    requires c.Valid() && Extends(h, c.hist) && TooShort(f)
    requires h.log != [] && h.log[|h.log| - 1].plan == FromFile(f)
    ensures InFlight(c) && c.source.file == f && |c.hist.log| == |h.log| && c.hist.base == h.base
    ensures Ahead(c.hist.log) == Ahead(h.log) && SameHead(h.log, c.hist.log)
  {
    hide Tracks, Drain, InOrder, MustClose, Flows, Bounded, RecvScript, DataDue, InterimMatches, Residue, GoesOn,
         LogText;
    var n := |h.log| - 1;
    assert Consistent(c.hist.log[n]);
    assert n < |c.hist.log| - 1 ==> Whole(c.hist.log[n]);
  }

  /** A connection with the file in flight is kept after a short write, or given up. */
  lemma FileVerdict(c: Connection, v: Verdict)
    requires InFlight(c) && c.Justified(v) && !c.sock.failed
    ensures if v.Keep? then Alive(c.sock) && c.sock.short && (c.sock.full || c.Parked())
            else v.Abort? && c.sock.eof && c.RanDry()
  {
    hide Connection.Valid, Drain, LogText, Waits, LimitsFit, Residue, MustClose;
  }

  /** With room for everything the file is sent as far as it goes; then the server gives up if that is where it stood
      in its block, and otherwise waits although the socket has room. */
  lemma RoomyFate(c: Connection, v: Verdict)
    requires InFlight(c) && c.Justified(v) && !c.sock.full && !c.sock.failed && (c.sock.eof ==> !c.sock.short)
    ensures Counted(c.hist.log) == Present(c.source.file) && c.Pending() == []
    ensures v == if Residue(c.source) == c.hist.base then Abort else Keep
    ensures v.Keep? ==> c.HasOutput() && !c.canWrite
  {
    hide Tracks, Drain, OnlyLastOpen, InOrder, Bounded, RecvScript, DataDue, InterimMatches, Residue, MustClose, Flows,
         SourceMatches, Connection.Justified, Ahead;
    FileVerdict(c, v);
    SentSoFar(c);
  }

  // ---------- a kernel under which it waits ----------

  const TRICKLE := Event(false, true, [], [Room(1)])

  /** An event with room for one byte, while more than one byte of the file is left: one byte is sent. */
  method OneByte(c: Connection)
    requires InFlight(c) && Alive(c.sock) && Counted(c.hist.log) + 1 < Present(c.source.file)
    modifies c
    ensures InFlight(c) && Alive(c.sock) && c.source.file == old(c.source.file)
    ensures Went(Wake(old(c.sock), TRICKLE), c.sock) && |c.sock.wire| == old(|c.sock.wire|) + 1
    ensures Ahead(c.hist.log) == old(Ahead(c.hist.log)) && Counted(c.hist.log) <= old(Counted(c.hist.log)) + 1
  {
    hide Connection.Valid, Connection.Justified, Drain, Went, Residue, Extends, Ahead, Counted;
    SentSoFar(c);
    ghost var k, h, f := Wake(c.sock, TRICKLE), c.hist.(base := Residue(c.source)), c.source.file;
    var v := OnEvent(c, TRICKLE);
    WentFine(k, c.sock);
    WentTrickle(k, c.sock);
    StaysInFlight(h, c, f);
    FileVerdict(c, v);
    SentSoFar(c);
  }

  function Flood(n: nat): Event { Event(false, true, [], seq(n + 1, _ => Room(n + 1))) }

  lemma FloodFine(n: nat)
    ensures SendFine(Flood(n).sends) && Roomy(Flood(n).sends, n) && Flood(n).recvs == []
  {
  }

  lemma NextResidue(n: nat)
    requires n > 0
    ensures (n - 1) % SENDFILE_MAX != n % SENDFILE_MAX
  {
    var b := SENDFILE_MAX;
    assert n == b * (n / b) + n % b && n - 1 == b * ((n - 1) / b) + (n - 1) % b;
  }

  lemma ResidueAt(s: Source)
    requires s.FileSource? && s.off >= s.file.offset
    ensures Residue(s) == (s.off - s.file.offset) % SENDFILE_MAX
  {
  }

  /** All that there is to send has been sent: every exchange, and every byte that the file has. */
  ghost predicate AllOut(c: Connection)
    reads c
  {
    && c.source.FileSource? && c.hist.log != [] && c.sock.wire == LogText(c.hist.log)
    && var f := c.source.file;
    BodyText(c.hist.log[|c.hist.log| - 1]) == if f.offset < |f.content| then f.content[f.offset..] else ""
  }

  lemma EverythingOut(c: Connection)
    requires InFlight(c) && Counted(c.hist.log) == Present(c.source.file) && c.Pending() == []
    ensures AllOut(c)
  {
    hide Tracks, Drain, OnlyLastOpen, InOrder, Bounded, RecvScript, DataDue, InterimMatches, Residue, MustClose, Flows,
         SourceMatches, Ahead, LogText;
    SentSoFar(c);
    SourceIsFile(c.world, c.hist, c.source);
    FlowsDrained(c.sock.wire, c.hist.log, false);
    assert LogText(c.hist.log) + "" == LogText(c.hist.log);
  }

  /** An event with room for everything: all the bytes there are get sent, and then the connection is given up if a
      whole number of blocks was left, and kept with output pending on a socket with room if not. */
  method SendTheRest(c: Connection, n: nat) returns (v: Verdict)
    requires InFlight(c) && Alive(c.sock) && n >= Ahead(c.hist.log) + Present(c.source.file)
    modifies c
    ensures InFlight(c) && c.source.file == old(c.source.file) && c.Justified(v)
    ensures |c.hist.log| == |old(c.hist.log)| && SameHead(old(c.hist.log), c.hist.log)
    ensures Went(Wake(old(c.sock), Flood(n)), c.sock)
    ensures Counted(c.hist.log) == Present(c.source.file) && !c.sock.full && AllOut(c)
    ensures v == if Present(c.source.file) % SENDFILE_MAX == old(Counted(c.hist.log)) % SENDFILE_MAX then Abort
                 else Keep
    ensures v.Keep? ==> c.HasOutput() && !c.canWrite
  {
    hide Connection.Valid, Connection.Justified, Drain, Went, Residue, Extends, Ahead, Counted, SendFine, Roomy;
    SentSoFar(c);
    ResidueAt(c.source);
    ghost var k, h, f := Wake(c.sock, Flood(n)), c.hist.(base := Residue(c.source)), c.source.file;
    FloodFine(n);
    v := OnEvent(c, Flood(n));
    WentFine(k, c.sock);
    WentWrites(k, c.sock);
    StaysInFlight(h, c, f);
    SentSoFar(c);
    WentRoomy(k, c.sock, n);
    RoomyFate(c, v);
    ResidueAt(c.source);
    EverythingOut(c);
  }

  /** What these events and the calls made for them make of a socket. */
  ghost predicate After(k: Socket, events: seq<Event>, k': Socket) {
    if events == [] then k' == k
    else
      var n := |events| - 1;
      exists p {:trigger After(k, events[..n], p)} :: After(k, events[..n], p) && Went(Wake(p, events[n]), k')
  }

  lemma AfterMore(k: Socket, events: seq<Event>, p: Socket, ev: Event, k': Socket)
    requires After(k, events, p) && Went(Wake(p, ev), k')
    ensures After(k, events + [ev], k')
  {
    hide Went;
    assert (events + [ev])[..|events|] == events;
  }

  lemma {:induction false} RunAfter(before: seq<Event>, k: Socket, events: seq<Event>, k': Socket)
    requires RunOf(before, k) && After(k, events, k')
    ensures RunOf(before + events, k')
    decreases |events|
  {
    hide Went, RunOf;
    if events == [] {
      assert before + events == before;
    } else {
      var n := |events| - 1;
      var p :| After(k, events[..n], p) && Went(Wake(p, events[n]), k');
      RunAfter(before, k, events[..n], p);
      var all := before + events;
      assert all[..|all| - 1] == before + events[..n] && all[|all| - 1] == events[n];
      RunMore(all, |all| - 1, p, k');
      assert all[..|all|] == all;
    }
  }

  /** The parking half: from every point of every run at which a file that has too few bytes still has some to send,
      a kernel leads the connection to be kept with output pending, unable to write, on a socket with room. It takes
      the bytes one at a time up to the last, and then has room for more. */
  method Park(c: Connection) returns (events: seq<Event>)
    requires InFlight(c) && Alive(c.sock) && c.source.off < |c.source.file.content|
    modifies c
    ensures After(old(c.sock), events, c.sock) && Scripts(events)
    ensures InFlight(c) && c.Justified(Keep) && c.HasOutput() && !c.canWrite && !c.sock.full
  {
    hide Connection.Valid, Connection.Justified, Drain, Went, Residue, Ahead, Counted, After, AllOut, SameHead, LogText,
         Flood;
    ghost var k, f := c.sock, c.source.file;
    events := [];
    AfterNone(k);
    SentSoFar(c);
    while |c.source.file.content| - c.source.off > 1
      invariant InFlight(c) && Alive(c.sock) && c.source.file == f && c.source.off < |f.content|
      invariant After(k, events, c.sock) && Scripts(events)
      decreases Ahead(c.hist.log) + Present(f) - |c.sock.wire|
    {
      SentSoFar(c);
      ghost var p := c.sock;
      OneByte(c);
      AfterMore(k, events, p, TRICKLE, c.sock);
      events := events + [TRICKLE];
      SentSoFar(c);
    }
    SentSoFar(c);
    NextResidue(Present(f));
    ghost var p := c.sock;
    var n := RoomNeeded(c);
    var v := SendTheRest(c, n);
    AfterMore(k, events, p, Flood(n), c.sock);
    FloodFine(n);
    events := events + [Flood(n)];
  }

  lemma AfterNone(k: Socket)
    ensures After(k, [], k)
  {
  }

  /** Room enough for what is queued and the rest of the file, in terms of the connection's own fields. */
  method RoomNeeded(c: Connection) returns (n: nat)
    requires InFlight(c)
    ensures n >= Ahead(c.hist.log) + Present(c.source.file)
  {
    hide Tracks, Drain, OnlyLastOpen, InOrder, Bounded, RecvScript, DataDue, InterimMatches, Residue, MustClose, Flows,
         SourceMatches, Ahead, Counted;
    SentSoFar(c);
    n := |c.sock.wire| + |c.out| + |c.source.file.content|;
  }

  // ---------- from the first byte ----------

  /** The first request on the connection is `msg`, and its response promises more than its file has. */
  predicate PromisesTooMuch(w: World, msg: string) {
    Exact(w.lim, msg) && FirstPlan(w, msg).FromFile? && TooShort(FirstPlan(w, msg).file)
  }

  function FirstRequest(w: World, msg: string): Request { Feed(w.lim, START, msg).m.req }

  function FirstPlan(w: World, msg: string): Plan { PlanFor(w.handler(0, FirstRequest(w, msg)), FirstRequest(w, msg)) }

  function FirstHead(w: World, msg: string): string {
    HeadText(w.handler(0, FirstRequest(w, msg)), OptionsFor(w, 0, FirstRequest(w, msg)))
  }

  /** No part of the message, arriving alone, fills the buffer; limits that fit see to that for every message. */
  ghost predicate NeverFills(lim: Limits, msg: string) {
    forall k {:trigger msg[..k]} :: 0 <= k <= |msg| ==> LeavesRoom(lim, msg[..k])
  }

  lemma FitNeverFills(lim: Limits, msg: string)
    requires LimitsFit(lim)
    ensures NeverFills(lim, msg)
  {
    hide LeavesRoom, LimitsFit;
    forall k {:trigger msg[..k]} | 0 <= k <= |msg|
      ensures LeavesRoom(lim, msg[..k])
    {
      FitLeavesRoom(lim, msg[..k]);
    }
  }

  lemma OneMessage(lim: Limits, msg: string)
    requires Exact(lim, msg)
    ensures Drain(lim, START, msg) == Drained([Feed(lim, START, msg).m.req], START, |msg|)
  {
    hide Feed;
    DrainExact(lim, msg, "");
    assert msg + "" == msg;
    FeedNothing(lim, START);
    EmptyDrain(lim);
  }

  lemma EmptyDrain(lim: Limits)
    ensures Drain(lim, START, "") == Drained([], START, 0)
  {
    hide Feed;
    FindCrlfEmpty();
    FeedTurn(lim, START, "");
  }

  /** Of one message at most its request has been taken, and there is no error. */
  lemma OneAtMost(lim: Limits, received: string, rest: string, requests: seq<Request>, m: Machine, input: string)
    requires Tracks(lim, received, requests, m, input) && Exact(lim, received + rest)
    ensures requests <= [Feed(lim, START, received + rest).m.req] && !m.state.Error?
  {
    hide Feed, Drain;
    assert TracksWith(lim, received, requests, m, input, rest);
    OneMessage(lim, received + rest);
    if m.state.Error? {
      DrainError(lim, m, input + rest);
    }
  }

  /** The connection has received part of `msg` and nothing else. */
  ghost predicate OnMessage(c: Connection, msg: string)
    reads c
  {
    c.Valid() && PromisesTooMuch(c.world, msg) && c.sock.received <= msg
  }

  /** Its one response has been begun. */
  ghost predicate OnFile(c: Connection, msg: string)
    reads c
  {
    && InFlight(c) && |c.hist.log| == 1 && c.hist.log[0].head == FirstHead(c.world, msg)
    && FirstPlan(c.world, msg) == FromFile(c.source.file)
  }

  lemma PlanInFlight(w: World, h: History, s: Source, f: FileBody)
    requires OnlyLastOpen(w, h.requests, h.log) && SourceMatches(s, h.log, h.owed) && |h.log| == 1
    requires h.log[0].plan == FromFile(f) && TooShort(f)
    ensures s.FileSource? && s.file == f
  {
    hide GoesOn, Whole;
    assert Consistent(h.log[0]);
  }

  lemma BegunOrNot(c: Connection, msg: string)
    requires OnMessage(c, msg)
    ensures !c.parser.state.Error?
    ensures if c.hist.requests == [] then c.hist.log == [] else OnFile(c, msg)
  {
    hide Tracks, Drain, OnlyLastOpen, MustClose, Flows, SourceMatches, Bounded, RecvScript, DataDue, Exact, Feed,
         HeadText, PlanFor, OptionsFor, InterimMatches, Residue;
    var rest := msg[|c.sock.received|..];
    assert c.sock.received + rest == msg;
    OneAtMost(c.world.lim, c.sock.received, rest, c.hist.requests, c.parser, c.input);
    if c.hist.requests != [] {
      assert Answers(c.world, 0, c.hist.requests[0], c.hist.log[0]);
      PlanInFlight(c.world, c.hist, c.source, FirstPlan(c.world, msg).file);
    }
  }

  function Deliver(msg: string, sends: seq<Send>): Event { Event(true, true, EachByte(msg), sends) }

  /** A new connection came back from an event that delivers the message. */
  ghost predicate Served(c: Connection, v: Verdict, msg: string, sends: seq<Send>)
    reads c
  {
    && c.Valid() && c.Justified(v) && PromisesTooMuch(c.world, msg) && NeverFills(c.world.lim, msg) && SendFine(sends)
    && Went(Wake(OPEN_SOCKET, Deliver(msg, sends)), c.sock)
  }

  lemma NothingTakenYet(c: Connection)
    requires c.Valid() && c.hist.requests == [] && c.hist.log == [] && !c.parser.state.Error?
    ensures c.source.NoSource? && !MustClose(c.world, c.hist.requests, c.parser, c.hist.log) && !c.HeldBack()
  {
    hide Tracks, Drain, OnlyLastOpen, ClosesAfter, InOrder, Bounded, RecvScript, DataDue, InterimMatches, Residue;
    assert LogText([]) == "";
    assert |c.Pending()| <= |c.sock.wire + c.Pending()| && |CONTINUE_TEXT| == 25;
  }

  lemma WholeMessage(w: World, msg: string)
    requires PromisesTooMuch(w, msg)
    ensures Drain(w.lim, START, msg).requests != []
  {
    OneMessage(w.lim, msg);
  }

  /** A quiet connection that holds nothing back has read and taken the whole message. */
  lemma QuietHasAll(c: Connection, msg: string)
    requires OnMessage(c, msg) && NeverFills(c.world.lim, msg) && c.Quiet() && !c.sock.ended
    requires !c.closeAfterWrite && !c.HeldBack() && (c.sock.dry ==> c.sock.received == msg)
    ensures c.hist.requests == Drain(c.world.lim, START, msg).requests
  {
    hide Tracks, Drain, OnlyLastOpen, InOrder, Bounded, RecvScript, DataDue, InterimMatches, Residue, MustClose, Flows,
         SourceMatches, PromisesTooMuch, Waits, LeavesRoom;
    var k := |c.sock.received|;
    assert msg[..k] == c.sock.received;
    if c.canRead && c.input != [] {
      WaitingLeavesRoom(c.world.lim, c.sock.received, c.hist.requests, c.parser, c.input);
    }
    TracksAll(c.world.lim, c.sock.received, c.hist.requests, c.parser, c.input);
  }

  /** The request has been taken and its file is in flight. */
  lemma RequestTaken(c: Connection, v: Verdict, msg: string, sends: seq<Send>)
    requires Served(c, v, msg, sends)
    ensures OnFile(c, msg) && !c.sock.failed
  {
    hide Connection.Valid, Drain, LogText, Waits, LimitsFit, FirstPlan, FirstHead, FirstRequest, PromisesTooMuch,
         Residue, MustClose, Went, NeverFills, OnFile;
    var k := Wake(OPEN_SOCKET, Deliver(msg, sends));
    EachByteReceived(k, c.sock, msg);
    EachByteFine(msg);
    WentFine(k, c.sock);
    BegunOrNot(c, msg);
    if c.hist.requests == [] {
      NothingTakenYet(c);
      NotClosing(c);
      WholeMessage(c.world, msg);
      if v.Keep? {
        QuietHasAll(c, msg);
      }
    }
  }

  lemma NotClosing(c: Connection)
    requires c.Valid()
    ensures c.closeAfterWrite == MustClose(c.world, c.hist.requests, c.parser, c.hist.log)
    ensures c.sock.eof ==> c.RanDry()
  {
    hide Tracks, Drain, OnlyLastOpen, InOrder, Bounded, RecvScript, DataDue, InterimMatches, Residue, MustClose, Flows,
         SourceMatches;
  }

  /** The message arrives and its response is begun, on a socket without room. */
  method BeginFile(c: Connection, msg: string)
    requires c.Valid() && c.sock == OPEN_SOCKET && PromisesTooMuch(c.world, msg) && NeverFills(c.world.lim, msg)
    modifies c
    ensures OnFile(c, msg) && Alive(c.sock) && Counted(c.hist.log) == 0
    ensures Went(Wake(OPEN_SOCKET, Deliver(msg, [])), c.sock)
  {
    hide Connection.Valid, Connection.Justified, LogText, Drain, Went, RecvScript, PromisesTooMuch, FirstPlan,
         FirstHead, FirstRequest, NeverFills, Residue, Extends, Ahead, Counted;
    EachByteFine(msg);
    var v := OnEvent(c, Deliver(msg, []));
    RequestTaken(c, v, msg, []);
    WentTrickle(Wake(OPEN_SOCKET, Deliver(msg, [])), c.sock);
    FileVerdict(c, v);
    SentSoFar(c);
  }

  lemma RunNone()
    ensures RunOf([], OPEN_SOCKET)
  {
  }

  lemma RunOne(ev: Event, k: Socket)
    requires Went(Wake(OPEN_SOCKET, ev), k)
    ensures RunOf([ev], k)
  {
    hide Went;
    assert [ev][..0] == [] && [ev][..1] == [ev];
    RunNone();
    RunMore([ev], 0, OPEN_SOCKET, k);
  }

  /** Every response that promises more than its file has, once the socket has room for all of it: it is given up if
      the bytes present are a whole number of blocks, none included, and parked if not. */
  method ShortFileRun(w: World, msg: string) returns (c: Connection, v: Verdict, n: nat)
    requires PromisesTooMuch(w, msg) && NeverFills(w.lim, msg)
    ensures c.world == w && c.Valid() && RunOf([Deliver(msg, []), Flood(n)], c.sock) && c.Justified(v)
    ensures OnFile(c, msg) && AllOut(c) && !c.sock.full
    ensures v == if Present(FirstPlan(w, msg).file) % SENDFILE_MAX == 0 then Abort else Keep
    ensures v.Keep? ==> c.HasOutput() && !c.canWrite
  {
    hide Connection.Valid, Connection.Justified, LogText, Drain, Went, PromisesTooMuch, FirstPlan, FirstHead,
         FirstRequest, NeverFills, Residue, Extends, RunOf, Ahead, AllOut;
    c := new Connection(w);
    BeginFile(c, msg);
    RunOne(Deliver(msg, []), c.sock);
    n := RoomNeeded(c);
    ghost var k, h := c.sock, c.hist;
    v := SendTheRest(c, n);
    RunTwo(Deliver(msg, []), k, Flood(n), c.sock);
  }

  lemma RunTwo(a: Event, p: Socket, b: Event, k: Socket)
    requires RunOf([a], p) && Went(Wake(p, b), k)
    ensures RunOf([a, b], k)
  {
    hide Went, RunOf;
    assert [a, b][..1] == [a] && [a, b][..2] == [a, b];
    RunMore([a, b], 1, p, k);
  }

  /** So whenever a file has some of the bytes promised and not all, the response can park: a whole run that does. */
  method ParkingRun(w: World, msg: string) returns (c: Connection, events: seq<Event>)
    requires PromisesTooMuch(w, msg) && NeverFills(w.lim, msg) && Present(FirstPlan(w, msg).file) > 0
    ensures c.world == w && c.Valid() && Scripts(events) && RunOf(events, c.sock) && c.Justified(Keep)
    ensures c.HasOutput() && !c.canWrite && !c.sock.full
  {
    hide Connection.Valid, Connection.Justified, LogText, Drain, Went, PromisesTooMuch, FirstPlan, FirstHead,
         FirstRequest, NeverFills, Residue, Extends, RunOf, After, Ahead;
    c := new Connection(w);
    BeginFile(c, msg);
    RunOne(Deliver(msg, []), c.sock);
    SentSoFar(c);
    ghost var k := c.sock;
    var later := Park(c);
    RunAfter([Deliver(msg, [])], k, later, c.sock);
    EachByteFine(msg);
    events := [Deliver(msg, [])] + later;
  }

  const TWO_BYTES := FileBody("ab", 0, 5)

  /** A server that answers everything with five bytes of a file that has two. */
  const TWO_OF_FIVE :=
    World(DEFAULT_LIMITS, (_, _) => Response(200, [], "", Some(TWO_BYTES), None, None), _ => "", _ => false)

  const HOST_ONLY := [Field("Host", "")]

  function PlainGet(): Message { RequestMessage("GET", "/", HOST_ONLY, "") }

  lemma PlainGetClean()
    ensures CleanRequest("GET", "/", Origin, "/", "", HOST_ONLY)
  {
    NamesDiffer();
    assert IsWord("GET") && IsToken("Host");
  }

  lemma PlainGetFits()
    ensures WithinLimits(DEFAULT_LIMITS, PlainGet(), "")
  {
    hide Pow;
    var fs := HOST_ONLY + [LengthOf("")];
    var ls := RenderAll(fs);
    assert ToBase(0, 10) == "0";
    assert |CONTENT_LENGTH| == 14 && |"Host"| == 4 && |VERSION_PREFIX| == 7;
    assert |ls| == 2 && |ls[0]| == 6 && |ls[1]| == 17;
    assert ls[1..] == [ls[1]] && ls[1..][1..] == [];
    assert |Lines(ls[1..])| == 19;
    assert |Lines(ls)| == 27;
  }

  /** The case is real: a plain request to that server, under the default limits, meets the conditions of
      `ParkingRun`, and the two bytes are no whole block. */
  lemma TwoOfFiveStalls()
    ensures PromisesTooMuch(TWO_OF_FIVE, Encode(PlainGet())) && NeverFills(TWO_OF_FIVE.lim, Encode(PlainGet()))
    ensures Present(FirstPlan(TWO_OF_FIVE, Encode(PlainGet())).file) % SENDFILE_MAX == 2
  {
    hide Feed, Encode, RequestMessage, WithinLimits, CleanRequest, RenderAll, NeverFills, LimitsFit;
    PlainGetClean();
    PlainGetFits();
    RequestRoundTrip(DEFAULT_LIMITS, "GET", "/", Origin, "/", "", HOST_ONLY, "", "");
    assert Encode(PlainGet()) + "" == Encode(PlainGet());
    DefaultLimitsFit();
    FitNeverFills(DEFAULT_LIMITS, Encode(PlainGet()));
    assert |"GET"| == 3 && |"HEAD"| == 4 && |"ab"| == 2;
  }
}
