/** Whole runs of a connection: any sequence of epoll events, each with any kernel behaviour. */
module Runs {
  import opened Numbers
  import opened RequestParser
  import opened Driver
  import opened Reachable
  import opened Budget
  import opened Response
  import opened Exchanges
  import opened Kernel
  import opened Sending
  import opened Backlog
  import opened Connection

  method OnEvent(c: Connection, ev: Event) returns (v: Verdict)
    requires c.Valid() && Alive(c.sock) && RecvScript(ev.recvs)
    modifies c
    ensures c.Valid() && Went(Wake(old(c.sock), ev), c.sock) && c.Justified(v)
    ensures Extends(if ev.writable then old(c.hist).(base := Residue(old(c.source))) else old(c.hist), c.hist)
    ensures old(c.Stuck()) ==> v.Keep? && c.Stuck() && c.sock == Wake(old(c.sock), ev)
  {
    hide InOrder, OnlyLastOpen, MustClose, Flows, SourceMatches, Tracks, InterimMatches, LogText, Drain, Went,
         c.Justified, Bounded, Waits, Residue;
    if ev.readable { c.canRead := true; }
    if ev.writable {
      c.canWrite := true;
      c.hist := c.hist.(base := Residue(c.source));
    }
    c.sock := Wake(c.sock, ev);
    v := c.Drive();
  }

  /** The socket after these events and the calls made for each, from the moment it was opened. */
  ghost predicate RunOf(events: seq<Event>, k: Socket) {
    if events == [] then k == OPEN_SOCKET
    else
      var n := |events| - 1;
      exists p {:trigger RunOf(events[..n], p)} :: RunOf(events[..n], p) && Went(Wake(p, events[n]), k)
  }

  predicate Scripts(events: seq<Event>) { forall i :: 0 <= i < |events| ==> RecvScript(events[i].recvs) }

  /** Serves a connection until it must be closed or there are no more events. */
  method Serve(world: World, events: seq<Event>) returns (c: Connection, v: Verdict, served: nat)
    requires Scripts(events)
    ensures c.world == world && c.Valid()
    ensures served <= |events| && RunOf(events[..served], c.sock)
    ensures v.Keep? ==> served == |events|
    ensures if served > 0 then c.Justified(v) else v.Keep?
  {
    hide InOrder, OnlyLastOpen, MustClose, Flows, SourceMatches, Tracks, InterimMatches, LogText, Drain, Went,
         Bounded, Waits, Connection.Justified;
    c := new Connection(world);
    v, served := Keep, 0;
    while served < |events| && v.Keep?
      invariant served <= |events| && fresh(c) && c.world == world && c.Valid()
      invariant v.Keep? ==> Alive(c.sock)
      invariant RunOf(events[..served], c.sock)
      invariant if served > 0 then c.Justified(v) else v.Keep?
    {
      ghost var k := c.sock;
      v := OnEvent(c, events[served]);
      RunMore(events, served, k, c.sock);
      if v.Keep? {
        KeptAlive(c);
      }
      served := served + 1;
    }
  }

  lemma RunMore(events: seq<Event>, n: nat, p: Socket, k: Socket)
    requires n < |events| && RunOf(events[..n], p) && Went(Wake(p, events[n]), k)
    ensures RunOf(events[..n + 1], k)
  {
    hide Went;
    assert events[..n + 1][..n] == events[..n];
  }

  lemma KeptAlive(c: Connection)
    requires c.Justified(Keep)
    ensures Alive(c.sock)
  {
  }

  /** The bytes of the first `used[i]` answers to `recv` of each event. */
  function Delivered(events: seq<Event>, used: seq<nat>): string
    requires |used| == |events|
  {
    if events == [] then ""
    else
      var n := |events| - 1;
      var answers := if used[n] <= |events[n].recvs| then events[n].recvs[..used[n]] else [];
      Delivered(events[..n], used[..n]) + Arrived(answers)
  }

  /** What a run has received is what the kernel delivered: of each event's answers those used up, in order. */
  lemma {:induction false} RunReceives(events: seq<Event>, k: Socket) returns (used: seq<nat>)
    requires RunOf(events, k)
    ensures |used| == |events| && forall i :: 0 <= i < |used| ==> used[i] <= |events[i].recvs|
    ensures k.received == Delivered(events, used)
    decreases |events|
  {
    hide Went, Arrived;
    if events == [] {
      used := [];
    } else {
      var n := |events| - 1;
      var p :| RunOf(events[..n], p) && Went(Wake(p, events[n]), k);
      var before := RunReceives(events[..n], p);
      WentReads(Wake(p, events[n]), k);
      used := before + [|events[n].recvs| - |k.recvs|];
      assert used[..n] == before;
    }
  }

  /** No lost wake-up, read off the scripts. A connection kept with nothing to send was told by the last answer
      to `recv`, now or before an event without readability, that there is nothing to read. One kept with
      output was told so by the last write, or used up all the room there was; only a file that ended early
      makes an exception. */
  lemma NoLostWakeup(c: Connection, before: Socket, ev: Event)
    requires c.Valid() && c.Justified(Keep) && Went(Wake(before, ev), c.sock) && LimitsFit(c.world.lim)
    ensures !c.HasOutput() ==>
              || (before.dry && !ev.readable)
              || c.sock.recvs == [] || LastUsed(ev.recvs, c.sock.recvs, RecvBlocks)
    ensures c.HasOutput() ==>
              && (c.sock.full || c.Parked())
              && ((before.short && !ev.writable) || exists p :: StoppedBy(Wake(before, ev), c.sock, p))
  {
    hide Connection.Valid, Went, LimitsFit, Drain, LogText, Waits, Arrived;
    WentReads(Wake(before, ev), c.sock);
    WentWrites(Wake(before, ev), c.sock);
  }

  /** Half-close and close: when `drive` returns with nothing to send, all that was said is on the wire, and what
      was said answers every complete request received, up to and including the first that nothing may follow.
      It ends the connection itself only on such a request or on input that cannot be parsed. */
  lemma NothingLeftUnanswered(c: Connection, v: Verdict)
    requires c.Valid() && c.Justified(v) && !v.Abort? && !c.HasOutput()
    ensures c.sock.wire == LogText(c.hist.log) + InterimText(c.hist.owed)
    ensures |c.hist.log| == |c.hist.requests| + ErrorCount(c.parser)
    ensures var all := Drain(c.world.lim, START, c.sock.received).requests;
            var n := |c.hist.requests|;
            && c.hist.requests <= all
            && (c.hist.requests == all || (n > 0 && ClosesAfter(c.world, n - 1, all[n - 1], c.hist.log[n - 1])))
            && (forall j {:trigger c.hist.log[j]} :: 0 <= j < n - 1 ==> !ClosesAfter(c.world, j, all[j], c.hist.log[j]))
            && (v.Finished? ==>
                  c.parser.state.Error? || (n > 0 && ClosesAfter(c.world, n - 1, all[n - 1], c.hist.log[n - 1])))
            && (!v.Finished? ==> c.hist.requests == all && AllWhole(c.hist.log))
  {
    hide Tracks, Flows, SourceMatches, InterimMatches, Answers, AnswersError, Bounded, Drain, LogText, Waits, LimitsFit,
         GoesOn, Consistent, Whole;
    WireOrder(c);
    AllSent(c);
    var all := Drain(c.world.lim, START, c.sock.received).requests;
    forall j {:trigger c.hist.log[j]} | 0 <= j < |c.hist.requests| - 1
      ensures !ClosesAfter(c.world, j, all[j], c.hist.log[j])
    {
      assert GoesOn(c.world, j, c.hist.requests[j]) && Whole(c.hist.log[j]);
    }
  }

  // ---------- what holds at every point of every run ----------

  /** Wire order: the bytes the kernel has accepted are a prefix of the exchanges in request order, each
      one at most one 100 Continue, then a head, then a body; exchange `j` is what the handler decided for
      request `j`, and the requests are the first ones the received bytes mean. */
  lemma WireOrder(c: Connection)
    requires c.Valid()
    ensures c.sock.wire <= LogText(c.hist.log) + InterimText(c.hist.owed)
    ensures c.hist.requests <= Drain(c.world.lim, START, c.sock.received).requests
    ensures |c.hist.log| == |c.hist.requests| + ErrorCount(c.parser)
    ensures forall j {:trigger Answers(c.world, j, c.hist.requests[j], c.hist.log[j])} ::
              0 <= j < |c.hist.requests| ==> Answers(c.world, j, c.hist.requests[j], c.hist.log[j])
  {
    hide LogText, OnlyLastOpen, SourceMatches, Answers, AnswersError, InterimMatches;
    var h := c.hist;
    assert TracksWith(c.world.lim, c.sock.received, h.requests, c.parser, c.input, "");
    assert c.sock.received + "" == c.sock.received && c.input + "" == c.input;
  }

  /** Every request answered was delimited by its framing headers and within all five limits. */
  lemma AnsweredAreDelivered(c: Connection)
    requires c.Valid()
    ensures AllDelivered(c.world.lim, c.hist.requests) && AllAfforded(c.world.lim, c.hist.requests)
  {
    hide Connection.Valid, Drain, Inv, Delivered, Afforded, HeadPaid, Answers, LogText;
    WireOrder(c);
    StartInv(c.world.lim);
    StartPaid(c.world.lim);
    DrainDelivers(c.world.lim, START, c.sock.received);
    DrainPaid(c.world.lim, START, c.sock.received);
    var rs := Drain(c.world.lim, START, c.sock.received).requests;
    assert forall i :: 0 <= i < |c.hist.requests| ==> c.hist.requests[i] == rs[i];
  }

  /** Truthful framing: a response that declares Content-Length n has put at most n body bytes on the wire
      or in the queue, and exactly n before the first byte of the next response. */
  lemma TruthfulFraming(c: Connection, j: nat)
    requires c.Valid() && j < |c.hist.requests| && c.hist.requests[j].verb != "HEAD"
    requires FramingFor(c.world.handler(j, c.hist.requests[j]), c.hist.requests[j].IsHttp10()).ByLength?
    ensures j < |c.hist.log|
    ensures var n := FramingFor(c.world.handler(j, c.hist.requests[j]), c.hist.requests[j].IsHttp10()).n;
            && |BodyText(c.hist.log[j])| <= n
            && (j < |c.hist.log| - 1 ==> |BodyText(c.hist.log[j])| == n)
  {
    hide FramingFor, BodyText, Consistent, Whole, GoesOn, Tracks, Flows, SourceMatches, InterimMatches, PlanFor;
    var req, e := c.hist.requests[j], c.hist.log[j];
    assert Answers(c.world, j, req, e);
    assert Consistent(e);
    assert j < |c.hist.log| - 1 ==> Whole(e);
    DeclaredLengthIsSent(c.world.handler(j, req), req, e);
  }

  /** A body that came up short is the last thing on its connection. */
  lemma ShortBodyIsLast(c: Connection, j: nat)
    requires c.Valid() && j < |c.hist.log| && c.hist.log[j].over && !Whole(c.hist.log[j])
    ensures j == |c.hist.log| - 1 && c.closeAfterWrite
  {
    hide Consistent, GoesOn, Tracks, Flows, SourceMatches, InterimMatches, Answers, AnswersError;
  }

  /** A response to HEAD, and one whose status has no content, puts no body byte on the wire. */
  lemma NoBodyWhereNoneBelongs(c: Connection, j: nat)
    requires c.Valid() && j < |c.hist.requests|
    requires c.hist.requests[j].verb == "HEAD" || NoContentStatus(c.world.handler(j, c.hist.requests[j]).status)
    ensures j < |c.hist.log| && BodyText(c.hist.log[j]) == ""
  {
    hide HeadText, OnlyLastOpen, Tracks, Flows, SourceMatches, InterimMatches;
    assert Answers(c.world, j, c.hist.requests[j], c.hist.log[j]);
  }

  /** Nothing follows a response that closes the connection. */
  lemma NothingAfterClose(c: Connection, j: nat)
    requires c.Valid() && j < |c.hist.requests| && !GoesOn(c.world, j, c.hist.requests[j])
    ensures j == |c.hist.log| - 1 && c.closeAfterWrite
  {
    hide Consistent, Whole, GoesOn, Tracks, Flows, SourceMatches, InterimMatches, Answers, AnswersError;
  }

  /** Backpressure, at every point of every run: input stays below the buffer limit and one read, queued output
      below the high-water mark, one 100 Continue and one response, and the string that holds it is at most
      twice as long; a stream in flight whose pieces have at most `n` bytes keeps less than 64 KiB, one piece
      with its framing and the end of the body in memory, however long it is. */
  lemma Backpressure(c: Connection, n: nat)
    requires c.Valid() && n < TWO_64
    ensures var room := c.world.lim.maxRequestLine + c.world.lim.maxHeaderBytes;
            |c.input| < (if room > 64 * 1024 then room else 64 * 1024) + 16 * 1024
    ensures |c.Pending()| < 256 * 1024 + |CONTINUE_TEXT| +
                            (if c.hist.log == [] then 0 else OneResponse(c.hist.log[|c.hist.log| - 1]))
    ensures |c.out| <= 2 * |c.Pending()|
    ensures var s := c.source;
            s.StreamSource? && s.asked > 0 && |PieceOf(s.producer(s.asked - 1))| <= n ==>
              |c.out| < 64 * 1024 + n + 20 + |EndText(s.producer, StreamMode(s), s.asked)|
  {
    hide Tracks, Flows, SourceMatches, InterimMatches, OnlyLastOpen, InOrder, MustClose, OneResponse, RefillBound,
         EndText, PieceOf, StreamMode;
    var s := c.source;
    if s.StreamSource? && s.asked > 0 && |PieceOf(s.producer(s.asked - 1))| <= n {
      RefillBounded(s, s.asked, n);
    }
  }

  /** The answers depend on the received bytes alone: two connections to the same server that received the
      same bytes, however cut and however the socket drained, agree on every exchange both have begun. */
  lemma AnswersDependOnBytesOnly(a: Connection, b: Connection, j: nat)
    requires a.Valid() && b.Valid() && a.world == b.world && a.sock.received == b.sock.received
    requires j < |a.hist.requests| && j < |b.hist.requests|
    ensures a.hist.requests[j] == b.hist.requests[j]
    ensures j < |a.hist.log| && j < |b.hist.log|
    ensures a.hist.log[j].head == b.hist.log[j].head && a.hist.log[j].plan == b.hist.log[j].plan
  {
    hide Connection.Valid, HeadText, PlanFor, Drain, LogText;
    WireOrder(a);
    WireOrder(b);
    var rs := Drain(a.world.lim, START, a.sock.received).requests;
    assert a.hist.requests[j] == rs[j] && b.hist.requests[j] == rs[j];
    assert Answers(a.world, j, a.hist.requests[j], a.hist.log[j]);
    assert Answers(b.world, j, b.hist.requests[j], b.hist.log[j]);
  }
}
