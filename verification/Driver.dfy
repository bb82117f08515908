/** The append / feed / erase / take loop, which defines what a byte stream means as a list of requests. */
module Driver {
  import opened Text
  import opened RequestParser
  import opened Segmentation

  /** What draining a buffer gives: the finished requests, the parser left behind, the bytes used up. */
  datatype Drained = Drained(requests: seq<Request>, m: Machine, used: nat)

  function Later(f: Fed, d: Drained): Drained {
    Drained([f.m.req] + d.requests, d.m, f.used + d.used)
  }

  /** A finished message is never empty. */
  lemma DoneUsesBytes(lim: Limits, data: string)
    ensures Feed(lim, START, data).m.state.Done? ==> Feed(lim, START, data).used >= 2
  {
    hide OnLine;
    FeedTurn(lim, START, data);
    if FindCrlf(data) >= 0 {
      OnLineUses(lim, START, data[..FindCrlf(data)]);
    }
  }

  /** Feed, and while a request is finished take it and feed the rest to the reset parser. */
  function Drain(lim: Limits, m: Machine, buf: string): (d: Drained)
    ensures d.used <= |buf|
    decreases |buf|, if m == START then 0 else 1
  {
    var f := Feed(lim, m, buf);
    if f.m.state.Done? then
      DoneUsesBytes(lim, buf);
      Later(f, Drain(lim, START, buf[f.used..]))
    else
      Drained([], f.m, f.used)
  }

  /** Draining `a`, keeping the tail, and draining that tail with `b` behind it. */
  function DrainTwice(lim: Limits, m: Machine, a: string, b: string): Drained {
    var d := Drain(lim, m, a);
    var e := Drain(lim, d.m, a[d.used..] + b);
    Drained(d.requests + e.requests, e.m, d.used + e.used)
  }

  lemma DrainResumeDone(lim: Limits, m: Machine, a: string, b: string)
    requires Feed(lim, m, a).m.state.Done?
    requires var f := Feed(lim, m, a);
             Drain(lim, START, a[f.used..] + b) == DrainTwice(lim, START, a[f.used..], b)
    ensures Drain(lim, m, a + b) == DrainTwice(lim, m, a, b)
  {
    hide Feed;
    var f := Feed(lim, m, a);
    VerdictIsFinal(lim, m, a, b);
    assert (a + b)[f.used..] == a[f.used..] + b;
    var d := Drain(lim, START, a[f.used..]);
    assert a[f.used..][d.used..] == a[f.used + d.used..];
    var e := Drain(lim, d.m, a[f.used..][d.used..] + b);
    Assoc([f.m.req], d.requests, e.requests);
  }

  lemma DrainResumeOpen(lim: Limits, m: Machine, a: string, b: string)
    requires !Feed(lim, m, a).m.state.Done?
    ensures Drain(lim, m, a + b) == DrainTwice(lim, m, a, b)
  {
    hide Feed;
    var f := Feed(lim, m, a);
    Resume(lim, m, a, b);
    var tail := a[f.used..] + b;
    var g := Feed(lim, f.m, tail);
    assert (a + b)[f.used..] == tail;
    assert (a + b)[f.used + g.used..] == tail[g.used..];
    assert [] + Drain(lim, f.m, tail).requests == Drain(lim, f.m, tail).requests;
  }

  lemma {:induction false} DrainResume(lim: Limits, m: Machine, a: string, b: string)
    ensures Drain(lim, m, a + b) == DrainTwice(lim, m, a, b)
    decreases |a|, if m == START then 0 else 1
  {
    hide Feed;
    var f := Feed(lim, m, a);
    if f.m.state.Done? {
      DoneUsesBytes(lim, a);
      DrainResume(lim, START, a[f.used..], b);
      DrainResumeDone(lim, m, a, b);
    } else {
      DrainResumeOpen(lim, m, a, b);
    }
  }

  /** Everything the loop knows after some pieces of input have arrived. */
  datatype Session = Session(requests: seq<Request>, m: Machine, used: nat, tail: string)

  const FRESH := Session([], START, 0, "")

  function Arrive(lim: Limits, s: Session, piece: string): Session {
    var buf := s.tail + piece;
    var d := Drain(lim, s.m, buf);
    Session(s.requests + d.requests, d.m, s.used + d.used, buf[d.used..])
  }

  function RunPieces(lim: Limits, pieces: seq<string>): Session {
    if pieces == [] then FRESH
    else Arrive(lim, RunPieces(lim, pieces[..|pieces| - 1]), pieces[|pieces| - 1])
  }

  /** What the stream means, with no mention of how it arrived. */
  function Meaning(lim: Limits, stream: string): Session {
    var d := Drain(lim, START, stream);
    Session(d.requests, d.m, d.used, stream[d.used..])
  }

  /** One more piece takes the meaning of a stream to the meaning of the longer stream. */
  lemma ArriveMeaning(lim: Limits, stream: string, piece: string)
    ensures Arrive(lim, Meaning(lim, stream), piece) == Meaning(lim, stream + piece)
  {
    hide Drain;
    DrainResume(lim, START, stream, piece);
    var d := Drain(lim, START, stream);
    var buf := stream[d.used..] + piece;
    var e := Drain(lim, d.m, buf);
    assert (stream + piece)[d.used..] == buf;
    assert (stream + piece)[d.used + e.used..] == buf[e.used..];
  }

  lemma MeaningEmpty(lim: Limits)
    ensures Meaning(lim, "") == FRESH
  {
    assert FindCrlf("") < 0;
    FeedTurn(lim, START, "");
  }

  /** Segmentation independence: for every way of cutting a stream into pieces, empty ones included, the
      requests, the final error, every parser field, the bytes consumed and the bytes kept are those of
      the whole stream. */
  lemma {:induction false} SegmentationIndependence(lim: Limits, pieces: seq<string>)
    ensures RunPieces(lim, pieces) == Meaning(lim, Concat(pieces))
  {
    hide Meaning, Arrive;
    if pieces == [] {
      MeaningEmpty(lim);
    } else {
      var k := |pieces| - 1;
      SegmentationIndependence(lim, pieces[..k]);
      ArriveMeaning(lim, Concat(pieces[..k]), pieces[k]);
    }
  }

  /** Two ways of cutting the same stream cannot be told apart. */
  lemma SameStreamSameResult(lim: Limits, p: seq<string>, q: seq<string>)
    requires Concat(p) == Concat(q)
    ensures RunPieces(lim, p) == RunPieces(lim, q)
  {
    hide Meaning, Arrive;
    SegmentationIndependence(lim, p);
    SegmentationIndependence(lim, q);
  }

  // ---------- messages that end exactly at their end ----------

  /** `msg` is one complete message: the parser is done after its last byte. */
  predicate Exact(lim: Limits, msg: string) {
    Feed(lim, START, msg).m.state.Done? && Feed(lim, START, msg).used == |msg|
  }

  /** Prefix-freeness: a complete message completes identically with anything behind it, uses none of
      that, and no strict prefix of it completes. */
  lemma PrefixFree(lim: Limits, msg: string, after: string, k: nat)
    requires Exact(lim, msg) && k < |msg|
    ensures Feed(lim, START, msg + after) == Feed(lim, START, msg)
    ensures !Feed(lim, START, msg[..k]).m.state.Done?
  {
    hide Feed;
    VerdictIsFinal(lim, START, msg, after);
    if Feed(lim, START, msg[..k]).m.state.Done? {
      assert msg[..k] + msg[k..] == msg;
      VerdictIsFinal(lim, START, msg[..k], msg[k..]);
    }
  }

  /** Pipelining: a concatenation of complete messages parses to exactly their requests, in order. */
  lemma {:induction false} Pipelining(lim: Limits, msgs: seq<string>, after: string)
    requires forall i :: 0 <= i < |msgs| ==> Exact(lim, msgs[i])
    ensures var d := Drain(lim, START, after);
            Drain(lim, START, Concat(msgs) + after) ==
            Drained(RequestsOf(lim, msgs) + d.requests, d.m, |Concat(msgs)| + d.used)
  {
    hide Feed, Drain;
    if msgs == [] {
      assert Concat(msgs) + after == after;
    } else {
      var k := |msgs| - 1;
      var msg := msgs[k];
      var e := Drain(lim, START, after);
      DrainExact(lim, msg, after);
      Pipelining(lim, msgs[..k], msg + after);
      Assoc(Concat(msgs[..k]), msg, after);
      Assoc(RequestsOf(lim, msgs[..k]), [Feed(lim, START, msg).m.req], e.requests);
    }
  }

  lemma DrainExact(lim: Limits, msg: string, after: string)
    requires Exact(lim, msg)
    ensures Drain(lim, START, msg + after) ==
            Later(Feed(lim, START, msg), Drain(lim, START, after))
  {
    hide Feed;
    VerdictIsFinal(lim, START, msg, after);
    assert (msg + after)[|msg|..] == after;
  }

  function RequestsOf(lim: Limits, msgs: seq<string>): seq<Request> {
    if msgs == [] then []
    else RequestsOf(lim, msgs[..|msgs| - 1]) + [Feed(lim, START, msgs[|msgs| - 1]).m.req]
  }
}
