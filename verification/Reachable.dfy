/** What holds of the parser in every state it can reach, and what follows for the requests it delivers
    and for the bytes it can leave unread. */
module Reachable {
  import opened Text
  import opened Numbers
  import opened Headers
  import opened RequestParser
  import opened Segmentation
  import opened Driver

  predicate InChunks(m: Machine) {
    m.state.ChunkSize? || m.state.ChunkData? || m.state.ChunkDataEnd? || m.state.Trailers?
  }

  /** The body read so far agrees with the framing the header section declared. */
  predicate FramingKept(lim: Limits, m: Machine) {
    var f := FramingOf(lim, m.req);
    && (m.state.Body? ==> f == Ok(Length(|m.req.body| + m.remaining)))
    && (InChunks(m) ==> f == Ok(ChunkedBody))
    && (m.state.Done? ==> Delimited(lim, m.req))
  }

  /** A delivered body ends where one, and only one, framing header says it does. */
  predicate Delimited(lim: Limits, r: Request) {
    match FramingOf(lim, r)
    case Ok(NoBody) => r.body == "" && r.trailers == []
    case Ok(Length(n)) => |r.body| == n && r.trailers == []
    case Ok(ChunkedBody) => true
    case Reject(_, _) => false
  }

  predicate Budgets(lim: Limits, m: Machine) {
    && |m.req.body| + m.remaining <= lim.maxBodyBytes
    && m.headerBytes <= lim.maxHeaderBytes
    && (m.headerCount <= lim.maxHeaderCount || m.state.Error?)
  }

  predicate Shape(m: Machine) {
    && (m.remaining > 0 <==> InData(m))
    && (m.error.NoError? <==> !m.state.Error?)
    && (m.state.RequestLine? ==> m == START)
    && (m.state.HeaderLines? ==> m.req.body == "" && !m.req.expectContinue)
    && (m.state.HeaderLines? || m.state.Body? ==> m.req.trailers == [])
    && DistinctNames(m.req.headers) && DistinctNames(m.req.trailers)
  }

  predicate Inv(lim: Limits, m: Machine) {
    Shape(m) && Budgets(lim, m) && FramingKept(lim, m)
  }

  lemma StartInv(lim: Limits)
    ensures Inv(lim, START)
  {
  }

  // ---------- every turn keeps it ----------

  lemma FieldLineKeepsInv(lim: Limits, m: Machine, line: string)
    requires Inv(lim, m) && InFields(m) && line != [] && !LineTooLong(lim, m, |line|)
    ensures Inv(lim, OnFieldLine(lim, m, line).m)
  {
    hide ReadFieldLine, DecideFraming, Add, Find, IEquals;
    var h := if m.state.Trailers? then m.req.trailers else m.req.headers;
    var f := ReadFieldLine(line);
    if f.Ok? {
      AddKeepsDistinct(h, f.value.name, f.value.value);
    }
  }

  lemma BlankLineKeepsInv(lim: Limits, m: Machine)
    requires Inv(lim, m) && InFields(m) && !LineTooLong(lim, m, 0)
    ensures Inv(lim, OnFieldLine(lim, m, "").m)
  {
    hide DecideFraming, AddLine;
    FramingWithinLimit(lim, m.req);
  }

  lemma FramingWithinLimit(lim: Limits, r: Request)
    ensures FramingOf(lim, r).Ok? && FramingOf(lim, r).value.Length? ==>
              FramingOf(lim, r).value.n <= lim.maxBodyBytes
  {
  }

  lemma LineKeepsInv(lim: Limits, m: Machine, line: string)
    requires Inv(lim, m) && InLine(m) && !LineTooLong(lim, m, |line|)
    ensures Inv(lim, OnLine(lim, m, line).m)
  {
    hide OnFieldLine, ReadRequestLine, ReadChunkSize, DecideFraming;
    if InFields(m) {
      if line == [] {
        BlankLineKeepsInv(lim, m);
      } else {
        FieldLineKeepsInv(lim, m, line);
      }
    }
  }

  lemma DataKeepsInv(lim: Limits, m: Machine, rest: string)
    requires Inv(lim, m) && InData(m)
    ensures Inv(lim, StepData(m, rest).m)
  {
    hide DecideFraming;
  }

  lemma StepKeepsInv(lim: Limits, m: Machine, rest: string)
    requires Inv(lim, m)
    ensures Inv(lim, Step(lim, m, rest).m)
  {
    hide OnLine, StepData, DecideFraming;
    if InData(m) {
      DataKeepsInv(lim, m, rest);
    } else if InLine(m) {
      var eol := FindCrlf(rest);
      if eol >= 0 && !LineTooLong(lim, m, eol) {
        LineKeepsInv(lim, m, rest[..eol]);
      }
    }
  }

  lemma {:induction false} FeedKeepsInv(lim: Limits, m: Machine, data: string)
    requires Inv(lim, m)
    ensures Inv(lim, Feed(lim, m, data).m)
    decreases |data|, if InData(m) then 1 else 0
  {
    hide Step, Inv;
    FeedTurn(lim, m, data);
    StepUses(lim, m, data);
    StepKeepsInv(lim, m, data);
    var t := Step(lim, m, data);
    if t.Continue? {
      FeedKeepsInv(lim, t.m, data[t.used..]);
    }
  }

  // ---------- delivered requests ----------

  /** Section 6.3 of RFC 9112: what every request handed to a handler satisfies. */
  predicate Delivered(lim: Limits, r: Request) {
    && |r.body| <= lim.maxBodyBytes
    && Delimited(lim, r)
    && DistinctNames(r.headers) && DistinctNames(r.trailers)
  }

  predicate AllDelivered(lim: Limits, rs: seq<Request>) {
    forall i :: 0 <= i < |rs| ==> Delivered(lim, rs[i])
  }

  /** Over whole runs: every state is within the invariant and every delivered request is delimited. */
  lemma {:induction false} DrainDelivers(lim: Limits, m: Machine, buf: string)
    requires Inv(lim, m)
    ensures Inv(lim, Drain(lim, m, buf).m)
    ensures AllDelivered(lim, Drain(lim, m, buf).requests)
    decreases |buf|, if m == START then 0 else 1
  {
    hide Feed, DecideFraming;
    FeedKeepsInv(lim, m, buf);
    var f := Feed(lim, m, buf);
    if f.m.state.Done? {
      DoneUsesBytes(lim, buf);
      StartInv(lim);
      DrainDelivers(lim, START, buf[f.used..]);
    }
  }

  /** Never both framing headers; a declared length is one agreed value below 2^64 and equals the body. */
  lemma DelimitedMeaning(lim: Limits, r: Request)
    requires Delimited(lim, r)
    ensures Get(r.headers, "Transfer-Encoding").None? || Get(r.headers, "Content-Length").None?
    ensures Get(r.headers, "Content-Length").Some? ==>
              AgreedLength(Get(r.headers, "Content-Length").value, |r.body|) && |r.body| < TWO_64
    ensures Get(r.headers, "Transfer-Encoding").Some? ==>
              IEquals(Trim(Get(r.headers, "Transfer-Encoding").value), "chunked") && !r.IsHttp10()
    ensures Get(r.headers, "Transfer-Encoding").None? && Get(r.headers, "Content-Length").None? ==>
              r.body == ""
  {
    hide Find, Members, Trim;
    var cl := Get(r.headers, "Content-Length");
    if cl.Some? {
      ContentLengthMeaning(cl.value, |r.body|);
      LengthFits(cl.value, |r.body|);
    }
  }

  lemma LengthFits(v: string, n: nat)
    requires AgreedLength(v, n)
    ensures n < TWO_64
  {
    var s := Members(v)[0];
    assert Decimal(s) == Some(n);
    ValueBound(s, 10);
    PowMonotone(10, |s|, 19);
    WidthBounds();
  }

  // ---------- what a waiting parser leaves unread ----------

  /** The parser has done all it can with these bytes and needs more. */
  predicate Waits(lim: Limits, m: Machine, tail: string) {
    !Halted(m) && Feed(lim, m, tail) == Fed(m, 0)
  }

  /** Feeding again without new bytes does nothing. */
  lemma FeedSettles(lim: Limits, m: Machine, data: string)
    ensures var r := Feed(lim, m, data);
            Feed(lim, r.m, data[r.used..]) == Fed(r.m, 0)
  {
    var r := Feed(lim, m, data);
    Resume(lim, m, data, "");
    assert data + "" == data;
    assert data[r.used..] + "" == data[r.used..];
  }

  /** The longest tail each state can leave. */
  function TailLimit(lim: Limits, m: Machine): nat {
    match m.state
    case RequestLine => lim.maxRequestLine + 1
    case ChunkSize => lim.maxChunkLine + 1
    case HeaderLines => if lim.maxHeaderBytes == 0 then 0 else lim.maxHeaderBytes - 1
    case Trailers => if lim.maxHeaderBytes == 0 then 0 else lim.maxHeaderBytes - 1
    case ChunkDataEnd => 1
    case _ => 0
  }

  lemma WaitingTail(lim: Limits, m: Machine, tail: string)
    requires Waits(lim, m, tail)
    ensures |tail| <= TailLimit(lim, m)
  {
    hide OnLine;
    FeedTurn(lim, m, tail);
    if InLine(m) && FindCrlf(tail) >= 0 {
      OnLineUses(lim, m, tail[..FindCrlf(tail)]);
    }
  }

  // ---------- the Expect flag ----------

  predicate PastHeaders(m: Machine) { !m.state.RequestLine? && !m.state.HeaderLines? }

  lemma StepKeepsExpect(lim: Limits, m: Machine, rest: string)
    requires PastHeaders(m)
    ensures PastHeaders(Step(lim, m, rest).m)
    ensures Step(lim, m, rest).m.req.expectContinue == m.req.expectContinue
  {
    hide AddLine, ReadChunkSize, DecideFraming;
  }

  /** Once the header section is over the Expect flag does not change until the request is taken. */
  lemma {:induction false} FeedKeepsExpect(lim: Limits, m: Machine, data: string)
    requires PastHeaders(m)
    ensures Feed(lim, m, data).m.req.expectContinue == m.req.expectContinue
    ensures PastHeaders(Feed(lim, m, data).m)
    decreases |data|, if InData(m) then 1 else 0
  {
    hide Step;
    FeedTurn(lim, m, data);
    StepUses(lim, m, data);
    StepKeepsExpect(lim, m, data);
    var t := Step(lim, m, data);
    if t.Continue? {
      FeedKeepsExpect(lim, t.m, data[t.used..]);
    }
  }
}
