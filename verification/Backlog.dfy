/** How much input a waiting parser can leave unread, against the size of the connection's input buffer: a
    parser that waits on a full buffer waits for ever, since a full buffer is not read. */
module Backlog {
  import opened Text
  import opened Numbers
  import opened Headers
  import opened RequestParser
  import opened Driver
  import opened Reachable
  import opened Budget
  import opened LineGrammar
  import opened Messages
  import opened Response
  import opened ChunkedCoding

  /** The largest input the connection keeps before it stops reading. */
  function MaxIn(lim: Limits): nat {
    var n := lim.maxRequestLine + lim.maxHeaderBytes;
    if n > 64 * 1024 then n else 64 * 1024
  }

  const SHORTEST_REQUEST_LINE := 12
  const SHORTEST_CHUNKED_FIELDS := 36

  /** The limits admit the head of some chunked request; without that no chunk-size line is ever awaited. */
  predicate ChunkedHeadFits(lim: Limits) {
    && lim.maxRequestLine >= SHORTEST_REQUEST_LINE && lim.maxHeaderBytes >= SHORTEST_CHUNKED_FIELDS
    && lim.maxHeaderCount >= 2
  }

  /** Limits under which the buffer always has room for the next bytes of an unfinished line. */
  predicate LimitsFit(lim: Limits) {
    && lim.maxRequestLine + 1 < MaxIn(lim)
    && (ChunkedHeadFits(lim) ==> lim.maxChunkLine + 1 < MaxIn(lim))
  }

  const DEFAULT_LIMITS := Limits(8 * 1024, 16 * 1024, 100, 8 * 1024 * 1024, 1024)

  lemma DefaultLimitsFit()
    ensures LimitsFit(DEFAULT_LIMITS)
  {
  }

  /** Once everything in these bytes that can be parsed has been, the rest does not fill the buffer. */
  predicate LeavesRoom(lim: Limits, stream: string) {
    var d := Drain(lim, START, stream);
    d.m.state.Error? || |stream| - d.used < MaxIn(lim)
  }

  /** Draining leaves a parser that has done all it can with what is left. */
  lemma {:induction false} DrainSettles(lim: Limits, m: Machine, buf: string)
    ensures var d := Drain(lim, m, buf);
            !d.m.state.Done? && Feed(lim, d.m, buf[d.used..]) == Fed(d.m, 0)
    decreases |buf|, if m == START then 0 else 1
  {
    hide Feed;
    var f := Feed(lim, m, buf);
    if f.m.state.Done? {
      DoneUsesBytes(lim, buf);
      DrainSettles(lim, START, buf[f.used..]);
      var d := Drain(lim, START, buf[f.used..]);
      assert buf[f.used..][d.used..] == buf[f.used + d.used..];
    } else {
      FeedSettles(lim, m, buf);
    }
  }

  // ---------- what a chunked head costs ----------

  lemma FoundCost(h: Fields, name: string)
    requires Has(h, name)
    ensures FieldCost(h[Find(h, name)]) == |name| + |Get(h, name).value| + 3
  {
  }

  lemma DifferentPlaces(h: Fields)
    requires Has(h, "Host") && Has(h, "Transfer-Encoding")
    ensures Find(h, "Host") != Find(h, "Transfer-Encoding")
  {
    assert |"Host"| == 4 && |"Transfer-Encoding"| == 17;
  }

  lemma ChunkedFraming(lim: Limits, h: Fields, minor: nat)
    requires DecideFraming(lim, h, minor) == Ok(ChunkedBody) && minor <= 1
    ensures Has(h, "Host") && Has(h, "Transfer-Encoding") && |Get(h, "Transfer-Encoding").value| >= 7
  {
    hide Find, Trim, ContentLength;
    TrimShorter(Get(h, "Transfer-Encoding").value);
    assert |"chunked"| == 7;
  }

  lemma ChunkedFieldsCost(lim: Limits, h: Fields, minor: nat)
    requires DecideFraming(lim, h, minor) == Ok(ChunkedBody) && minor <= 1
    ensures Weight(h) + 2 >= SHORTEST_CHUNKED_FIELDS && |h| >= 2
  {
    hide Weight, Find, DecideFraming, FieldCost;
    ChunkedFraming(lim, h, minor);
    var i, j := Find(h, "Host"), Find(h, "Transfer-Encoding");
    assert |"Host"| == 4 && |"Transfer-Encoding"| == 17;
    FoundCost(h, "Host");
    FoundCost(h, "Transfer-Encoding");
    DifferentPlaces(h);
    if i < j {
      WeightAtLeastTwo(h, i, j);
    } else {
      WeightAtLeastTwo(h, j, i);
    }
  }

  /** Whoever waits for a chunk size has read a whole chunked head, so the limits admit one. */
  lemma AwaitingChunkMeansFits(lim: Limits, stream: string)
    requires Drain(lim, START, stream).m.state.ChunkSize?
    ensures ChunkedHeadFits(lim)
  {
    hide Drain, DecideFraming, Weight, DistinctNames;
    StartInv(lim);
    DrainDelivers(lim, START, stream);
    DrainPaid(lim, START, stream);
    var m := Drain(lim, START, stream).m;
    ChunkedFieldsCost(lim, m.req.headers, m.req.versionMinor);
  }

  // ---------- streams that fill the buffer ----------

  const SHORT_LINE := "G" + [' '] + ("/" + [' '] + (VERSION_PREFIX + [DigitChar(1)]))
  const HOST_LINE := "Host:"
  const CHUNKED_LINE := "Transfer-Encoding:chunked"
  const CHUNKED_HEAD := Line(SHORT_LINE) + (Lines(HeadLines()) + CRLF)

  const HOST_FIELD := Field("Host", "")
  const CHUNKED_FIELD := Field("Transfer-Encoding", "chunked")

  function ShortStart(): StartLine { StartLine("G", "/", "/", "", 1) }

  /** The parser once it has read that head: it waits for a chunk size. */
  function Awaiting(): Machine {
    START.(state := ChunkSize, headerBytes := SHORTEST_CHUNKED_FIELDS, headerCount := 2,
           req := WithStartLine(EMPTY_REQUEST, ShortStart()).(headers := [HOST_FIELD, CHUNKED_FIELD]))
  }

  lemma ShortLineReads()
    ensures |SHORT_LINE| == SHORTEST_REQUEST_LINE && FindCrlf(SHORT_LINE) < 0
    ensures ReadRequestLine(SHORT_LINE) == Ok(ShortStart())
  {
    hide ReadRequestLine, FindCrlf;
    assert |VERSION_PREFIX| == 7;
    RequestLineAccepted(SHORT_LINE, ShortStart(), Origin);
    assert NoBreaks(SHORT_LINE);
    NoBreaksNoCrlf(SHORT_LINE);
  }

  lemma HeadTokens()
    ensures IsToken("Host") && IsToken("Transfer-Encoding")
  {
  }

  /** A token, a colon and a value without whitespace around it is read as that field. */
  lemma BareLineReads(line: string, f: Field)
    requires line == f.name + [':'] + f.value
    requires IsToken(f.name) && Trimmed(f.value) && IsFieldValue(f.value) && NoBreaks(line)
    ensures IsFieldLine(line) && ReadFieldLine(line) == Ok(f)
  {
    hide FindCrlf, ReadFieldLine, IsToken, Trimmed, IsFieldValue;
    assert "" + f.value + "" == f.value;
    TokenMeaning(f.name);
    TextMeaning(f.value);
    FieldLineAccepted(line, f, "", "");
    NoBreaksNoCrlf(line);
  }

  lemma HostLineReads()
    ensures |HOST_LINE| == 5 && IsFieldLine(HOST_LINE) && ReadFieldLine(HOST_LINE) == Ok(HOST_FIELD)
  {
    hide IsFieldLine, ReadFieldLine, IsToken;
    HeadTokens();
    assert HOST_LINE == "Host" + [':'] + "";
    BareLineReads(HOST_LINE, HOST_FIELD);
  }

  lemma ChunkedLineReads()
    ensures |CHUNKED_LINE| == 25 && IsFieldLine(CHUNKED_LINE) && ReadFieldLine(CHUNKED_LINE) == Ok(CHUNKED_FIELD)
  {
    hide IsFieldLine, ReadFieldLine, IsToken;
    HeadTokens();
    assert CHUNKED_LINE == "Transfer-Encoding" + [':'] + "chunked";
    BareLineReads(CHUNKED_LINE, CHUNKED_FIELD);
  }

  function HeadLines(): seq<string> { [HOST_LINE, CHUNKED_LINE] }

  lemma HeadLinesRead()
    ensures AreFieldLines(HeadLines()) && FieldsOf(HeadLines()) == [HOST_FIELD, CHUNKED_FIELD]
    ensures |Lines(HeadLines())| == 34
  {
    hide IsFieldLine, ReadFieldLine;
    HostLineReads();
    ChunkedLineReads();
    var ls := HeadLines();
    assert ls[1..] == [CHUNKED_LINE] && ls[1..][1..] == [];
    assert AreFieldLines(ls[1..]);
    assert FieldsOf(ls[1..]) == [CHUNKED_FIELD] + FieldsOf(ls[1..][1..]);
    assert Lines(ls[1..]) == Line(CHUNKED_LINE) + Lines(ls[1..][1..]);
  }

  lemma NamesDiffer()
    ensures !IEquals("Host", "Transfer-Encoding") && !IEquals("Transfer-Encoding", "Host")
    ensures !IEquals("Host", "Content-Length") && !IEquals("Transfer-Encoding", "Content-Length")
    ensures !IEquals("Host", "Expect") && !IEquals("Transfer-Encoding", "Expect")
    ensures IEquals("Host", "Host") && IEquals("Transfer-Encoding", "Transfer-Encoding")
  {
    assert |"Host"| == 4 && |"Transfer-Encoding"| == 17 && |"Content-Length"| == 14 && |"Expect"| == 6;
  }

  lemma HeadFieldsAdded()
    ensures AddAll([], [HOST_FIELD, CHUNKED_FIELD]) == [HOST_FIELD, CHUNKED_FIELD]
    ensures HostsFit([], [HOST_FIELD, CHUNKED_FIELD])
  {
    hide IEquals, AddAll, Has;
    NamesDiffer();
    HasNone("Host");
    TwoDistinct(HOST_FIELD, CHUNKED_FIELD);
  }

  lemma TwoDistinct(f: Field, g: Field)
    requires !IEquals(f.name, g.name)
    ensures AddAll([], [f, g]) == [f, g]
  {
    hide IEquals, AddAll;
    assert DistinctNames([f, g]);
    assert [] + [f, g] == [f, g];
    AddAllDistinct([], [f, g]);
  }

  lemma HeadIsChunked(lim: Limits)
    ensures DecideFraming(lim, [HOST_FIELD, CHUNKED_FIELD], 1) == Ok(ChunkedBody)
    ensures !ExpectsContinue([HOST_FIELD, CHUNKED_FIELD])
  {
    hide IEquals, Trim, ContentLength;
    NamesDiffer();
    var fs := [HOST_FIELD, CHUNKED_FIELD];
    assert Find(fs, "Host") == 0 && Find(fs, "Transfer-Encoding") == 1;
    assert Find(fs, "Content-Length") < 0 && Find(fs, "Expect") < 0;
    ChunkedTrims();
  }

  lemma ChunkedTrims()
    ensures IEquals(Trim("chunked"), "chunked")
  {
    TrimUndoesPadding("", "chunked", "");
    assert "" + "chunked" + "" == "chunked";
  }

  /** Where the limits admit it, the shortest chunked head leads every stream it begins to a chunk size. */
  lemma ChunkedHeadLeads(lim: Limits, tail: string)
    requires ChunkedHeadFits(lim)
    ensures Feed(lim, START, CHUNKED_HEAD + tail) == After(|CHUNKED_HEAD|, Feed(lim, Awaiting(), tail))
  {
    hide Feed, ReadRequestLine, ReadFieldLine, DecideFraming, ExpectsContinue, AddAll, Lines, PathOf, QueryOf,
         PathAndQuery, HostsFit, AreFieldLines, FieldsOf;
    var ls := HeadLines();
    var m1 := START.(state := HeaderLines, req := WithStartLine(EMPTY_REQUEST, ShortStart()));
    ShortLineReads();
    HeadLinesRead();
    var m2 := AfterFields(m1, ls);
    HeadFieldsAdded();
    HeadIsChunked(lim);
    AfterFieldsSum(m1, ls);
    Assoc(Line(SHORT_LINE), Lines(ls) + CRLF, tail);
    Assoc(Lines(ls), CRLF, tail);
    LineLeads(lim, START, SHORT_LINE, m1, Lines(ls) + (CRLF + tail));
    FieldsLead(lim, m1, ls, CRLF + tail);
    BlankLeads(lim, m2, Awaiting(), tail);
  }

  function Letters(n: nat): (s: string)
    ensures |s| == n && NoBreaks(s)
  {
    if n == 0 then "" else Letters(n - 1) + "a"
  }

  /** A line that has not ended, as long as the buffer: it is neither too long yet nor complete. */
  lemma LongLineWaits(lim: Limits, m: Machine, n: nat)
    requires (m.state.RequestLine? && n <= lim.maxRequestLine + 1) || (m.state.ChunkSize? && n <= lim.maxChunkLine + 1)
    ensures Feed(lim, m, Letters(n)) == Fed(m, 0)
  {
    hide Letters;
    NoBreaksNoCrlf(Letters(n));
    FeedTurn(lim, m, Letters(n));
  }

  /** Outside the condition, a request that fills the buffer before its line ends: the request line itself, or
      behind a chunked head the first chunk-size line. */
  function Filling(lim: Limits): string {
    (if lim.maxRequestLine + 1 >= MaxIn(lim) then "" else CHUNKED_HEAD) + Letters(MaxIn(lim))
  }

  function FilledParser(lim: Limits): Machine {
    if lim.maxRequestLine + 1 >= MaxIn(lim) then START else Awaiting()
  }

  lemma FillingWaits(lim: Limits)
    requires !LimitsFit(lim)
    ensures Drain(lim, START, Filling(lim)) == Drained([], FilledParser(lim), |Filling(lim)| - MaxIn(lim))
    ensures !LeavesRoom(lim, Filling(lim))
  {
    hide Letters, Feed, CHUNKED_HEAD;
    var n := MaxIn(lim);
    if lim.maxRequestLine + 1 >= n {
      assert Filling(lim) == Letters(n);
      LongLineWaits(lim, START, n);
    } else {
      ChunkedHeadLeads(lim, Letters(n));
      LongLineWaits(lim, Awaiting(), n);
    }
  }

  lemma FitLeavesRoom(lim: Limits, stream: string)
    requires LimitsFit(lim)
    ensures LeavesRoom(lim, stream)
  {
    hide Drain, Feed;
    var d := Drain(lim, START, stream);
    DrainSettles(lim, START, stream);
    if !d.m.state.Error? {
      WaitingTail(lim, d.m, stream[d.used..]);
      if d.m.state.ChunkSize? {
        AwaitingChunkMeansFits(lim, stream);
      }
    }
  }

  /** The condition is exact: under these limits, and under no others, no byte stream leads the parser to wait
      with the buffer already full. */
  lemma RoomExactly(lim: Limits)
    ensures LimitsFit(lim) <==> forall stream :: LeavesRoom(lim, stream)
  {
    hide LimitsFit, LeavesRoom, Filling;
    if LimitsFit(lim) {
      forall stream
        ensures LeavesRoom(lim, stream)
      {
        FitLeavesRoom(lim, stream);
      }
    } else {
      FillingWaits(lim);
    }
  }
}
