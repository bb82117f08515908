/** A grammar of whole request messages, put together from lines (what each line means is stated as a shape in
    `LineGrammar`) without feeding, states or tails; and how each part of a message leads the parser on. */
module Messages {
  import opened Text
  import opened Headers
  import opened RequestParser
  import opened HeaderLines

  // ---------- the grammar ----------

  datatype Chunk = Chunk(sizeLine: string, data: string)

  datatype Payload =
    | Plain(data: string)
    | Chunks(chunks: seq<Chunk>, lastLine: string, trailerLines: seq<string>)

  datatype Message = Message(blankLines: nat, startLine: string, fieldLines: seq<string>, payload: Payload)

  function Line(s: string): string { s + CRLF }

  function Lines(ls: seq<string>): string {
    if ls == [] then "" else Line(ls[0]) + Lines(ls[1..])
  }

  function EncodeChunks(cs: seq<Chunk>): string {
    if cs == [] then "" else Line(cs[0].sizeLine) + (Line(cs[0].data) + EncodeChunks(cs[1..]))
  }

  function EncodePayload(p: Payload): string {
    match p
    case Plain(data) => data
    case Chunks(cs, last, trailers) => EncodeChunks(cs) + (Line(last) + (Lines(trailers) + CRLF))
  }

  function EncodeHead(msg: Message): string {
    Line(msg.startLine) + (Lines(msg.fieldLines) + (CRLF + EncodePayload(msg.payload)))
  }

  function Blanks(n: nat): string { if n == 0 then "" else CRLF + Blanks(n - 1) }

  function Encode(msg: Message): string { Blanks(msg.blankLines) + EncodeHead(msg) }

  predicate IsFieldLine(l: string) { l != [] && FindCrlf(l) < 0 && ReadFieldLine(l).Ok? }

  predicate AreFieldLines(ls: seq<string>) { forall i :: 0 <= i < |ls| ==> IsFieldLine(ls[i]) }

  function FieldsOf(ls: seq<string>): (fs: Fields)
    requires AreFieldLines(ls)
    ensures |fs| == |ls|
  {
    if ls == [] then [] else [ReadFieldLine(ls[0]).value] + FieldsOf(ls[1..])
  }

  predicate IsHost(f: Field) { IEquals(f.name, "Host") }

  /** At most one Host line. */
  predicate OneHost(fs: Fields) { forall i, j :: 0 <= i < j < |fs| ==> !(IsHost(fs[i]) && IsHost(fs[j])) }

  predicate IsChunk(lim: Limits, c: Chunk) {
    && FindCrlf(c.sizeLine) < 0 && |c.sizeLine| <= lim.maxChunkLine
    && c.data != [] && ReadChunkSize(c.sizeLine) == Some(|c.data|)
  }

  predicate AreChunks(lim: Limits, cs: seq<Chunk>) { forall i :: 0 <= i < |cs| ==> IsChunk(lim, cs[i]) }

  function DataOf(cs: seq<Chunk>): string {
    if cs == [] then "" else cs[0].data + DataOf(cs[1..])
  }

  function TrailerLines(p: Payload): seq<string> { if p.Plain? then [] else p.trailerLines }

  function BodyOf(p: Payload): string { if p.Plain? then p.data else DataOf(p.chunks) }

  /** The framing that goes with a payload, given the lines above it. */
  function FramingShown(fs: Fields, p: Payload): BodyFraming {
    if p.Chunks? then ChunkedBody else if Sends(fs, "Content-Length") then Length(|p.data|) else NoBody
  }

  /** The payload has the form the header section announced. */
  predicate PayloadMatches(lim: Limits, f: BodyFraming, p: Payload) {
    match f
    case NoBody => p == Plain("")
    case Length(n) => p.Plain? && |p.data| == n
    case ChunkedBody =>
      && p.Chunks?
      && AreChunks(lim, p.chunks) && |DataOf(p.chunks)| <= lim.maxBodyBytes
      && FindCrlf(p.lastLine) < 0 && |p.lastLine| <= lim.maxChunkLine && ReadChunkSize(p.lastLine) == Some(0)
      && AreFieldLines(p.trailerLines)
  }

  /** Header section and trailer section draw on one budget of bytes and of lines. */
  predicate WithinBudget(lim: Limits, msg: Message) {
    && |Lines(msg.fieldLines)| + 2 + (if msg.payload.Plain? then 0 else |Lines(TrailerLines(msg.payload))| + 2)
       <= lim.maxHeaderBytes
    && |msg.fieldLines| + |TrailerLines(msg.payload)| <= lim.maxHeaderCount
  }

  predicate IsStart(lim: Limits, l: string) {
    l != [] && FindCrlf(l) < 0 && |l| <= lim.maxRequestLine && ReadRequestLine(l).Ok?
  }

  predicate WellFormed(lim: Limits, msg: Message) {
    && IsStart(lim, msg.startLine)
    && AreFieldLines(msg.fieldLines) && OneHost(FieldsOf(msg.fieldLines))
    && WithinBudget(lim, msg)
    && var fs := FieldsOf(msg.fieldLines);
       var framing := FramingShown(fs, msg.payload);
       && FramedAs(lim, ReadRequestLine(msg.startLine).value.minor, fs, framing)
       && PayloadMatches(lim, framing, msg.payload)
  }

  function HeadFraming(lim: Limits, msg: Message): Outcome<BodyFraming>
    requires ReadRequestLine(msg.startLine).Ok? && AreFieldLines(msg.fieldLines)
  {
    DecideFraming(lim, AddAll([], FieldsOf(msg.fieldLines)), ReadRequestLine(msg.startLine).value.minor)
  }

  /** The parser's decision is the one the lines call for. */
  lemma FramingAgrees(lim: Limits, msg: Message)
    requires WellFormed(lim, msg)
    ensures var f := FramingShown(FieldsOf(msg.fieldLines), msg.payload);
            HeadFraming(lim, msg) == Ok(f) && PayloadMatches(lim, f, msg.payload)
  {
    hide ReadRequestLine, AreFieldLines, FieldsOf, OneHost, PayloadMatches, FramingShown, FramedAs, DecideFraming,
         AddAll;
    var fs := FieldsOf(msg.fieldLines);
    FramingRule(lim, ReadRequestLine(msg.startLine).value.minor, fs, FramingShown(fs, msg.payload));
  }

  /** The request a message means. */
  function Denote(lim: Limits, msg: Message): Request
    requires WellFormed(lim, msg)
  {
    var h := ReadRequestLine(msg.startLine).value;
    var fs := FieldsOf(msg.fieldLines);
    var trailers := if msg.payload.Plain? then [] else AddAll([], FieldsOf(msg.payload.trailerLines));
    Request(h.verb, h.target, h.path, h.query, h.minor, AddAll([], fs), trailers, BodyOf(msg.payload),
            SendsOnly(fs, "Expect", "100-continue") && msg.payload != Plain(""))
  }

  // ---------- completeness: a well-formed message is parsed as what it means ----------

  /** One accepted line takes the parser from `m` to `m1`, whatever follows. */
  lemma LineLeads(lim: Limits, m: Machine, l: string, m1: Machine, rest: string)
    requires InLine(m) && FindCrlf(l) < 0 && !LineTooLong(lim, m, |l|)
    requires OnLine(lim, m, l) == Continue(m1, |l| + 2)
    ensures Feed(lim, m, Line(l) + rest) == After(|l| + 2, Feed(lim, m1, rest))
  {
    hide OnLine, Feed, LineTooLong;
    var s := Line(l) + rest;
    FindCrlfAfterLine(l, rest);
    assert s[..|l|] == l && s[|l| + 2..] == rest;
    FeedTurn(lim, m, s);
  }

  lemma {:induction false} BlanksLead(lim: Limits, n: nat, rest: string)
    ensures Feed(lim, START, Blanks(n) + rest) == After(|Blanks(n)|, Feed(lim, START, rest))
  {
    hide Feed;
    if n == 0 {
      assert Blanks(n) + rest == rest;
    } else {
      assert FindCrlf("") < 0;
      assert Line("") == CRLF;
      LineLeads(lim, START, "", START, Blanks(n - 1) + rest);
      Assoc(CRLF, Blanks(n - 1), rest);
      BlanksLead(lim, n - 1, rest);
    }
  }

  function FieldsSoFar(m: Machine): Fields { if m.state.Trailers? then m.req.trailers else m.req.headers }

  /** The machine after accepting one field line, and after accepting several. */
  function AfterField(m: Machine, f: Field, n: nat): Machine {
    m.(headerBytes := m.headerBytes + n + 2, headerCount := m.headerCount + 1,
       req := WithFields(m, Add(FieldsSoFar(m), f.name, f.value)))
  }

  function AfterFields(m: Machine, ls: seq<string>): Machine
    requires AreFieldLines(ls)
    decreases |ls|
  {
    if ls == [] then m else AfterFields(AfterField(m, ReadFieldLine(ls[0]).value, |ls[0]|), ls[1..])
  }

  lemma {:induction false} AfterFieldsSum(m: Machine, ls: seq<string>)
    requires AreFieldLines(ls)
    ensures AfterFields(m, ls) ==
            m.(headerBytes := m.headerBytes + |Lines(ls)|, headerCount := m.headerCount + |ls|,
               req := WithFields(m, AddAll(FieldsSoFar(m), FieldsOf(ls))))
    decreases |ls|
  {
    hide ReadFieldLine, Add;
    if ls != [] {
      var f := ReadFieldLine(ls[0]).value;
      AfterFieldsSum(AfterField(m, f, |ls[0]|), ls[1..]);
      assert FieldsOf(ls)[1..] == FieldsOf(ls[1..]);
    }
  }

  /** Adding these lines to `h` never gives a second Host. */
  predicate HostsFit(h: Fields, fs: Fields) {
    OneHost(fs) && forall i :: 0 <= i < |fs| && IsHost(fs[i]) ==> !Has(h, "Host")
  }

  lemma HasAfterAdd(h: Fields, f: Field)
    ensures Has(Add(h, f.name, f.value), "Host") <==> Has(h, "Host") || IsHost(f)
  {
    AddGet(h, f.name, f.value, "Host");
  }

  lemma HostsFitStep(h: Fields, fs: Fields)
    requires fs != []
    ensures HostsFit(h, fs) <==>
              !(IsHost(fs[0]) && Has(h, "Host")) && HostsFit(Add(h, fs[0].name, fs[0].value), fs[1..])
  {
    hide Has, IsHost, Add;
    HasAfterAdd(h, fs[0]);
    var t := fs[1..];
    assert forall i :: 0 <= i < |t| ==> t[i] == fs[i + 1];
    assert forall i :: 0 < i < |fs| ==> fs[i] == t[i - 1];
    if !(IsHost(fs[0]) && Has(h, "Host")) && HostsFit(Add(h, fs[0].name, fs[0].value), t) {
      forall i, j | 0 <= i < j < |fs|
        ensures !(IsHost(fs[i]) && IsHost(fs[j]))
      {
        assert fs[j] == t[j - 1];
        if i > 0 {
          assert fs[i] == t[i - 1];
        }
      }
    }
  }

  lemma FieldLineTaken(lim: Limits, m: Machine, l: string)
    requires InFields(m) && l != []
    ensures OnLine(lim, m, l).Continue? <==>
              m.headerCount + 1 <= lim.maxHeaderCount && ReadFieldLine(l).Ok? &&
              (m.state.Trailers? || !(IsHost(ReadFieldLine(l).value) && Has(m.req.headers, "Host")))
    ensures OnLine(lim, m, l).Continue? ==>
              OnLine(lim, m, l) == Continue(AfterField(m, ReadFieldLine(l).value, |l|), |l| + 2)
  {
    hide ReadFieldLine, Has, Add, OnBlankLine;
  }

  predicate FieldsFit(lim: Limits, m: Machine, ls: seq<string>) {
    && InFields(m) && AreFieldLines(ls)
    && m.headerBytes + |Lines(ls)| <= lim.maxHeaderBytes && m.headerCount + |ls| <= lim.maxHeaderCount
    && (m.state.Trailers? || HostsFit(m.req.headers, FieldsOf(ls)))
  }

  /** Splitting off the first line of a field section that fits. */
  lemma FieldsFitStep(lim: Limits, m: Machine, ls: seq<string>)
    requires InFields(m) && AreFieldLines(ls) && ls != []
    ensures var f := ReadFieldLine(ls[0]).value;
            FieldsFit(lim, m, ls) <==>
              && (m.state.Trailers? || !(IsHost(f) && Has(m.req.headers, "Host")))
              && FieldsFit(lim, AfterField(m, f, |ls[0]|), ls[1..])
  {
    hide ReadFieldLine, Add, Has, HostsFit, IsHost;
    assert FieldsOf(ls)[1..] == FieldsOf(ls[1..]);
    HostsFitStep(m.req.headers, FieldsOf(ls));
  }

  lemma {:induction false} FieldsLead(lim: Limits, m: Machine, ls: seq<string>, rest: string)
    requires FieldsFit(lim, m, ls)
    ensures Feed(lim, m, Lines(ls) + rest) == After(|Lines(ls)|, Feed(lim, AfterFields(m, ls), rest))
    decreases |ls|
  {
    hide Feed, OnLine, ReadFieldLine, Has, IsHost, HostsFit;
    if ls == [] {
      assert Lines(ls) + rest == rest;
    } else {
      var l, t := ls[0], ls[1..];
      var m1 := AfterField(m, ReadFieldLine(l).value, |l|);
      FieldsFitStep(lim, m, ls);
      FieldLineTaken(lim, m, l);
      LineLeads(lim, m, l, m1, Lines(t) + rest);
      Assoc(Line(l), Lines(t), rest);
      FieldsLead(lim, m1, t, rest);
    }
  }

  function WithData(m: Machine, data: string): Machine { m.(req := m.req.(body := m.req.body + data)) }

  /** Data that exactly fills the unit is taken and ends it, whatever the bytes are. */
  lemma DataLeads(lim: Limits, m: Machine, data: string, rest: string)
    requires InData(m) && m.remaining == |data| > 0
    ensures Feed(lim, m, data + rest) ==
            After(|data|, Feed(lim, WithData(m, data).(remaining := 0,
                                                       state := if m.state.Body? then Done else ChunkDataEnd), rest))
  {
    hide Feed;
    var s := data + rest;
    assert s[..|data|] == data && s[|data|..] == rest;
    FeedTurn(lim, m, s);
  }

  lemma ChunkEndLeads(lim: Limits, m: Machine, rest: string)
    requires m.state.ChunkDataEnd?
    ensures Feed(lim, m, CRLF + rest) == After(2, Feed(lim, m.(state := ChunkSize), rest))
  {
    hide Feed;
    var s := CRLF + rest;
    assert s[..2] == CRLF && s[2..] == rest;
    FeedTurn(lim, m, s);
  }

  lemma ChunkLeads(lim: Limits, m: Machine, c: Chunk, rest: string)
    requires m.state.ChunkSize? && m.remaining == 0 && IsChunk(lim, c)
    requires |m.req.body| + |c.data| <= lim.maxBodyBytes
    ensures Feed(lim, m, Line(c.sizeLine) + (Line(c.data) + rest)) ==
            After(|c.sizeLine| + 2 + |c.data| + 2, Feed(lim, WithData(m, c.data), rest))
  {
    hide Feed, ReadChunkSize;
    var m1 := m.(remaining := |c.data|, state := ChunkData);
    var m2 := WithData(m1, c.data).(remaining := 0, state := ChunkDataEnd);
    LineLeads(lim, m, c.sizeLine, m1, Line(c.data) + rest);
    Assoc(c.data, CRLF, rest);
    DataLeads(lim, m1, c.data, CRLF + rest);
    ChunkEndLeads(lim, m2, rest);
  }

  lemma {:induction false} ChunksLead(lim: Limits, m: Machine, cs: seq<Chunk>, rest: string)
    requires m.state.ChunkSize? && m.remaining == 0 && AreChunks(lim, cs)
    requires |m.req.body| + |DataOf(cs)| <= lim.maxBodyBytes
    ensures Feed(lim, m, EncodeChunks(cs) + rest) ==
            After(|EncodeChunks(cs)|, Feed(lim, WithData(m, DataOf(cs)), rest))
    decreases |cs|
  {
    hide Feed, IsChunk;
    if cs == [] {
      assert EncodeChunks(cs) + rest == rest;
      assert WithData(m, "") == m by { assert m.req.body + "" == m.req.body; }
    } else {
      var c, t := cs[0], cs[1..];
      ChunkLeads(lim, m, c, EncodeChunks(t) + rest);
      ChunksLead(lim, WithData(m, c.data), t, rest);
      Assoc(m.req.body, c.data, DataOf(t));
      Assoc(Line(c.sizeLine), Line(c.data) + EncodeChunks(t), rest);
      Assoc(Line(c.data), EncodeChunks(t), rest);
    }
  }

  lemma BlankLeads(lim: Limits, m: Machine, m1: Machine, rest: string)
    requires InFields(m) && !LineTooLong(lim, m, 0)
    requires OnBlankLine(lim, m.(headerBytes := m.headerBytes + 2)) == Continue(m1, 2)
    ensures Feed(lim, m, CRLF + rest) == After(2, Feed(lim, m1, rest))
  {
    hide Feed, FinishHeaders;
    assert FindCrlf("") < 0;
    assert Line("") == CRLF;
    LineLeads(lim, m, "", m1, rest);
  }

  /** Last chunk, trailer section and blank line end the message. */
  lemma TailLeads(lim: Limits, m: Machine, last: string, trailers: seq<string>, rest: string)
    requires m.state.ChunkSize? && FindCrlf(last) < 0 && |last| <= lim.maxChunkLine
    requires ReadChunkSize(last) == Some(0) && AreFieldLines(trailers)
    requires m.headerBytes + |Lines(trailers)| + 2 <= lim.maxHeaderBytes
    requires m.headerCount + |trailers| <= lim.maxHeaderCount
    ensures var m1 := AfterFields(m.(state := Trailers), trailers);
            var m2 := m1.(headerBytes := m1.headerBytes + 2, state := Done);
            Feed(lim, m, Line(last) + (Lines(trailers) + CRLF) + rest) ==
            Fed(m2, |Line(last) + (Lines(trailers) + CRLF)|)
  {
    hide Feed, ReadChunkSize, ReadFieldLine, AddAll;
    var m0 := m.(state := Trailers);
    var m1 := AfterFields(m0, trailers);
    var m2 := m1.(headerBytes := m1.headerBytes + 2, state := Done);
    AfterFieldsSum(m0, trailers);
    Assoc(Line(last), Lines(trailers) + CRLF, rest);
    Assoc(Lines(trailers), CRLF, rest);
    LineLeads(lim, m, last, m0, Lines(trailers) + (CRLF + rest));
    FieldsLead(lim, m0, trailers, CRLF + rest);
    BlankLeads(lim, m1, m2, rest);
    FeedHalted(lim, m2, rest);
  }

  /** The machine once the header section of `msg` has been read, blank line included. */
  function HeadMachine(lim: Limits, msg: Message): Machine
    requires IsStart(lim, msg.startLine) && AreFieldLines(msg.fieldLines)
  {
    var m1 := START.(state := HeaderLines,
                     req := WithStartLine(EMPTY_REQUEST, ReadRequestLine(msg.startLine).value));
    var m2 := AfterFields(m1, msg.fieldLines);
    FinishHeaders(lim, m2.(headerBytes := m2.headerBytes + 2))
  }

  lemma HeadLeads(lim: Limits, msg: Message, rest: string)
    requires WellFormed(lim, msg)
    ensures Feed(lim, START, EncodeHead(msg) + rest) ==
            After(|EncodeHead(msg)| - |EncodePayload(msg.payload)|,
                  Feed(lim, HeadMachine(lim, msg), EncodePayload(msg.payload) + rest))
  {
    hide Feed, ReadRequestLine, ReadFieldLine, DecideFraming, EncodePayload, Has, AddAll, FramedAs, PayloadMatches,
         FramingShown;
    FramingAgrees(lim, msg);
    var ls, body := msg.fieldLines, EncodePayload(msg.payload);
    var m1 := START.(state := HeaderLines,
                     req := WithStartLine(EMPTY_REQUEST, ReadRequestLine(msg.startLine).value));
    var m2 := AfterFields(m1, ls);
    AfterFieldsSum(m1, ls);
    HeadRegroup(Line(msg.startLine), Lines(ls), CRLF, body, rest);
    LineLeads(lim, START, msg.startLine, m1, Lines(ls) + (CRLF + (body + rest)));
    assert HostsFit([], FieldsOf(ls)) by { assert !Has([], "Host") by { HasNone("Host"); } }
    FieldsLead(lim, m1, ls, CRLF + (body + rest));
    BlankLeads(lim, m2, HeadMachine(lim, msg), body + rest);
  }

  lemma HasNone(name: string)
    ensures !Has([], name)
  {
  }

  lemma HeadRegroup(a: string, b: string, c: string, d: string, e: string)
    ensures (a + (b + (c + d))) + e == a + (b + (c + (d + e)))
  {
    Assoc(a, b + (c + d), e);
    Assoc(b, c + d, e);
    Assoc(c, d, e);
  }
}
