/** The parser accepts exactly the well-formed messages, and nothing can be read in two ways. */
module Language {
  import opened Text
  import opened Headers
  import opened RequestParser
  import opened Segmentation
  import opened Driver
  import opened HeaderLines
  import opened Messages

  // ---------- completeness ----------

  /** What parsing a whole message must give: it is done, it used this much, it means this request. */
  predicate Parsed(f: Fed, n: nat, r: Request) { f.m.state.Done? && f.used == n && f.m.req == r }

  lemma HeadMachineForm(lim: Limits, msg: Message)
    requires WellFormed(lim, msg)
    ensures var h := AddAll([], FieldsOf(msg.fieldLines));
            var m := START.(headerBytes := |Lines(msg.fieldLines)| + 2, headerCount := |msg.fieldLines|,
                            req := WithStartLine(EMPTY_REQUEST, ReadRequestLine(msg.startLine).value).(headers := h));
            HeadMachine(lim, msg) == FinishHeaders(lim, m.(state := HeaderLines))
  {
    hide ReadRequestLine, ReadFieldLine, DecideFraming, AddAll, Lines, FieldsOf;
    var m1 := START.(state := HeaderLines,
                     req := WithStartLine(EMPTY_REQUEST, ReadRequestLine(msg.startLine).value));
    AfterFieldsSum(m1, msg.fieldLines);
  }

  lemma PlainLeads(lim: Limits, msg: Message, rest: string)
    requires WellFormed(lim, msg) && msg.payload.Plain?
    ensures Parsed(Feed(lim, HeadMachine(lim, msg), msg.payload.data + rest),
                   |msg.payload.data|, Denote(lim, msg))
  {
    hide Feed, ReadRequestLine, ReadFieldLine, DecideFraming, AddAll, Lines, FieldsOf, HeadMachine, FramedAs,
         ExpectsContinue, SendsOnly, Sends;
    HeadMachineForm(lim, msg);
    FramingAgrees(lim, msg);
    ExpectRule(FieldsOf(msg.fieldLines));
    var m, data := HeadMachine(lim, msg), msg.payload.data;
    assert "" + data == data;
    if data == [] {
      FeedHalted(lim, m, data + rest);
    } else {
      DataLeads(lim, m, data, rest);
      FeedHalted(lim, WithData(m, data).(remaining := 0, state := Done), rest);
    }
  }

  lemma ChunkedLeads(lim: Limits, msg: Message, rest: string)
    requires WellFormed(lim, msg) && msg.payload.Chunks?
    ensures Parsed(Feed(lim, HeadMachine(lim, msg), EncodePayload(msg.payload) + rest),
                   |EncodePayload(msg.payload)|, Denote(lim, msg))
  {
    hide Feed, ReadRequestLine, ReadFieldLine, DecideFraming, AddAll, Lines, FieldsOf, HeadMachine,
         ReadChunkSize, EncodeChunks, DataOf, FramedAs, ExpectsContinue, SendsOnly, Sends;
    HeadMachineForm(lim, msg);
    FramingAgrees(lim, msg);
    ExpectRule(FieldsOf(msg.fieldLines));
    var m := HeadMachine(lim, msg);
    var Chunks(cs, last, trailers) := msg.payload;
    var end := Line(last) + (Lines(trailers) + CRLF);
    Assoc(EncodeChunks(cs), end, rest);
    ChunksLead(lim, m, cs, end + rest);
    assert "" + DataOf(cs) == DataOf(cs);
    var m1 := WithData(m, DataOf(cs));
    TailLeads(lim, m1, last, trailers, rest);
    AfterFieldsSum(m1.(state := Trailers), trailers);
  }

  /** Completeness: every well-formed message, followed by anything, is parsed as what it means and
      nothing behind it is touched. */
  lemma Complete(lim: Limits, msg: Message, rest: string)
    requires WellFormed(lim, msg)
    ensures Parsed(Feed(lim, START, Encode(msg) + rest), |Encode(msg)|, Denote(lim, msg))
  {
    hide Feed, WellFormed, Denote, HeadMachine, EncodePayload, Blanks;
    Assoc(Blanks(msg.blankLines), EncodeHead(msg), rest);
    BlanksLead(lim, msg.blankLines, EncodeHead(msg) + rest);
    HeadLeads(lim, msg, rest);
    if msg.payload.Plain? {
      PlainEncoding(msg);
      PlainLeads(lim, msg, rest);
    } else {
      ChunkedLeads(lim, msg, rest);
    }
  }

  lemma PlainEncoding(msg: Message)
    requires msg.payload.Plain?
    ensures EncodePayload(msg.payload) == msg.payload.data
  {
  }

  // ---------- soundness ----------

  /** A parser that gets from a line state to Done began by accepting one complete line. */
  lemma DoneTakesLine(lim: Limits, m: Machine, data: string) returns (l: string, rest: string)
    requires InLine(m) && Feed(lim, m, data).m.state.Done?
    ensures FindCrlf(l) < 0 && data == Line(l) + rest && !LineTooLong(lim, m, |l|)
    ensures OnLine(lim, m, l).Continue?
    ensures Feed(lim, m, data) == After(|l| + 2, Feed(lim, OnLine(lim, m, l).m, rest))
  {
    hide Feed, OnLine, LineTooLong, PartialTooLong;
    FeedTurn(lim, m, data);
    var eol := FindCrlf(data);
    l, rest := [], [];
    if eol >= 0 {
      FindCrlfPrefix(data);
      l, rest := data[..eol], data[eol + 2..];
      OnLineUses(lim, m, l);
    }
  }

  lemma DoneTakesData(lim: Limits, m: Machine, data: string)
    requires InData(m) && Feed(lim, m, data).m.state.Done?
    ensures |data| >= m.remaining
  {
    hide Feed;
    if |data| < m.remaining {
      DataTaken(lim, m, data);
    }
  }

  lemma DoneTakesChunkEnd(lim: Limits, m: Machine, data: string)
    requires m.state.ChunkDataEnd? && Feed(lim, m, data).m.state.Done?
    ensures |data| >= 2 && data[..2] == CRLF
    ensures Feed(lim, m, data) == After(2, Feed(lim, m.(state := ChunkSize), data[2..]))
  {
    hide Feed;
    FeedTurn(lim, m, data);
  }

  ghost predicate FieldSection(lim: Limits, m: Machine, data: string, ls: seq<string>, rest: string) {
    && FieldsFit(lim, m, ls)
    && data == Lines(ls) + (CRLF + rest)
    && var m1 := AfterFields(m, ls);
    && !LineTooLong(lim, m1, 0)
    && var t := OnBlankLine(lim, m1.(headerBytes := m1.headerBytes + 2));
    && t.Continue?
    && Feed(lim, m, data) == After(|Lines(ls)| + 2, Feed(lim, t.m, rest))
  }

  lemma {:induction false} SoundFields(lim: Limits, m: Machine, data: string)
    returns (ls: seq<string>, rest: string)
    requires InFields(m) && m.headerCount <= lim.maxHeaderCount && Feed(lim, m, data).m.state.Done?
    ensures FieldSection(lim, m, data, ls, rest)
    decreases |data|
  {
    hide Feed, ReadFieldLine, Has, Add, OnBlankLine, IsHost;
    var l;
    l, rest := DoneTakesLine(lim, m, data);
    if l == [] {
      ls := [];
      assert Lines(ls) + (CRLF + rest) == CRLF + rest;
      assert Line(l) == CRLF;
    } else {
      FieldLineTaken(lim, m, l);
      var m1 := AfterField(m, ReadFieldLine(l).value, |l|);
      var rest0 := rest;
      var ls1;
      ls1, rest := SoundFields(lim, m1, rest0);
      ls := [l] + ls1;
      SoundFieldsStep(lim, m, l, ls1, rest0, rest);
    }
  }

  lemma SoundFieldsStep(lim: Limits, m: Machine, l: string, ls1: seq<string>, rest0: string, rest: string)
    requires InFields(m) && IsFieldLine(l) && !LineTooLong(lim, m, |l|)
    requires m.state.Trailers? || !(IsHost(ReadFieldLine(l).value) && Has(m.req.headers, "Host"))
    requires FieldSection(lim, AfterField(m, ReadFieldLine(l).value, |l|), rest0, ls1, rest)
    requires Feed(lim, m, Line(l) + rest0) ==
             After(|l| + 2, Feed(lim, AfterField(m, ReadFieldLine(l).value, |l|), rest0))
    ensures FieldSection(lim, m, Line(l) + rest0, [l] + ls1, rest)
  {
    hide Feed, ReadFieldLine, Has, Add, OnBlankLine, IsHost;
    var ls := [l] + ls1;
    assert ls[1..] == ls1;
    FieldsFitStep(lim, m, ls);
    Assoc(Line(l), Lines(ls1), CRLF + rest);
  }

  ghost predicate ChunkSection(lim: Limits, m: Machine, data: string, cs: seq<Chunk>, last: string, rest: string) {
    && AreChunks(lim, cs) && |m.req.body| + |DataOf(cs)| <= lim.maxBodyBytes
    && FindCrlf(last) < 0 && |last| <= lim.maxChunkLine && ReadChunkSize(last) == Some(0)
    && data == EncodeChunks(cs) + (Line(last) + rest)
    && Feed(lim, m, data) == After(|EncodeChunks(cs)| + |last| + 2,
                                   Feed(lim, WithData(m, DataOf(cs)).(state := Trailers), rest))
  }

  /** The next chunk of a stream that goes on to complete. */
  lemma SoundChunk(lim: Limits, m: Machine, l: string, data: string) returns (c: Chunk, rest: string)
    requires m.state.ChunkSize? && m.remaining == 0 && FindCrlf(l) < 0 && !LineTooLong(lim, m, |l|)
    requires OnLine(lim, m, l).Continue? && OnLine(lim, m, l).m.state.ChunkData?
    requires Feed(lim, OnLine(lim, m, l).m, data).m.state.Done?
    ensures c.sizeLine == l && IsChunk(lim, c) && |m.req.body| + |c.data| <= lim.maxBodyBytes
    ensures data == Line(c.data) + rest
    ensures Feed(lim, WithData(m, c.data), rest).m.state.Done?
  {
    hide Feed, ReadChunkSize;
    var m1 := OnLine(lim, m, l).m;
    var n := m1.remaining;
    DoneTakesData(lim, m1, data);
    var d, after := data[..n], data[n..];
    assert data == d + after;
    DataLeads(lim, m1, d, after);
    var m2 := WithData(m1, d).(remaining := 0, state := ChunkDataEnd);
    DoneTakesChunkEnd(lim, m2, after);
    c, rest := Chunk(l, d), after[2..];
    assert after == CRLF + rest;
    Assoc(d, CRLF, rest);
  }

  lemma {:induction false} SoundChunks(lim: Limits, m: Machine, data: string)
    returns (cs: seq<Chunk>, last: string, rest: string)
    requires m.state.ChunkSize? && m.remaining == 0 && |m.req.body| <= lim.maxBodyBytes
    requires Feed(lim, m, data).m.state.Done?
    ensures ChunkSection(lim, m, data, cs, last, rest)
    decreases |data|
  {
    hide Feed, ReadChunkSize, IsChunk;
    var l;
    l, rest := DoneTakesLine(lim, m, data);
    if OnLine(lim, m, l).m.state.Trailers? {
      cs, last := [], l;
      assert m.req.body + "" == m.req.body;
      assert EncodeChunks(cs) + (Line(last) + rest) == Line(last) + rest;
    } else {
      var c, rest0 := SoundChunk(lim, m, l, rest);
      var cs1;
      cs1, last, rest := SoundChunks(lim, WithData(m, c.data), rest0);
      cs := [c] + cs1;
      SoundChunksStep(lim, m, c, cs1, last, rest0, rest);
    }
  }

  lemma SoundChunksStep(lim: Limits, m: Machine, c: Chunk, cs1: seq<Chunk>, last: string, rest0: string, rest: string)
    requires m.state.ChunkSize? && m.remaining == 0 && IsChunk(lim, c)
    requires |m.req.body| + |c.data| <= lim.maxBodyBytes
    requires ChunkSection(lim, WithData(m, c.data), rest0, cs1, last, rest)
    ensures ChunkSection(lim, m, Line(c.sizeLine) + (Line(c.data) + rest0), [c] + cs1, last, rest)
  {
    hide Feed, ReadChunkSize, IsChunk;
    var cs := [c] + cs1;
    assert cs[1..] == cs1;
    ChunkLeads(lim, m, c, rest0);
    Assoc(m.req.body, c.data, DataOf(cs1));
    Assoc(Line(c.sizeLine), Line(c.data) + EncodeChunks(cs1), Line(last) + rest);
    Assoc(Line(c.data), EncodeChunks(cs1), Line(last) + rest);
  }

  /** The trailer lines fit in what the header section left of the budget. */
  predicate TrailersFit(lim: Limits, m: Machine, p: Payload) {
    p.Chunks? ==>
      && m.headerBytes + |Lines(p.trailerLines)| + 2 <= lim.maxHeaderBytes
      && m.headerCount + |p.trailerLines| <= lim.maxHeaderCount
  }

  lemma SoundChunkedPayload(lim: Limits, m: Machine, data: string) returns (p: Payload)
    requires m.state.ChunkSize? && m.remaining == 0 && m.req.body == ""
    requires m.headerCount <= lim.maxHeaderCount && Feed(lim, m, data).m.state.Done?
    ensures PayloadMatches(lim, ChunkedBody, p) && TrailersFit(lim, m, p)
    ensures EncodePayload(p) <= data
  {
    hide Feed, ReadChunkSize, ReadFieldLine, IsChunk, HostsFit, OnBlankLine;
    var cs, last, rest0 := SoundChunks(lim, m, data);
    var m1 := WithData(m, DataOf(cs)).(state := Trailers);
    var ls, rest := SoundFields(lim, m1, rest0);
    AfterFieldsSum(m1, ls);
    p := Chunks(cs, last, ls);
    Assoc(Lines(ls), CRLF, rest);
    Assoc(Line(last), Lines(ls) + CRLF, rest);
    Assoc(EncodeChunks(cs), Line(last) + (Lines(ls) + CRLF), rest);
    assert data == EncodePayload(p) + rest;
  }

  lemma SoundPayload(lim: Limits, m: Machine, data: string) returns (p: Payload)
    requires m.remaining == 0 && m.req.body == "" && m.headerCount <= lim.maxHeaderCount
    requires FramingOf(lim, m.req).Ok?
    requires Feed(lim, FinishHeaders(lim, m), data).m.state.Done?
    ensures PayloadMatches(lim, FramingOf(lim, m.req).value, p) && TrailersFit(lim, m, p)
    ensures EncodePayload(p) <= data
  {
    hide Feed, DecideFraming, ExpectsContinue;
    var m1 := FinishHeaders(lim, m);
    match FramingOf(lim, m.req).value {
      case NoBody =>
        p := Plain("");
      case Length(n) =>
        if n == 0 {
          p := Plain("");
        } else {
          DoneTakesData(lim, m1, data);
          p := Plain(data[..n]);
        }
      case ChunkedBody =>
        p := SoundChunkedPayload(lim, m1, data);
    }
  }

  /** Soundness: whenever the parser is done, the bytes it used are a well-formed message. */
  lemma {:induction false} Sound(lim: Limits, data: string) returns (msg: Message)
    requires Feed(lim, START, data).m.state.Done?
    ensures WellFormed(lim, msg) && Encode(msg) <= data
    decreases |data|
  {
    hide Feed, OnLine, WellFormed;
    var l, rest := DoneTakesLine(lim, START, data);
    if l == [] {
      assert Line(l) == CRLF;
      BlankIgnored(lim);
      var msg0 := Sound(lim, rest);
      msg := msg0.(blankLines := msg0.blankLines + 1);
      SoundBlank(lim, msg0, rest);
    } else {
      msg := SoundHead(lim, l, rest);
    }
  }

  lemma BlankIgnored(lim: Limits)
    ensures OnLine(lim, START, "") == Continue(START, 2)
  {
  }

  lemma SoundBlank(lim: Limits, msg: Message, rest: string)
    requires WellFormed(lim, msg) && Encode(msg) <= rest
    ensures var more := msg.(blankLines := msg.blankLines + 1);
            WellFormed(lim, more) && Encode(more) <= CRLF + rest
  {
    hide WellFormed, EncodeHead;
    var more := msg.(blankLines := msg.blankLines + 1);
    BlankLinesImmaterial(lim, msg, more);
    Assoc(CRLF, Blanks(msg.blankLines), EncodeHead(msg));
  }

  lemma BlankLinesImmaterial(lim: Limits, a: Message, b: Message)
    requires a == b.(blankLines := a.blankLines)
    ensures EncodeHead(a) == EncodeHead(b)
    ensures WellFormed(lim, a) ==> WellFormed(lim, b)
  {
    hide ReadRequestLine, ReadFieldLine, FramedAs, PayloadMatches, FieldsOf, Lines, EncodePayload, OneHost;
  }

  lemma SoundHead(lim: Limits, l: string, data: string) returns (msg: Message)
    requires l != [] && FindCrlf(l) < 0 && !LineTooLong(lim, START, |l|) && OnLine(lim, START, l).Continue?
    requires Feed(lim, OnLine(lim, START, l).m, data).m.state.Done?
    ensures WellFormed(lim, msg) && Encode(msg) <= Line(l) + data
  {
    hide Feed, ReadRequestLine, ReadFieldLine, DecideFraming, PayloadMatches, EncodePayload, AddAll, Has, FramedAs,
         FramingShown;
    var m1 := OnLine(lim, START, l).m;
    var ls, rest0 := SoundFields(lim, m1, data);
    AfterFieldsSum(m1, ls);
    var m2 := AfterFields(m1, ls);
    var m3 := m2.(headerBytes := m2.headerBytes + 2);
    var p := SoundPayload(lim, m3, rest0);
    msg := Message(0, l, ls, p);
    var body, rest := EncodePayload(p), rest0[|EncodePayload(p)|..];
    assert rest0 == body + rest;
    HeadRegroup(Line(l), Lines(ls), CRLF, body, rest);
    assert Encode(msg) == EncodeHead(msg) by { assert "" + EncodeHead(msg) == EncodeHead(msg); }
    assert Line(l) + data == Encode(msg) + rest;
    assert WellFormed(lim, msg) by {
      assert HeadFraming(lim, msg) == FramingOf(lim, m3.req);
      ShownIsDecided(lim, m3.req.versionMinor, FieldsOf(ls), FramingOf(lim, m3.req).value, p);
    }
  }

  /** A payload of the form decided on shows that form. */
  lemma ShownIsDecided(lim: Limits, minor: nat, fs: Fields, f: BodyFraming, p: Payload)
    requires DecideFraming(lim, AddAll([], fs), minor) == Ok(f) && PayloadMatches(lim, f, p)
    ensures FramingShown(fs, p) == f && FramedAs(lim, minor, fs, f)
  {
    hide DecideFraming, AddAll, Sends, SendsOnly, EveryLengthIs, AreChunks, AreFieldLines;
    FramingRule(lim, minor, fs, f);
  }

  // ---------- the theorems ----------

  /** The language of the parser is the grammar: it is done on `data` exactly when some well-formed
      message is a prefix of it, and then it has used that message and delivers its meaning. */
  lemma AcceptsExactlyMessages(lim: Limits, data: string)
    ensures Feed(lim, START, data).m.state.Done? <==>
              exists msg :: WellFormed(lim, msg) && Encode(msg) <= data
    ensures forall msg :: WellFormed(lim, msg) && Encode(msg) <= data ==>
              Parsed(Feed(lim, START, data), |Encode(msg)|, Denote(lim, msg))
  {
    hide Feed, WellFormed, Denote, Encode;
    if Feed(lim, START, data).m.state.Done? {
      var msg := Sound(lim, data);
    }
    forall msg | WellFormed(lim, msg) && Encode(msg) <= data
      ensures Parsed(Feed(lim, START, data), |Encode(msg)|, Denote(lim, msg))
    {
      var rest := data[|Encode(msg)|..];
      assert data == Encode(msg) + rest;
      Complete(lim, msg, rest);
    }
  }

  /** One byte stream cannot be read as two different first messages. */
  lemma Unambiguous(lim: Limits, a: Message, b: Message, s: string, t: string)
    requires WellFormed(lim, a) && WellFormed(lim, b) && Encode(a) + s == Encode(b) + t
    ensures Encode(a) == Encode(b) && s == t && Denote(lim, a) == Denote(lim, b)
  {
    hide Feed, WellFormed, Denote, Encode;
    Complete(lim, a, s);
    Complete(lim, b, t);
    assert (Encode(a) + s)[..|Encode(a)|] == Encode(a);
    assert (Encode(b) + t)[..|Encode(b)|] == Encode(b);
    assert (Encode(a) + s)[|Encode(a)|..] == s;
    assert (Encode(b) + t)[|Encode(b)|..] == t;
  }

  function EncodeAll(msgs: seq<Message>): string {
    if msgs == [] then "" else Encode(msgs[0]) + EncodeAll(msgs[1..])
  }

  function DenoteAll(lim: Limits, msgs: seq<Message>): seq<Request>
    requires forall i :: 0 <= i < |msgs| ==> WellFormed(lim, msgs[i])
  {
    hide WellFormed;
    if msgs == [] then [] else [Denote(lim, msgs[0])] + DenoteAll(lim, msgs[1..])
  }

  /** Whole streams: a pipeline of well-formed messages is delivered as their meanings in order, and the
      parser is then as new for the bytes behind. */
  lemma {:induction false} PipelineMeaning(lim: Limits, msgs: seq<Message>, after: string)
    requires forall i :: 0 <= i < |msgs| ==> WellFormed(lim, msgs[i])
    ensures var d := Drain(lim, START, after);
            Drain(lim, START, EncodeAll(msgs) + after) ==
            Drained(DenoteAll(lim, msgs) + d.requests, d.m, |EncodeAll(msgs)| + d.used)
    decreases |msgs|
  {
    hide Feed, WellFormed, Denote, Encode;
    if msgs == [] {
      assert EncodeAll(msgs) + after == after;
    } else {
      var rest := EncodeAll(msgs[1..]) + after;
      Complete(lim, msgs[0], rest);
      PipelineMeaning(lim, msgs[1..], after);
      Assoc(Encode(msgs[0]), EncodeAll(msgs[1..]), after);
      assert (Encode(msgs[0]) + rest)[|Encode(msgs[0])|..] == rest;
      Assoc([Denote(lim, msgs[0])], DenoteAll(lim, msgs[1..]), Drain(lim, START, after).requests);
    }
  }

  /** And conversely: whatever is delivered from a stream is a pipeline of well-formed messages. */
  lemma {:induction false} DeliveredIsPipeline(lim: Limits, data: string) returns (msgs: seq<Message>)
    ensures forall i :: 0 <= i < |msgs| ==> WellFormed(lim, msgs[i])
    ensures EncodeAll(msgs) <= data
    ensures Drain(lim, START, data).requests == DenoteAll(lim, msgs)
    decreases |data|
  {
    hide Feed, WellFormed, Denote, Encode;
    var f := Feed(lim, START, data);
    msgs := [];
    if f.m.state.Done? {
      DoneUsesBytes(lim, data);
      var msg := Sound(lim, data);
      var rest := data[|Encode(msg)|..];
      assert data == Encode(msg) + rest;
      Complete(lim, msg, rest);
      var later := DeliveredIsPipeline(lim, rest);
      msgs := [msg] + later;
      assert msgs[1..] == later;
      var tail := rest[|EncodeAll(later)|..];
      Assoc(Encode(msg), EncodeAll(later), tail);
      assert data == EncodeAll(msgs) + tail;
    }
  }

  /** Section 6.3 of RFC 9112 on the lines as sent: a message with Content-Length lines has no
      Transfer-Encoding line, every one of them declares the same length, and that is the length of the
      body; one with Transfer-Encoding is chunked; one with neither has no body. */
  lemma FramingLines(lim: Limits, msg: Message)
    requires WellFormed(lim, msg)
    ensures var fs := FieldsOf(msg.fieldLines);
            var body := BodyOf(msg.payload);
            && !(Sends(fs, "Content-Length") && Sends(fs, "Transfer-Encoding"))
            && (forall i :: 0 <= i < |fs| && IEquals(fs[i].name, "Content-Length") ==>
                  ContentLength(fs[i].value) == Some(|body|))
            && (Sends(fs, "Transfer-Encoding") <==> msg.payload.Chunks?)
            && (!Sends(fs, "Content-Length") && !Sends(fs, "Transfer-Encoding") ==> body == "")
  {
    hide ReadRequestLine, ReadFieldLine, ContentLength, IEquals, FieldsOf, Lines, OneHost, AreChunks, AgreedLength;
    var fs := FieldsOf(msg.fieldLines);
    SaidOnceIsSent(fs, "Transfer-Encoding", "chunked");
    forall i | 0 <= i < |fs| && IEquals(fs[i].name, "Content-Length")
      ensures ContentLength(fs[i].value) == Some(|BodyOf(msg.payload)|)
    {
      ContentLengthMeaning(fs[i].value, |BodyOf(msg.payload)|);
    }
  }

  /** Whether the connection persists after a message, on its lines as sent. */
  lemma PersistenceLines(lim: Limits, msg: Message)
    requires WellFormed(lim, msg)
    ensures var fs, r := FieldsOf(msg.fieldLines), Denote(lim, msg);
            r.KeepAlive() <==>
              && !SendsToken(fs, "Connection", "close")
              && (r.IsHttp10() ==> SendsToken(fs, "Connection", "keep-alive"))
  {
    hide FramedAs, PayloadMatches, AddAll, FieldsOf, SendsToken, HasToken, ReadRequestLine;
    PersistenceRule(Denote(lim, msg), FieldsOf(msg.fieldLines));
  }
}
