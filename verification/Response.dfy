/** Serialisation of response heads, whose framing headers are derived and never taken from the handler. */
module Response {
  import opened Text
  import opened Numbers
  import opened Headers
  import opened RequestParser
  import opened Messages

  /** One answer of a streaming body: a piece, whether more follows, the trailers as they now are. */
  datatype Answer = Piece(piece: string, more: bool, trailers: Fields) | Throws

  /** A producer is any infinite list of answers; those after the last one asked for do not matter. */
  type Producer = nat -> Answer

  /** An open file: what its bytes are, and which range the response covers. */
  datatype FileBody = FileBody(content: string, offset: nat, length: nat)

  datatype Response = Response(
    status: nat, headers: Fields, body: string, file: Option<FileBody>, producer: Option<Producer>,
    streamLength: Option<nat>)

  datatype Framing = NoFraming | ByLength(n: nat) | ByChunks | ByClose

  datatype HeadOptions = HeadOptions(keepAlive: bool, http10: bool, date: string)

  /** Without CR and LF. */
  predicate NoBreaks(s: string) { forall i :: 0 <= i < |s| ==> s[i] != '\r' && s[i] != '\n' }

  function SuccessPhrase(status: nat): (r: string)
    ensures NoBreaks(r)
  {
    match status
    case 100 => "Continue"
    case 200 => "OK"
    case 201 => "Created"
    case 204 => "No Content"
    case _ => "Unknown"
  }

  function RedirectPhrase(status: nat): (r: string)
    ensures NoBreaks(r)
  {
    match status
    case 206 => "Partial Content"
    case 301 => "Moved Permanently"
    case 302 => "Found"
    case 304 => "Not Modified"
    case _ => "Unknown"
  }

  function ClientPhrase(status: nat): (r: string)
    ensures NoBreaks(r)
  {
    match status
    case 400 => "Bad Request"
    case 403 => "Forbidden"
    case 404 => "Not Found"
    case 405 => "Method Not Allowed"
    case _ => "Unknown"
  }

  function RetryPhrase(status: nat): (r: string)
    ensures NoBreaks(r)
  {
    match status
    case 408 => "Request Timeout"
    case 411 => "Length Required"
    case 413 => "Content Too Large"
    case _ => "Unknown"
  }

  function LimitPhrase(status: nat): (r: string)
    ensures NoBreaks(r)
  {
    match status
    case 414 => "URI Too Long"
    case 417 => "Expectation Failed"
    case 429 => "Too Many Requests"
    case _ => "Unknown"
  }

  function TooLargePhrase(status: nat): (r: string)
    ensures NoBreaks(r)
  {
    match status
    case 431 => "Request Header Fields Too Large"
    case _ => "Unknown"
  }

  function ServerPhrase(status: nat): (r: string)
    ensures NoBreaks(r)
  {
    match status
    case 500 => "Internal Server Error"
    case 501 => "Not Implemented"
    case _ => "Unknown"
  }

  function LatePhrase(status: nat): (r: string)
    ensures NoBreaks(r)
  {
    match status
    case 503 => "Service Unavailable"
    case 505 => "HTTP Version Not Supported"
    case _ => "Unknown"
  }

  function ReasonPhrase(status: nat): (r: string)
    ensures NoBreaks(r)
  {
    if status < 206 then SuccessPhrase(status)
    else if status < 400 then RedirectPhrase(status)
    else if status < 406 then ClientPhrase(status)
    else if status < 414 then RetryPhrase(status)
    else if status < 430 then LimitPhrase(status)
    else if status < 500 then TooLargePhrase(status)
    else if status < 503 then ServerPhrase(status)
    else LatePhrase(status)
  }

  const PHRASES := map[
    100 := "Continue", 200 := "OK", 201 := "Created", 204 := "No Content", 206 := "Partial Content",
    301 := "Moved Permanently", 302 := "Found", 304 := "Not Modified",
    400 := "Bad Request", 403 := "Forbidden", 404 := "Not Found", 405 := "Method Not Allowed",
    408 := "Request Timeout", 411 := "Length Required", 413 := "Content Too Large", 414 := "URI Too Long",
    417 := "Expectation Failed", 429 := "Too Many Requests", 431 := "Request Header Fields Too Large",
    500 := "Internal Server Error", 501 := "Not Implemented", 503 := "Service Unavailable",
    505 := "HTTP Version Not Supported"]

  /** The phrases of the registered statuses in use, and the word for all others. */
  lemma PhraseTable(status: nat)
    ensures ReasonPhrase(status) == if status in PHRASES then PHRASES[status] else "Unknown"
  {
  }

  predicate NoContentStatus(status: nat) { status / 100 == 1 || status == 204 || status == 304 }

  function FramingFor(res: Response, http10: bool): Framing {
    if NoContentStatus(res.status) then NoFraming
    else if res.file.Some? then ByLength(res.file.value.length)
    else if res.producer.Some? then
      if res.streamLength.Some? then ByLength(res.streamLength.value)
      else if http10 then ByClose else ByChunks
    else ByLength(|res.body|)
  }

  predicate IsFramingName(name: string) {
    || IEquals(name, "Content-Length") || IEquals(name, "Transfer-Encoding")
    || IEquals(name, "Connection") || IEquals(name, "Date")
  }

  predicate StaysOpen(res: Response, opts: HeadOptions) {
    opts.keepAlive && !FramingFor(res, opts.http10).ByClose?
  }

  // ---------- the fields of a head ----------

  function NonFraming(fs: Fields): Fields {
    if fs == [] then []
    else
      var k := |fs| - 1;
      NonFraming(fs[..k]) + if IsFramingName(fs[k].name) then [] else [fs[k]]
  }

  /** The names the server sets itself. */
  const DERIVED_NAMES := ["Content-Length", "Transfer-Encoding", "Connection", "Date"]

  predicate IsDerived(name: string) {
    exists k :: 0 <= k < |DERIVED_NAMES| && SameLetters(name, DERIVED_NAMES[k])
  }

  lemma FramingNameMeaning(name: string)
    ensures IsFramingName(name) <==> IsDerived(name)
  {
    hide IEquals, SameLetters;
    IEqualsMeaning(name, "Content-Length");
    IEqualsMeaning(name, "Transfer-Encoding");
    IEqualsMeaning(name, "Connection");
    IEqualsMeaning(name, "Date");
    assert DERIVED_NAMES[0] == "Content-Length" && DERIVED_NAMES[1] == "Transfer-Encoding";
    assert DERIVED_NAMES[2] == "Connection" && DERIVED_NAMES[3] == "Date";
  }

  /** The positions, in order, of the fields that are not the server's to set. */
  predicate AreKept(fs: Fields, ks: seq<nat>) {
    ArePositions(ks, |fs|) && forall i :: 0 <= i < |fs| ==> (i in ks <==> !IsDerived(fs[i].name))
  }

  /** The handler's fields are all there, in their order, but those that are the server's to set. */
  lemma {:induction false} NonFramingKeeps(fs: Fields) returns (ks: seq<nat>)
    ensures AreKept(fs, ks) && NonFraming(fs) == Pick(fs, ks)
  {
    hide IsFramingName, IsDerived, Pick, AreKept, NonFraming;
    ks := [];
    if fs == [] {
      NoneKept();
    } else {
      var k := |fs| - 1;
      var front, f := fs[..k], fs[k];
      var js := NonFramingKeeps(front);
      FramingNameMeaning(f.name);
      ks := if IsFramingName(f.name) then js else js + [k];
      assert fs == front + [f];
      KeptPositions(front, js);
      PickStep(front, js, f);
      KeptStep(front, js, f);
      NonFramingStep(front, f);
    }
  }

  lemma NoneKept()
    ensures AreKept([], []) && NonFraming([]) == Pick([], [])
  {
  }

  lemma KeptPositions(fs: Fields, ks: seq<nat>)
    requires AreKept(fs, ks)
    ensures ArePositions(ks, |fs|)
  {
  }

  lemma NonFramingStep(fs: Fields, f: Field)
    ensures NonFraming(fs + [f]) == if IsFramingName(f.name) then NonFraming(fs) else NonFraming(fs) + [f]
  {
    hide IsFramingName;
    assert (fs + [f])[..|fs|] == fs;
  }

  lemma KeptStep(fs: Fields, js: seq<nat>, f: Field)
    requires AreKept(fs, js)
    ensures AreKept(fs + [f], if IsDerived(f.name) then js else js + [|fs|])
  {
    hide IsDerived;
    PickStep(fs, js, f);
    assert forall i :: 0 <= i < |fs| ==> (fs + [f])[i] == fs[i];
  }

  function ServerField(res: Response): Fields {
    if Has(res.headers, "Server") then [] else [Field("Server", "httpd-cpp")]
  }

  function DateField(opts: HeadOptions): Fields {
    if opts.date == "" then [] else [Field("Date", opts.date)]
  }

  function LengthField(res: Response, opts: HeadOptions): Fields {
    match FramingFor(res, opts.http10)
    case ByLength(n) => [Field("Content-Length", ToBase(n, 10))]
    case ByChunks => [Field("Transfer-Encoding", "chunked")]
    case _ => []
  }

  function ConnectionField(res: Response, opts: HeadOptions): Fields {
    if !StaysOpen(res, opts) then [Field("Connection", "close")]
    else if opts.http10 then [Field("Connection", "keep-alive")]
    else []
  }

  /** The handler's own fields in order, then the derived ones. */
  function HandlerFields(res: Response): Fields { NonFraming(res.headers) + ServerField(res) }

  function DatedFields(res: Response, opts: HeadOptions): Fields { HandlerFields(res) + DateField(opts) }

  function FramedFields(res: Response, opts: HeadOptions): Fields {
    DatedFields(res, opts) + LengthField(res, opts)
  }

  function HeadFields(res: Response, opts: HeadOptions): Fields {
    FramedFields(res, opts) + ConnectionField(res, opts)
  }

  function Render(f: Field): string { f.name + ": " + f.value }

  function RenderAll(fs: Fields): (ls: seq<string>)
    ensures |ls| == |fs| && forall i :: 0 <= i < |fs| ==> ls[i] == Render(fs[i])
  {
    if fs == [] then [] else [Render(fs[0])] + RenderAll(fs[1..])
  }

  function StatusLine(res: Response): string {
    "HTTP/1.1 " + ToBase(res.status, 10) + " " + ReasonPhrase(res.status)
  }

  function HeadText(res: Response, opts: HeadOptions): string {
    Line(StatusLine(res)) + (Lines(RenderAll(HeadFields(res, opts))) + CRLF)
  }

  lemma {:induction false} LinesAppend(a: seq<string>, b: seq<string>)
    ensures Lines(a + b) == Lines(a) + Lines(b)
    decreases |a|
  {
    if a == [] {
      assert a + b == b;
    } else {
      assert (a + b)[1..] == a[1..] + b;
      LinesAppend(a[1..], b);
      Assoc(Line(a[0]), Lines(a[1..]), Lines(b));
    }
  }

  function FieldText(fs: Fields): string { Lines(RenderAll(fs)) }

  lemma FieldTextAppend(a: Fields, b: Fields)
    ensures FieldText(a + b) == FieldText(a) + FieldText(b)
  {
    assert RenderAll(a + b) == RenderAll(a) + RenderAll(b);
    LinesAppend(RenderAll(a), RenderAll(b));
  }

  lemma FieldTextOne(f: Field)
    ensures FieldText([f]) == f.name + ": " + f.value + CRLF
    ensures FieldText([]) == ""
  {
    assert RenderAll([f]) == [Render(f)];
    assert Lines([Render(f)]) == Line(Render(f)) + Lines([Render(f)][1..]);
  }

  method AppendField(out: string, name: string, value: string) returns (r: string)
    ensures r == out + FieldText([Field(name, value)])
  {
    FieldTextOne(Field(name, value));
    r := out + (name + ": " + value + CRLF);
  }

  /** The loop over the handler's headers, which skips the framing ones. */
  method WriteFields(headers: Fields) returns (text: string)
    ensures text == FieldText(NonFraming(headers))
    ensures exists ks :: AreKept(headers, ks) && text == FieldText(Pick(headers, ks))
  {
    hide IsFramingName, FieldText, AreKept;
    text := "";
    FieldTextOne(Field("", ""));
    for i := 0 to |headers|
      invariant text == FieldText(NonFraming(headers[..i]))
    {
      assert headers[..i + 1][..i] == headers[..i];
      if !IsFramingName(headers[i].name) {
        FieldTextAppend(NonFraming(headers[..i]), [headers[i]]);
        text := AppendField(text, headers[i].name, headers[i].value);
      } else {
        assert NonFraming(headers[..i]) + [] == NonFraming(headers[..i]);
      }
    }
    assert headers[..|headers|] == headers;
    ghost var ks := NonFramingKeeps(headers);
  }

  method WriteFramingFields(before: string, res: Response, opts: HeadOptions) returns (text: string)
    requires before == FieldText(DatedFields(res, opts))
    ensures text == FieldText(HeadFields(res, opts))
  {
    hide ToBase, FieldText, DatedFields;
    text := before;
    FieldTextOne(Field("", ""));
    FieldTextAppend(DatedFields(res, opts), LengthField(res, opts));
    match FramingFor(res, opts.http10) {
      case ByLength(n) => text := AppendField(text, "Content-Length", ToBase(n, 10));
      case ByChunks => text := AppendField(text, "Transfer-Encoding", "chunked");
      case _ =>
    }
    FieldTextAppend(FramedFields(res, opts), ConnectionField(res, opts));
    if !StaysOpen(res, opts) {
      text := AppendField(text, "Connection", "close");
    } else if opts.http10 {
      text := AppendField(text, "Connection", "keep-alive");
    }
  }

  /** `write_head`: appends the head to what is already queued and says how the body is framed. */
  method WriteHead(out: string, res: Response, opts: HeadOptions) returns (r: string, framing: Framing)
    ensures r == out + HeadText(res, opts)
    ensures framing == FramingFor(res, opts.http10)
    ensures BeginsWithHandlers(res, opts)
  {
    hide FieldText, NonFraming, Has, HeadFields, StatusLine, BeginsWithHandlers;
    HeadBeginsWithHandlers(res, opts);
    framing := FramingFor(res, opts.http10);
    FieldTextOne(Field("", ""));
    var text := WriteFields(res.headers);
    FieldTextAppend(NonFraming(res.headers), ServerField(res));
    if !Has(res.headers, "Server") { text := AppendField(text, "Server", "httpd-cpp"); }
    FieldTextAppend(HandlerFields(res), DateField(opts));
    if opts.date != "" { text := AppendField(text, "Date", opts.date); }
    text := WriteFramingFields(text, res, opts);
    HeadTextForm(res, opts);
    r := out + (Line(StatusLine(res)) + (text + CRLF));
  }

  lemma HeadTextForm(res: Response, opts: HeadOptions)
    ensures HeadText(res, opts) == Line(StatusLine(res)) + (FieldText(HeadFields(res, opts)) + CRLF)
  {
  }

  /** The head begins with the handler's own fields, all of them and in order. */
  ghost predicate BeginsWithHandlers(res: Response, opts: HeadOptions) {
    exists ks :: AreKept(res.headers, ks) && Pick(res.headers, ks) <= HeadFields(res, opts)
  }

  lemma HeadBeginsWithHandlers(res: Response, opts: HeadOptions)
    ensures BeginsWithHandlers(res, opts)
  {
    hide NonFraming, AreKept, ServerField, DateField, LengthField, ConnectionField;
    var ks := NonFramingKeeps(res.headers);
  }

  // ---------- reading a head back ----------

  datatype Head = Head(startLine: string, lines: seq<string>, rest: string)

  /** The lines up to the first blank one. */
  function TakeLines(s: string): Option<(seq<string>, string)>
    decreases |s|
  {
    var eol := FindCrlf(s);
    if eol < 0 then None
    else if eol == 0 then Some(([], s[2..]))
    else
      var t := TakeLines(s[eol + 2..]);
      if t.None? then None else Some(([s[..eol]] + t.value.0, t.value.1))
  }

  function ReadHead(s: string): Option<Head> {
    var eol := FindCrlf(s);
    if eol < 0 then None
    else
      var t := TakeLines(s[eol + 2..]);
      if t.None? then None else Some(Head(s[..eol], t.value.0, t.value.1))
  }

  predicate PlainLines(ls: seq<string>) { forall i :: 0 <= i < |ls| ==> ls[i] != [] && FindCrlf(ls[i]) < 0 }

  lemma {:induction false} TakeLinesBack(ls: seq<string>, rest: string)
    requires PlainLines(ls)
    ensures TakeLines(Lines(ls) + (CRLF + rest)) == Some((ls, rest))
    decreases |ls|
  {
    hide FindCrlf, CrlfAt;
    var s := Lines(ls) + (CRLF + rest);
    if ls == [] {
      assert s == CRLF + rest;
      FindCrlfEmpty();
      FindCrlfAfterLine("", rest);
      assert "" + CRLF + rest == s;
      assert s[2..] == rest;
    } else {
      var tail := Lines(ls[1..]) + (CRLF + rest);
      Assoc(Line(ls[0]), Lines(ls[1..]), CRLF + rest);
      TakeLinesBack(ls[1..], rest);
      FindCrlfAfterLine(ls[0], tail);
      assert s[..|ls[0]|] == ls[0] && s[|ls[0]| + 2..] == tail;
      assert [ls[0]] + ls[1..] == ls;
    }
  }

  lemma NoBreaksNoCrlf(s: string)
    requires NoBreaks(s)
    ensures FindCrlf(s) < 0
  {
    assert FindCrlf(s) >= 0 ==> CrlfAt(s, FindCrlf(s));
  }

  /** Names and values as the repository's handlers give them: no line breaks. */
  predicate CleanFields(fs: Fields) {
    forall i :: 0 <= i < |fs| ==> NoBreaks(fs[i].name) && NoBreaks(fs[i].value)
  }

  lemma RenderPlain(fs: Fields)
    requires CleanFields(fs)
    ensures PlainLines(RenderAll(fs))
  {
    forall i | 0 <= i < |fs|
      ensures RenderAll(fs)[i] != [] && FindCrlf(RenderAll(fs)[i]) < 0
    {
      assert NoBreaks(fs[i].name + ": ");
      NoBreaksNoCrlf(Render(fs[i]));
    }
  }

  lemma {:induction false} NonFramingClean(fs: Fields)
    requires CleanFields(fs)
    ensures CleanFields(NonFraming(fs))
  {
    hide IsFramingName, NoBreaks;
    if fs != [] {
      NonFramingClean(fs[..|fs| - 1]);
    }
  }

  lemma CleanAppend(a: Fields, b: Fields)
    requires CleanFields(a) && CleanFields(b)
    ensures CleanFields(a + b)
  {
    hide NoBreaks;
  }

  lemma LengthFieldClean(res: Response, opts: HeadOptions)
    ensures CleanFields(LengthField(res, opts))
  {
    hide ToBase, FramingFor;
    if FramingFor(res, opts.http10).ByLength? {
      ToBaseClean(FramingFor(res, opts.http10).n, 10, '\r');
      ToBaseClean(FramingFor(res, opts.http10).n, 10, '\n');
    }
  }

  lemma DerivedClean(res: Response, opts: HeadOptions)
    requires NoBreaks(opts.date)
    ensures CleanFields(ServerField(res)) && CleanFields(DateField(opts))
    ensures CleanFields(ConnectionField(res, opts))
  {
    hide Has, FramingFor;
  }

  lemma HeadFieldsClean(res: Response, opts: HeadOptions)
    requires CleanFields(res.headers) && NoBreaks(opts.date)
    ensures CleanFields(HeadFields(res, opts))
  {
    hide CleanFields, NonFraming, ServerField, DateField, LengthField, ConnectionField;
    NonFramingClean(res.headers);
    DerivedClean(res, opts);
    LengthFieldClean(res, opts);
    CleanAppend(NonFraming(res.headers), ServerField(res));
    CleanAppend(HandlerFields(res), DateField(opts));
    CleanAppend(DatedFields(res, opts), LengthField(res, opts));
    CleanAppend(FramedFields(res, opts), ConnectionField(res, opts));
  }

  lemma StatusLineClean(res: Response)
    ensures FindCrlf(StatusLine(res)) < 0
  {
    hide ToBase, ReasonPhrase;
    ToBaseClean(res.status, 10, '\r');
    ToBaseClean(res.status, 10, '\n');
    assert NoBreaks("HTTP/1.1 " + ToBase(res.status, 10) + " ");
    NoBreaksNoCrlf(StatusLine(res));
  }

  /** Head round trip: whatever body follows, splitting the emitted text gives the status line, the
      derived field lines one for one, and that body untouched. */
  lemma HeadRoundTrip(res: Response, opts: HeadOptions, body: string)
    requires CleanFields(res.headers) && NoBreaks(opts.date)
    ensures ReadHead(HeadText(res, opts) + body) ==
            Some(Head(StatusLine(res), RenderAll(HeadFields(res, opts)), body))
  {
    hide StatusLine, HeadFields, RenderAll, Lines, TakeLines;
    var start, ls := StatusLine(res), RenderAll(HeadFields(res, opts));
    var tail := Lines(ls) + (CRLF + body);
    HeadFieldsClean(res, opts);
    RenderPlain(HeadFields(res, opts));
    StatusLineClean(res);
    Assoc(Line(start), Lines(ls) + CRLF, body);
    Assoc(Lines(ls), CRLF, body);
    TakeLinesBack(ls, body);
    var s := Line(start) + tail;
    FindCrlfAfterLine(start, tail);
    assert s[..|start|] == start && s[|start| + 2..] == tail;
  }

  /** Reading one rendered line gives the name and the value without surrounding whitespace. */
  lemma FieldRoundTrip(f: Field)
    requires IsToken(f.name) && IsFieldValue(Trim(f.value))
    ensures ReadFieldLine(Render(f)) == Ok(Field(f.name, Trim(f.value)))
  {
    hide Trim;
    var line := Render(f);
    assert line == f.name + [':'] + (" " + f.value);
    assert ':' !in f.name;
    FindCharAt(f.name, ':', " " + f.value);
    assert line[..|f.name|] == f.name && line[|f.name| + 1..] == " " + f.value;
    TrimPad(f.value);
  }

  lemma TrimPad(v: string)
    ensures Trim(" " + v) == Trim(v)
  {
    TrimLeftSkips(" ", v);
  }

  // ---------- framing headers are derived ----------

  function Named(fs: Fields, key: string): Fields {
    if fs == [] then []
    else
      var k := |fs| - 1;
      Named(fs[..k], key) + if IEquals(fs[k].name, key) then [fs[k]] else []
  }

  lemma {:induction false} NamedAppend(a: Fields, b: Fields, key: string)
    ensures Named(a + b, key) == Named(a, key) + Named(b, key)
    decreases |b|
  {
    hide IEquals;
    if b == [] {
      assert a + b == a;
    } else {
      var k := |b| - 1;
      assert (a + b)[..|a + b| - 1] == a + b[..k];
      NamedAppend(a, b[..k], key);
    }
  }

  lemma NamedOne(f: Field, key: string)
    ensures Named([f], key) == if IEquals(f.name, key) then [f] else []
    ensures Named([], key) == []
  {
    assert [f][..0] == [];
  }

  /** Of the handler's own fields, those named by a key are all there, unless the name is the server's to set. */
  lemma {:induction false} NonFramingNamed(fs: Fields, key: string)
    ensures Named(NonFraming(fs), key) == if IsFramingName(key) then [] else Named(fs, key)
  {
    hide IEquals, IsFramingName, Named;
    NamedOne(Field("", ""), key);
    if fs != [] {
      var k := |fs| - 1;
      var f := fs[k];
      NonFramingNamed(fs[..k], key);
      assert fs == fs[..k] + [f];
      NamedAppend(fs[..k], [f], key);
      NamedOne(f, key);
      if IEquals(f.name, key) {
        SameKind(f.name, key);
      }
      if IsFramingName(f.name) {
        assert NonFraming(fs) == NonFraming(fs[..k]);
        assert Named(fs[..k], key) + [] == Named(fs[..k], key);
      } else {
        NamedAppend(NonFraming(fs[..k]), [f], key);
      }
    }
  }

  lemma SameKind(name: string, key: string)
    requires IEquals(name, key)
    ensures IsFramingName(name) <==> IsFramingName(key)
  {
  }

  lemma NamedInHead(res: Response, opts: HeadOptions, key: string)
    ensures Named(HeadFields(res, opts), key) ==
            Named(NonFraming(res.headers), key) + Named(ServerField(res), key) + Named(DateField(opts), key)
            + Named(LengthField(res, opts), key) + Named(ConnectionField(res, opts), key)
  {
    hide NonFraming, Named, ServerField, DateField, LengthField, ConnectionField;
    NamedAppend(FramedFields(res, opts), ConnectionField(res, opts), key);
    NamedAppend(DatedFields(res, opts), LengthField(res, opts), key);
    NamedAppend(HandlerFields(res), DateField(opts), key);
    NamedAppend(NonFraming(res.headers), ServerField(res), key);
  }

  /** Field names in any case of letters. */
  lemma KeysDiffer(key: string)
    ensures IsFramingName(key) ==> !IEquals("Server", key)
    ensures IEquals("Date", key) ==> IsFramingName(key) && |key| == 4
    ensures IEquals("Content-Length", key) ==> IsFramingName(key) && |key| == 14
    ensures IEquals("Transfer-Encoding", key) ==> IsFramingName(key) && |key| == 17
    ensures IEquals("Connection", key) ==> IsFramingName(key) && |key| == 10
  {
    assert |"Content-Length"| == 14 && |"Transfer-Encoding"| == 17 && |"Connection"| == 10;
    assert |"Server"| == 6 && |"Date"| == 4;
  }

  function OnlyIf(b: bool, fs: Fields): Fields { if b then fs else [] }

  function LengthName(f: Framing): string { if f.ByChunks? then "Transfer-Encoding" else "Content-Length" }

  lemma NamedParts(res: Response, opts: HeadOptions, key: string)
    ensures Named(ServerField(res), key) == OnlyIf(IEquals("Server", key), ServerField(res))
    ensures Named(DateField(opts), key) == OnlyIf(IEquals("Date", key), DateField(opts))
    ensures Named(ConnectionField(res, opts), key) == OnlyIf(IEquals("Connection", key), ConnectionField(res, opts))
    ensures Named(LengthField(res, opts), key) ==
            OnlyIf(IEquals(LengthName(FramingFor(res, opts.http10)), key), LengthField(res, opts))
  {
    hide IEquals, Named, Has, FramingFor, ToBase;
    NamedOne(Field("Server", "httpd-cpp"), key);
    NamedOne(Field("Date", opts.date), key);
    NamedOne(Field("Connection", "close"), key);
    NamedOne(Field("Connection", "keep-alive"), key);
    NamedOne(Field("Transfer-Encoding", "chunked"), key);
    match FramingFor(res, opts.http10) {
      case ByLength(n) => NamedOne(Field("Content-Length", ToBase(n, 10)), key);
      case _ =>
    }
  }

  lemma {:induction false} NamedNone(fs: Fields, key: string)
    ensures Named(fs, key) == [] <==> !Has(fs, key)
  {
    hide IEquals;
    if fs != [] {
      var k := |fs| - 1;
      NamedNone(fs[..k], key);
      assert forall i :: 0 <= i < k ==> fs[..k][i] == fs[i];
      assert Has(fs[..k], key) ==> IEquals(fs[Find(fs[..k], key)].name, key);
      assert Has(fs, key) && Find(fs, key) < k ==> IEquals(fs[..k][Find(fs, key)].name, key);
    }
  }

  /** Under every name that is not the server's to set, the head has exactly the handler's fields; only an absent
      Server is filled in. */
  lemma HandlerFieldsKept(res: Response, opts: HeadOptions, key: string)
    requires !IsDerived(key)
    ensures Named(HeadFields(res, opts), key) ==
            if SameLetters(key, "Server") && Named(res.headers, key) == [] then [Field("Server", "httpd-cpp")]
            else Named(res.headers, key)
  {
    hide HeadFields, NonFraming, Named, IEquals, SameLetters, IsFramingName, IsDerived, DateField, LengthField,
         ConnectionField, Has, FramingFor;
    FramingNameMeaning(key);
    IEqualsMeaning("Server", key);
    LettersBothWays("Server", key);
    KeysDiffer(key);
    NamedInHead(res, opts, key);
    NonFramingNamed(res.headers, key);
    NamedParts(res, opts, key);
    NamedNone(res.headers, key);
    if IEquals("Server", key) {
      FindServer(res.headers, key);
    }
  }

  lemma FindServer(fs: Fields, key: string)
    requires IEquals("Server", key)
    ensures Has(fs, key) == Has(fs, "Server")
  {
    hide SameLetters, IEquals, Find;
    IEqualsMeaning("Server", key);
    FindIgnoresCase(fs, "Server", key);
  }

  lemma LettersBothWays(a: string, b: string)
    ensures SameLetters(a, b) <==> SameLetters(b, a)
  {
  }

  predicate IsFramingKey(key: string) {
    key == "Content-Length" || key == "Transfer-Encoding" || key == "Connection" || key == "Date"
  }

  /** Under the names that are, it has the derived fields only. */
  lemma FramingNamed(res: Response, opts: HeadOptions, key: string)
    requires IsFramingKey(key)
    ensures var framing := FramingFor(res, opts.http10);
            Named(HeadFields(res, opts), key) ==
            OnlyIf(key == "Date", DateField(opts))
            + OnlyIf(key == LengthName(framing), LengthField(res, opts))
            + OnlyIf(key == "Connection", ConnectionField(res, opts))
  {
    hide HeadFields, NonFraming, Named, IEquals, DateField, ServerField, ConnectionField, FramingFor, ToBase;
    KeyIsItself(key);
    KeysDiffer(key);
    NamedInHead(res, opts, key);
    NonFramingNamed(res.headers, key);
    NamedParts(res, opts, key);
  }

  lemma KeyIsItself(key: string)
    requires IsFramingKey(key)
    ensures IsFramingName(key) && IEquals(key, key)
    ensures |key| == 14 <==> key == "Content-Length"
    ensures |key| == 17 <==> key == "Transfer-Encoding"
    ensures |key| == 10 <==> key == "Connection"
    ensures |key| == 4 <==> key == "Date"
  {
    assert |"Content-Length"| == 14 && |"Transfer-Encoding"| == 17 && |"Connection"| == 10 && |"Date"| == 4;
  }

  /** Whatever framing headers the handler set: at most one Content-Length and one Transfer-Encoding, never both; the
      length is the one the body will have; Connection says close exactly when the connection ends, and keep-alive
      when one of HTTP/1.0 does not. */
  lemma FramingHeadersDerived(res: Response, opts: HeadOptions)
    ensures Named(HeadFields(res, opts), "Content-Length") ==
            (match FramingFor(res, opts.http10)
             case ByLength(n) => [Field("Content-Length", ToBase(n, 10))]
             case _ => [])
    ensures Named(HeadFields(res, opts), "Transfer-Encoding") ==
            if FramingFor(res, opts.http10).ByChunks? then [Field("Transfer-Encoding", "chunked")] else []
    ensures Named(HeadFields(res, opts), "Connection") ==
            if !StaysOpen(res, opts) then [Field("Connection", "close")]
            else if opts.http10 then [Field("Connection", "keep-alive")] else []
    ensures Named(HeadFields(res, opts), "Date") == if opts.date == "" then [] else [Field("Date", opts.date)]
  {
    hide HeadFields, Named, FramingFor, StaysOpen, ToBase;
    KeyIsItself("Content-Length");
    KeyIsItself("Transfer-Encoding");
    KeyIsItself("Connection");
    KeyIsItself("Date");
    FramingNamed(res, opts, "Content-Length");
    FramingNamed(res, opts, "Transfer-Encoding");
    FramingNamed(res, opts, "Connection");
    FramingNamed(res, opts, "Date");
  }

  /** The head says "Connection: close" exactly when the connection will not go on. */
  lemma CloseIsAnnounced(res: Response, opts: HeadOptions)
    ensures Named(HeadFields(res, opts), "Connection") == [Field("Connection", "close")] <==> !StaysOpen(res, opts)
  {
    hide HeadFields, Named, FramingFor;
    FramingHeadersDerived(res, opts);
    assert |"close"| == 5 && |"keep-alive"| == 10;
  }

  // ---------- which framing ----------

  /** Statuses that never have a body. */
  predicate IsBodiless(status: nat) { 100 <= status <= 199 || status == 204 || status == 304 }

  /** A body whose end nobody knows in advance. */
  predicate IsEndless(res: Response) { res.file.None? && res.producer.Some? && res.streamLength.None? }

  /** 1xx, 204 and 304 have no body; a stream of unknown length goes in chunks to a client of HTTP/1.1 and up to the
      close to one of HTTP/1.0; everything else declares the length of its file, its stream or its text. */
  lemma FramingMeaning(res: Response, http10: bool)
    ensures FramingFor(res, http10).NoFraming? <==> IsBodiless(res.status)
    ensures FramingFor(res, http10).ByChunks? <==> !IsBodiless(res.status) && IsEndless(res) && !http10
    ensures FramingFor(res, http10).ByClose? <==> !IsBodiless(res.status) && IsEndless(res) && http10
    ensures !IsBodiless(res.status) && !IsEndless(res) ==>
              FramingFor(res, http10) ==
              ByLength(if res.file.Some? then res.file.value.length
                       else if res.producer.Some? then res.streamLength.value else |res.body|)
  {
  }
}
