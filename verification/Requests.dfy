/** Every clean request has a text: a partner of the parser that writes requests, and the round trip. It also
    shows that well-formed messages exist for every method, target, header list and body. */
module Requests {
  import opened Text
  import opened Numbers
  import opened Headers
  import opened RequestParser
  import opened LineGrammar
  import opened HeaderLines
  import opened Messages
  import opened Language
  import opened Response
  import opened ChunkedCoding

  const CONTENT_LENGTH := "Content-Length"

  function LengthOf(body: string): Field { Field(CONTENT_LENGTH, ToBase(|body|, 10)) }

  /** A request with a body, as a client would write it. */
  function RequestMessage(verb: string, target: string, fields: Fields, body: string): Message {
    Message(0, verb + [' '] + (target + [' '] + (VERSION_PREFIX + [DigitChar(1)])),
            RenderAll(fields + [LengthOf(body)]), Plain(body))
  }

  /** A method, a target of this form with this path and query, and fields that say nothing of a body. */
  predicate CleanRequest(
    verb: string, target: string, form: TargetForm, path: string, query: string, fields: Fields)
  {
    && IsWord(verb) && IsGraphic(target) && HasForm(verb, target, form, path, query)
    && CleanTrailers(fields)
    && Has(fields, "Host") && !Has(fields, "Transfer-Encoding") && !Has(fields, CONTENT_LENGTH)
  }

  predicate WithinLimits(lim: Limits, msg: Message, body: string) {
    && |msg.startLine| <= lim.maxRequestLine
    && WithinBudget(lim, msg)
    && |body| <= lim.maxBodyBytes && |body| < Pow(10, 19)
  }

  lemma ToBaseTrimmed(n: nat)
    ensures Trimmed(ToBase(n, 10)) && IsFieldValue(ToBase(n, 10)) && ',' !in ToBase(n, 10)
  {
    ToBaseClean(n, 10, ' ');
    ToBaseClean(n, 10, '\t');
    ToBaseClean(n, 10, ',');
    var s := ToBase(n, 10);
    forall i | 0 <= i < |s|
      ensures IsFieldChar(s[i])
    {
      assert 0 <= HexValue(s[i]) < 10;
    }
  }

  lemma LengthReadsBack(n: nat)
    requires n < Pow(10, 19)
    ensures ContentLength(ToBase(n, 10)) == Some(n)
  {
    hide ToBase, Pow, Decimal;
    var s := ToBase(n, 10);
    ToBaseTrimmed(n);
    TrimUndoesPadding("", s, "");
    assert "" + s + "" == s;
    assert Members(s) == [s];
    DecimalRoundTrip(n);
    ContentLengthMeaning(s, n);
  }

  lemma FieldNames()
    ensures IsToken(CONTENT_LENGTH) && NoBreaks(CONTENT_LENGTH)
    ensures IEquals(CONTENT_LENGTH, CONTENT_LENGTH)
    ensures !IEquals(CONTENT_LENGTH, "Host") && !IEquals(CONTENT_LENGTH, "Transfer-Encoding")
  {
    assert |CONTENT_LENGTH| == 14 && |"Host"| == 4 && |"Transfer-Encoding"| == 17;
  }

  /** Appending a field of a new name keeps the other lookups and makes its own. */
  lemma FindAppend(h: Fields, f: Field, key: string)
    ensures Find(h + [f], key) == if Has(h, key) then Find(h, key) else if IEquals(f.name, key) then |h| else -1
  {
    hide IEquals;
    var g := h + [f];
    assert forall j :: 0 <= j < |h| ==> g[j] == h[j];
    assert g[|h|] == f;
    if Has(h, key) {
      assert IEquals(g[Find(h, key)].name, key);
    }
  }

  lemma LengthAppended(fields: Fields, f: Field)
    requires f.name == CONTENT_LENGTH
    requires Has(fields, "Host") && !Has(fields, "Transfer-Encoding") && !Has(fields, CONTENT_LENGTH)
    ensures var fs := fields + [f];
            Has(fs, "Host") && Get(fs, "Transfer-Encoding") == None && Get(fs, CONTENT_LENGTH) == Some(f.value)
  {
    hide Find, IEquals;
    FieldNames();
    FindAppend(fields, f, "Host");
    FindAppend(fields, f, "Transfer-Encoding");
    FindAppend(fields, f, CONTENT_LENGTH);
  }

  lemma FieldsStayClean(fields: Fields, body: string)
    requires CleanTrailers(fields) && !Has(fields, CONTENT_LENGTH)
    ensures CleanTrailers(fields + [LengthOf(body)])
  {
    hide ToBase, IEquals, IsToken, IsFieldValue, Trimmed;
    FieldNames();
    ToBaseTrimmed(|body|);
    AppendKeepsDistinct(fields, LengthOf(body));
  }

  lemma FramingIsLength(lim: Limits, fields: Fields, body: string)
    requires Has(fields, "Host") && !Has(fields, "Transfer-Encoding") && !Has(fields, CONTENT_LENGTH)
    requires |body| <= lim.maxBodyBytes && |body| < Pow(10, 19)
    ensures DecideFraming(lim, fields + [LengthOf(body)], 1) == Ok(Length(|body|))
  {
    hide ToBase, Find, ContentLength, Pow;
    LengthAppended(fields, LengthOf(body));
    LengthReadsBack(|body|);
  }

  lemma StartLineRead(
    verb: string, target: string, form: TargetForm, path: string, query: string, fields: Fields, body: string)
    requires IsWord(verb) && IsGraphic(target) && HasForm(verb, target, form, path, query)
    ensures var line := RequestMessage(verb, target, fields, body).startLine;
            && line != [] && FindCrlf(line) < 0
            && ReadRequestLine(line) == Ok(StartLine(verb, target, path, query, 1))
  {
    hide HasForm, IsWord, IsGraphic, IsToken, ReadRequestLine, RenderAll, LengthOf;
    var line := RequestMessage(verb, target, fields, body).startLine;
    var h := StartLine(verb, target, path, query, 1);
    assert IsRequestLineOf(line, h, form);
    RequestLineMeaning(line, h);
    VersionClean();
    TokenMeaning(verb);
    TokenNoBreaks(verb);
    TargetNoBreaks(target);
    LineNoBreaks(verb, target, VERSION_PREFIX + [DigitChar(1)]);
    NoBreaksNoCrlf(line);
  }

  lemma VersionClean()
    ensures NoBreaks(VERSION_PREFIX + [DigitChar(1)])
  {
  }

  lemma TargetNoBreaks(t: string)
    requires IsGraphic(t)
    ensures NoBreaks(t)
  {
  }

  lemma LineNoBreaks(a: string, b: string, c: string)
    requires NoBreaks(a) && NoBreaks(b) && NoBreaks(c)
    ensures NoBreaks(a + [' '] + (b + [' '] + c))
  {
    assert NoBreaks(b + [' '] + c);
    assert NoBreaks(a + [' ']);
  }

  /** Every clean request within the limits is a well-formed message that means itself. */
  lemma RequestIsMessage(
    lim: Limits, verb: string, target: string, form: TargetForm, path: string, query: string, fields: Fields,
    body: string)
    requires CleanRequest(verb, target, form, path, query, fields)
    requires WithinLimits(lim, RequestMessage(verb, target, fields, body), body)
    ensures var msg := RequestMessage(verb, target, fields, body);
            && WellFormed(lim, msg)
            && var r := Denote(lim, msg);
               && r.verb == verb && r.target == target && r.path == path && r.query == query && r.versionMinor == 1
               && r.headers == fields + [LengthOf(body)] && r.trailers == [] && r.body == body
  {
    hide HasForm, IsWord, IsGraphic, ReadRequestLine, ReadFieldLine, FramedAs, RenderAll, Lines, AddAll, FieldsOf,
         LengthOf, CleanTrailers, Pow, Has, SendsOnly;
    var msg := RequestMessage(verb, target, fields, body);
    var fs := fields + [LengthOf(body)];
    StartLineRead(verb, target, form, path, query, fields, body);
    FieldsStayClean(fields, body);
    CleanLines(fs);
    FramingIsLength(lim, fields, body);
    FramingRule(lim, 1, fs, Length(|body|));
    FramedByLength(lim, fs, |body|);
  }

  lemma FramedByLength(lim: Limits, fs: Fields, n: nat)
    requires FramedAs(lim, 1, fs, Length(n))
    ensures Sends(fs, "Content-Length")
  {
  }

  lemma CleanLines(fs: Fields)
    requires CleanTrailers(fs)
    ensures AreFieldLines(RenderAll(fs)) && FieldsOf(RenderAll(fs)) == fs && AddAll([], fs) == fs && OneHost(fs)
  {
    hide IsFieldLine, IEquals, RenderAll, AddAll;
    TrailerLinesRead(fs);
    assert [] + fs == fs;
    AddAllDistinct([], fs);
    HostOnce(fs);
  }

  lemma HostOnce(fs: Fields)
    requires DistinctNames(fs)
    ensures OneHost(fs)
  {
    hide IEquals;
    forall i, j | 0 <= i < j < |fs|
      ensures !(IsHost(fs[i]) && IsHost(fs[j]))
    {
      assert !IEquals(fs[i].name, fs[j].name);
      SameNames(fs[i].name, fs[j].name, "Host");
    }
  }

  lemma SameNames(a: string, b: string, key: string)
    ensures IEquals(a, key) && IEquals(b, key) ==> IEquals(a, b)
  {
  }

  /** Round trip: writing any clean request and feeding the text, with anything behind it, delivers that
      request and stops at its last byte. */
  lemma RequestRoundTrip(
    lim: Limits, verb: string, target: string, form: TargetForm, path: string, query: string, fields: Fields,
    body: string, rest: string)
    requires CleanRequest(verb, target, form, path, query, fields)
    requires WithinLimits(lim, RequestMessage(verb, target, fields, body), body)
    ensures var text := Encode(RequestMessage(verb, target, fields, body));
            var f := Feed(lim, START, text + rest);
            && f.m.state.Done? && f.used == |text|
            && f.m.req.verb == verb && f.m.req.target == target
            && f.m.req.path == path && f.m.req.query == query && f.m.req.versionMinor == 1
            && f.m.req.headers == fields + [LengthOf(body)] && f.m.req.trailers == [] && f.m.req.body == body
  {
    hide Feed, WellFormed, Denote, Encode, RequestMessage, CleanRequest, WithinLimits;
    RequestIsMessage(lim, verb, target, form, path, query, fields, body);
    Complete(lim, RequestMessage(verb, target, fields, body), rest);
  }
}
