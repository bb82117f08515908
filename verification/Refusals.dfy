/** Which status a refused input is answered with, cause by cause. */
module Refusals {
  import opened Text
  import opened Headers
  import opened RequestParser
  import opened Driver
  import opened LineGrammar

  // ---------- request lines of another version ----------

  /** A version of the right form that is neither HTTP/1.0 nor HTTP/1.1. */
  predicate IsOtherVersion(v: string) {
    && |v| == 8 && "HTTP/" <= v && '0' <= v[5] <= '9' && v[6] == '.' && '0' <= v[7] <= '9'
    && v != "HTTP/1.0" && v != "HTTP/1.1"
  }

  predicate IsOtherLineOf(line: string, verb: string, target: string, version: string) {
    && line == verb + [' '] + (target + [' '] + version)
    && IsWord(verb) && IsGraphic(target) && IsOtherVersion(version)
  }

  ghost predicate IsOtherLine(line: string) {
    exists verb, target, version :: IsOtherLineOf(line, verb, target, version)
  }

  predicate SaysOtherVersion(r: Outcome<StartLine>) { r.Reject? && r.error.VersionNotSupported? }

  lemma OtherVersionMeaning(v: string)
    ensures IsOtherVersion(v) <==> IsVersion(v) && (v[5] != '1' || v[7] > '1')
  {
    if IsVersion(v) {
      assert v == v[..5] + [v[5], v[6], v[7]];
      if v[5] == '1' && v[7] <= '1' {
        VersionShape(v);
      }
    }
    if IsOtherVersion(v) {
      assert v[..5] == "HTTP/";
      assert v == "HTTP/" + [v[5], v[6], v[7]];
    }
  }

  lemma OtherParts(verb: string, target: string, version: string)
    ensures SaysOtherVersion(ReadParts(verb, target, version)) <==>
              IsWord(verb) && IsGraphic(target) && IsOtherVersion(version)
  {
    hide IsToken, IsWord, ValidTarget, IsGraphic, IsOtherVersion, IsVersion, SupportedForm, PathAndQuery, PathOf,
         QueryOf;
    TokenMeaning(verb);
    TextMeaning(target);
    OtherVersionMeaning(version);
    if IsVersion(version) {
      VersionLength(version);
    }
  }

  lemma OtherNoSpace(v: string)
    requires IsOtherVersion(v)
    ensures ' ' !in v
  {
    assert v == "HTTP/" + [v[5], v[6], v[7]];
  }

  /** A request line is refused for its version exactly when that is well formed, as are method and target, and is
      another one. */
  lemma OtherLineMeaning(line: string)
    ensures SaysOtherVersion(ReadRequestLine(line)) <==> IsOtherLine(line)
  {
    hide ReadRequestLine, IsOtherLineOf;
    if SaysOtherVersion(ReadRequestLine(line)) {
      var verb, target, version := OtherLineShape(line);
    }
    forall verb, target, version | IsOtherLineOf(line, verb, target, version)
      ensures SaysOtherVersion(ReadRequestLine(line))
    {
      OtherLineRefused(line, verb, target, version);
    }
  }

  lemma OtherLineShape(line: string) returns (verb: string, target: string, version: string)
    requires SaysOtherVersion(ReadRequestLine(line))
    ensures IsOtherLineOf(line, verb, target, version)
  {
    hide ReadParts, IsWord, IsGraphic, IsOtherVersion;
    var sp1 := FindChar(line, ' ');
    var tail := line[sp1 + 1..];
    var sp2 := FindChar(tail, ' ');
    Rejoin(line, sp1);
    Rejoin(tail, sp2);
    verb, target, version := line[..sp1], tail[..sp2], tail[sp2 + 1..];
    OtherParts(verb, target, version);
  }

  lemma OtherLineRefused(line: string, verb: string, target: string, version: string)
    requires IsOtherLineOf(line, verb, target, version)
    ensures SaysOtherVersion(ReadRequestLine(line))
  {
    hide ReadParts, ReadRequestLine, IsToken, IsWord, IsOtherVersion, ValidTarget, IsGraphic;
    TokenMeaning(verb);
    TextMeaning(target);
    NoSpaces(verb, target);
    OtherNoSpace(version);
    SplitAtSpaces(verb, target, version);
    OtherParts(verb, target, version);
  }

  // ---------- every refusal has its status ----------

  /** The parser, not failed so far, fails on these bytes. */
  predicate Refuses(lim: Limits, m: Machine, rest: string) { !Halted(m) && Step(lim, m, rest).m.state.Error? }

  /** The line at hand is longer than the limits admit, whether it is complete or not. */
  predicate CannotFit(lim: Limits, m: Machine, rest: string) {
    var eol := FindCrlf(rest);
    InLine(m) && if eol < 0 then PartialTooLong(lim, m, |rest|) else LineTooLong(lim, m, eol)
  }

  /** A complete line that fits. */
  predicate HasLine(lim: Limits, m: Machine, rest: string) {
    InLine(m) && FindCrlf(rest) >= 0 && !CannotFit(lim, m, rest)
  }

  function LineOf(rest: string): string
    requires FindCrlf(rest) >= 0
  {
    rest[..FindCrlf(rest)]
  }

  /** The line ends the header section. */
  predicate EndsHead(lim: Limits, m: Machine, rest: string) {
    m.state.HeaderLines? && HasLine(lim, m, rest) && LineOf(rest) == ""
  }

  predicate IsTooMany(lim: Limits, m: Machine, rest: string) {
    InFields(m) && HasLine(lim, m, rest) && LineOf(rest) != "" && m.headerCount + 1 > lim.maxHeaderCount
  }

  /** A chunk that takes the body beyond its limit. */
  predicate IsChunkTooLarge(lim: Limits, m: Machine, rest: string) {
    && m.state.ChunkSize? && HasLine(lim, m, rest)
    && var n := ReadChunkSize(LineOf(rest));
       n.Some? && n.value > 0 && |m.req.body| + n.value > lim.maxBodyBytes
  }

  predicate FailsWith(e: ParseError, lim: Limits, m: Machine, rest: string) {
    EndsHead(lim, m, rest) && FramingOf(lim, m.req).Reject? && FramingOf(lim, m.req).error == e
  }

  /** 414 for a request line that is too long; 505 for one of another version; 431 for a header or trailer section with
      too many bytes or too many lines; 413 for a body beyond its limit, announced or in chunks; 501 for a transfer
      coding other than chunked; 400 for everything else. */
  ghost predicate IsStatusOf(status: nat, lim: Limits, m: Machine, rest: string) {
    && (status == 414 <==> m.state.RequestLine? && CannotFit(lim, m, rest))
    && (status == 505 <==> m.state.RequestLine? && HasLine(lim, m, rest) && IsOtherLine(LineOf(rest)))
    && (status == 431 <==> (InFields(m) && CannotFit(lim, m, rest)) || IsTooMany(lim, m, rest))
    && (status == 413 <==> IsChunkTooLarge(lim, m, rest) || FailsWith(PayloadTooLarge, lim, m, rest))
    && (status == 501 <==> FailsWith(NotImplemented, lim, m, rest))
    && status in {400, 413, 414, 431, 501, 505}
  }

  lemma StartErrors(line: string)
    ensures ReadRequestLine(line).Reject? ==>
              ReadRequestLine(line).error.BadRequest? || ReadRequestLine(line).error.VersionNotSupported?
  {
    hide IsToken, ValidTarget, IsVersion, SupportedForm, PathAndQuery, PathOf, QueryOf;
  }

  lemma FieldErrors(h: Fields, line: string, trailer: bool)
    ensures AddLine(h, line, trailer).Reject? ==> AddLine(h, line, trailer).error.BadRequest?
  {
    hide IsToken, Trim, IsFieldValue, Has, IEquals, Add;
  }

  lemma FramingErrors(lim: Limits, h: Fields, minor: nat)
    ensures var r := DecideFraming(lim, h, minor);
            r.Reject? ==> r.error.BadRequest? || r.error.NotImplemented? || r.error.PayloadTooLarge?
  {
    hide Has, Get, Trim, IEquals, ContentLength;
  }

  lemma StartRefused(lim: Limits, m: Machine, rest: string)
    requires Refuses(lim, m, rest) && m.state.RequestLine? && HasLine(lim, m, rest)
    ensures IsStatusOf(StatusFor(Step(lim, m, rest).m.error), lim, m, rest)
  {
    hide ReadRequestLine, IsOtherLine, DecideFraming, ReadChunkSize, FindCrlf;
    StartErrors(LineOf(rest));
    OtherLineMeaning(LineOf(rest));
  }

  lemma ChunkRefused(lim: Limits, m: Machine, rest: string)
    requires Refuses(lim, m, rest) && m.state.ChunkSize? && HasLine(lim, m, rest)
    ensures IsStatusOf(StatusFor(Step(lim, m, rest).m.error), lim, m, rest)
  {
    hide IsOtherLine, DecideFraming, ReadChunkSize, FindCrlf;
  }

  lemma FieldRefused(lim: Limits, m: Machine, rest: string)
    requires Refuses(lim, m, rest) && InFields(m) && HasLine(lim, m, rest)
    ensures IsStatusOf(StatusFor(Step(lim, m, rest).m.error), lim, m, rest)
  {
    hide IsOtherLine, DecideFraming, ReadChunkSize, AddLine, FindCrlf, ExpectsContinue;
    FieldErrors(if m.state.Trailers? then m.req.trailers else m.req.headers, LineOf(rest), m.state.Trailers?);
    FramingErrors(lim, m.req.headers, m.req.versionMinor);
  }

  lemma UnlinedRefused(lim: Limits, m: Machine, rest: string)
    requires Refuses(lim, m, rest) && !HasLine(lim, m, rest)
    ensures IsStatusOf(StatusFor(Step(lim, m, rest).m.error), lim, m, rest)
  {
    hide IsOtherLine, DecideFraming, ReadChunkSize, OnLine, FindCrlf;
  }

  /** Every refusal, from every state, has the status of its cause. */
  lemma StatusOfRefusal(lim: Limits, m: Machine, rest: string)
    requires Refuses(lim, m, rest)
    ensures IsStatusOf(StatusFor(Step(lim, m, rest).m.error), lim, m, rest)
  {
    hide IsStatusOf, Step, CannotFit;
    if !HasLine(lim, m, rest) {
      UnlinedRefused(lim, m, rest);
    } else if m.state.RequestLine? {
      StartRefused(lim, m, rest);
    } else if m.state.ChunkSize? {
      ChunkRefused(lim, m, rest);
    } else {
      FieldRefused(lim, m, rest);
    }
  }

  /** Over whole runs: whoever ends up failed was refused at some point, and kept the error it was refused with. */
  lemma {:induction false} FeedRefused(lim: Limits, m: Machine, data: string) returns (at: Machine, rest: string)
    requires !m.state.Error? && Feed(lim, m, data).m.state.Error?
    ensures Refuses(lim, at, rest) && Feed(lim, m, data).m == Step(lim, at, rest).m
    decreases |data|, if InData(m) then 1 else 0
  {
    hide Step;
    FeedTurn(lim, m, data);
    StepUses(lim, m, data);
    at, rest := m, data;
    var t := Step(lim, m, data);
    if m.state.Done? {
      FeedHalted(lim, m, data);
    } else if !t.m.state.Error? {
      at, rest := FeedRefused(lim, t.m, data[t.used..]);
    } else if t.Continue? {
      FeedHalted(lim, t.m, data[t.used..]);
    }
  }

  lemma {:induction false} DrainRefused(lim: Limits, m: Machine, buf: string) returns (at: Machine, rest: string)
    requires !m.state.Error? && Drain(lim, m, buf).m.state.Error?
    ensures Refuses(lim, at, rest) && Drain(lim, m, buf).m == Step(lim, at, rest).m
    ensures IsStatusOf(StatusFor(Drain(lim, m, buf).m.error), lim, at, rest)
    decreases |buf|, if m == START then 0 else 1
  {
    hide Feed, Step, IsStatusOf, Refuses;
    var f := Feed(lim, m, buf);
    if f.m.state.Done? {
      DoneUsesBytes(lim, buf);
      at, rest := DrainRefused(lim, START, buf[f.used..]);
    } else {
      at, rest := FeedRefused(lim, m, buf);
      StatusOfRefusal(lim, at, rest);
    }
  }
}
