/** What a header section decides, stated on its lines as they were sent, before any folding: how the body is framed,
    whether the connection persists, whether a 100 Continue is awaited. */
module HeaderLines {
  import opened Text
  import opened Headers
  import opened RequestParser

  predicate Sends(fs: Fields, key: string) { exists i :: 0 <= i < |fs| && IEquals(fs[i].name, key) }

  /** Line `i` is the only one of this name. */
  predicate IsOnly(fs: Fields, key: string, i: nat)
    requires i < |fs|
  {
    IEquals(fs[i].name, key) && forall j :: 0 <= j < |fs| && j != i ==> !IEquals(fs[j].name, key)
  }

  /** One line of this name and no more, whose value is this word in any case of letters. */
  predicate SendsOnly(fs: Fields, key: string, word: string) {
    exists i :: 0 <= i < |fs| && IsOnly(fs, key, i) && IEquals(Trim(fs[i].value), word)
  }

  lemma GetNothing(name: string)
    ensures Get([], name) == None
  {
  }

  lemma SentIsFound(fs: Fields, key: string)
    ensures Has(AddAll([], fs), key) <==> Sends(fs, key)
    ensures Get(AddAll([], fs), key).Some? <==> Sends(fs, key)
  {
    hide IEquals, AddAll;
    AddAllGet([], fs, key);
    GetNothing(key);
    FoldedPresent(None, fs, key);
  }

  // ---------- single-valued fields ----------

  /** A value with a comma is not a word without one, however it is trimmed. */
  lemma CommaIsNoWord(v: string, word: string)
    requires ',' in v && ',' !in word
    ensures !IEquals(Trim(v), word)
  {
    hide Trim;
    var l, r := TrimShape(v);
    var t := Trim(v);
    var i :| 0 <= i < |v| && v[i] == ',';
    assert ',' in t by {
      assert i >= |l| && i < |l| + |t|;
      assert t[i - |l|] == ',';
    }
  }

  predicate SaysWord(v: Option<string>, word: string) { v.Some? && IEquals(Trim(v.value), word) }

  lemma SendsCons(f: Field, rest: Fields, key: string)
    ensures Sends([f] + rest, key) <==> IEquals(f.name, key) || Sends(rest, key)
  {
    hide IEquals;
    var fs := [f] + rest;
    assert fs[0] == f && forall i :: 0 <= i < |rest| ==> fs[i + 1] == rest[i];
  }

  lemma SendsOnlyCons(f: Field, rest: Fields, key: string, word: string)
    ensures SendsOnly([f] + rest, key, word) <==>
              if IEquals(f.name, key) then IEquals(Trim(f.value), word) && !Sends(rest, key)
              else SendsOnly(rest, key, word)
  {
    hide IEquals, Trim;
    var fs := [f] + rest;
    assert fs[0] == f && forall i :: 0 <= i < |rest| ==> fs[i + 1] == rest[i];
    assert forall i :: 0 < i < |fs| ==> fs[i] == rest[i - 1];
    if IEquals(f.name, key) {
      assert !Sends(rest, key) ==> IsOnly(fs, key, 0);
    } else {
      assert forall i :: 0 <= i < |rest| ==> (IsOnly(rest, key, i) <==> IsOnly(fs, key, i + 1));
    }
  }

  /** Folding a repeated field puts a comma into its value, so it takes a single line to say a word. */
  lemma {:induction false} FoldedWord(before: Option<string>, lines: Fields, key: string, word: string)
    requires ',' !in word
    ensures SaysWord(Folded(before, lines, key), word) <==>
              if before.Some? then SaysWord(before, word) && !Sends(lines, key) else SendsOnly(lines, key, word)
    decreases |lines|
  {
    hide IEquals, Trim, Sends, SendsOnly;
    if lines == [] {
      NothingSent(key, word);
    } else {
      var f, rest := lines[0], lines[1..];
      assert lines == [f] + rest;
      SendsCons(f, rest, key);
      SendsOnlyCons(f, rest, key, word);
      FoldedWord(if IEquals(f.name, key) then FoldOnto(before, f.value) else before, rest, key, word);
      if IEquals(f.name, key) && before.Some? {
        assert (before.value + ", " + f.value)[|before.value|] == ',';
        CommaIsNoWord(before.value + ", " + f.value, word);
      }
    }
  }

  lemma NothingSent(key: string, word: string)
    ensures !Sends([], key) && !SendsOnly([], key, word)
  {
  }

  /** A field says a word exactly when one line says it and no other line has the name. */
  lemma WordLines(fs: Fields, key: string, word: string)
    requires ',' !in word
    ensures SaysWord(Get(AddAll([], fs), key), word) <==> SendsOnly(fs, key, word)
  {
    hide AddAll, Folded, SaysWord, SendsOnly;
    AddAllGet([], fs, key);
    GetNothing(key);
    FoldedWord(None, fs, key, word);
  }

  // ---------- how the body is framed ----------

  /** Section 6.3 of RFC 9112 on the lines as sent: the header section is accepted and announces this body. */
  predicate FramedAs(lim: Limits, minor: nat, fs: Fields, f: BodyFraming) {
    && (minor == 1 ==> Sends(fs, "Host"))
    && match f
       case NoBody => !Sends(fs, "Transfer-Encoding") && !Sends(fs, "Content-Length")
       case Length(n) =>
         && !Sends(fs, "Transfer-Encoding") && Sends(fs, "Content-Length") && EveryLengthIs(fs, n)
         && n <= lim.maxBodyBytes
       case ChunkedBody => minor != 0 && SendsOnly(fs, "Transfer-Encoding", "chunked") && !Sends(fs, "Content-Length")
  }

  lemma SaidOnceIsSent(fs: Fields, key: string, word: string)
    ensures SendsOnly(fs, key, word) ==> Sends(fs, key)
  {
    hide IEquals, Trim;
  }

  lemma LengthLines(fs: Fields, n: nat)
    requires Sends(fs, "Content-Length")
    ensures Get(AddAll([], fs), "Content-Length").Some?
    ensures ContentLength(Get(AddAll([], fs), "Content-Length").value) == Some(n) <==> EveryLengthIs(fs, n)
  {
    hide AddAll, Folded, ContentLength, EveryLengthIs, Sends;
    SentIsFound(fs, "Content-Length");
    AddAllGet([], fs, "Content-Length");
    GetNothing("Content-Length");
    EveryLengthLineAgrees(None, fs, n);
  }

  /** What the sent lines say of the folded list. */
  lemma LinesFolded(fs: Fields)
    ensures Has(AddAll([], fs), "Host") <==> Sends(fs, "Host")
    ensures var te := Get(AddAll([], fs), "Transfer-Encoding");
            && (te.Some? <==> Sends(fs, "Transfer-Encoding"))
            && (te.Some? && IEquals(Trim(te.value), "chunked") <==> SendsOnly(fs, "Transfer-Encoding", "chunked"))
    ensures Get(AddAll([], fs), "Content-Length").Some? <==> Sends(fs, "Content-Length")
  {
    hide AddAll, Sends, SendsOnly, IEquals, Trim, Has, Get;
    SentIsFound(fs, "Host");
    SentIsFound(fs, "Transfer-Encoding");
    SentIsFound(fs, "Content-Length");
    WordLines(fs, "Transfer-Encoding", "chunked");
  }

  /** The framing rule: a header section is accepted, with this body to follow, exactly when its lines say so. */
  lemma FramingRule(lim: Limits, minor: nat, fs: Fields, f: BodyFraming)
    ensures DecideFraming(lim, AddAll([], fs), minor) == Ok(f) <==> FramedAs(lim, minor, fs, f)
  {
    hide AddAll, Sends, SendsOnly, IEquals, Trim, Has, Get, ContentLength, EveryLengthIs;
    LinesFolded(fs);
    SaidOnceIsSent(fs, "Transfer-Encoding", "chunked");
    if Sends(fs, "Content-Length") {
      var n := ContentLength(Get(AddAll([], fs), "Content-Length").value);
      if n.Some? {
        LengthLines(fs, n.value);
      }
      if f.Length? {
        LengthLines(fs, f.n);
      }
    }
  }

  ghost predicate Framed(lim: Limits, minor: nat, fs: Fields) { exists f :: FramedAs(lim, minor, fs, f) }

  lemma FramingAccepted(lim: Limits, r: Request)
    ensures forall fs {:trigger AddAll([], fs)} :: r.headers == AddAll([], fs) ==>
              (FramingOf(lim, r).Ok? <==> Framed(lim, r.versionMinor, fs))
  {
    hide AddAll, FramedAs, DecideFraming;
    forall fs | r.headers == AddAll([], fs)
      ensures FramingOf(lim, r).Ok? <==> Framed(lim, r.versionMinor, fs)
    {
      forall f
        ensures FramingOf(lim, r) == Ok(f) <==> FramedAs(lim, r.versionMinor, fs, f)
      {
        FramingRule(lim, r.versionMinor, fs, f);
      }
      if FramingOf(lim, r).Ok? {
        assert FramingOf(lim, r) == Ok(FramingOf(lim, r).value);
      }
    }
  }

  /** And why one is refused: a transfer coding other than chunked is not implemented, an agreed length beyond the
      limit is too large, and everything else is a bad request. */
  lemma FramingRefused(lim: Limits, minor: nat, fs: Fields)
    requires !Framed(lim, minor, fs)
    ensures var r := DecideFraming(lim, AddAll([], fs), minor);
            var hosted := minor == 1 ==> Sends(fs, "Host");
            && r.Reject?
            && (r.error.NotImplemented? <==>
                  hosted && minor != 0 && Sends(fs, "Transfer-Encoding") && !Sends(fs, "Content-Length"))
            && (r.error.PayloadTooLarge? <==>
                  && hosted && !Sends(fs, "Transfer-Encoding") && Sends(fs, "Content-Length")
                  && exists n :: n > lim.maxBodyBytes && EveryLengthIs(fs, n))
            && (r.error.NotImplemented? || r.error.PayloadTooLarge? || r.error.BadRequest?)
  {
    hide AddAll, Sends, SendsOnly, IEquals, Trim, Has, Get, ContentLength, EveryLengthIs, FramedAs;
    var r := DecideFraming(lim, AddAll([], fs), minor);
    if r.Ok? {
      FramingRule(lim, minor, fs, r.value);
      assert false;
    }
    LinesFolded(fs);
    if Sends(fs, "Content-Length") {
      var n := ContentLength(Get(AddAll([], fs), "Content-Length").value);
      if n.Some? {
        LengthLines(fs, n.value);
      }
      forall k: nat | EveryLengthIs(fs, k)
        ensures n == Some(k)
      {
        LengthLines(fs, k);
      }
    }
    assert DecideFraming(lim, AddAll([], fs), minor) != Ok(ChunkedBody);
  }

  // ---------- lists of tokens ----------

  /** This line has that name, and one of the members of its value is that token. */
  predicate LineHas(f: Field, key: string, token: string) {
    IEquals(f.name, key) && HasMember(f.value, token)
  }

  predicate HasMember(v: string, token: string) {
    exists m :: 0 <= m < |Members(v)| && IEquals(Members(v)[m], token)
  }

  predicate SendsToken(fs: Fields, key: string, token: string) {
    exists i :: 0 <= i < |fs| && LineHas(fs[i], key, token)
  }

  lemma MemberOfFold(a: string, b: string, token: string)
    ensures HasMember(a + ", " + b, token) <==> HasMember(a, token) || HasMember(b, token)
  {
    hide Members, IEquals;
    MembersFold(a, b);
    var ms, ma, mb := Members(a + ", " + b), Members(a), Members(b);
    assert forall j :: 0 <= j < |ma| ==> ma[j] == ms[j];
    assert forall j :: 0 <= j < |mb| ==> mb[j] == ms[|ma| + j];
    assert forall j :: |ma| <= j < |ms| ==> ms[j] == mb[j - |ma|];
  }

  predicate SaysToken(v: Option<string>, token: string) { v.Some? && HasMember(v.value, token) }

  lemma {:induction false} FoldedToken(before: Option<string>, lines: Fields, key: string, token: string)
    ensures SaysToken(Folded(before, lines, key), token) <==> SaysToken(before, token) || SendsToken(lines, key, token)
    decreases |lines|
  {
    hide IEquals, HasMember;
    if lines != [] {
      var f, rest := lines[0], lines[1..];
      assert forall i :: 0 <= i < |rest| ==> rest[i] == lines[i + 1];
      assert forall i :: 0 < i < |lines| ==> lines[i] == rest[i - 1];
      FoldedToken(if IEquals(f.name, key) then FoldOnto(before, f.value) else before, rest, key, token);
      if before.Some? {
        MemberOfFold(before.value, f.value, token);
      }
    }
  }

  /** A list field has a token exactly when some line of that name has it as a member. */
  lemma TokenLines(fs: Fields, key: string, token: string)
    ensures HasToken(AddAll([], fs), key, token) <==> SendsToken(fs, key, token)
  {
    hide AddAll, Folded, Members, IEquals, SendsToken, Get;
    AddAllGet([], fs, key);
    GetNothing(key);
    FoldedToken(None, fs, key, token);
  }

  /** A connection persists after a request unless a Connection line says close; after one of HTTP/1.0 only if
      one says keep-alive. */
  lemma PersistenceRule(r: Request, fs: Fields)
    requires r.headers == AddAll([], fs)
    ensures r.KeepAlive() <==>
              && !SendsToken(fs, "Connection", "close")
              && (r.versionMinor == 0 ==> SendsToken(fs, "Connection", "keep-alive"))
  {
    hide AddAll, SendsToken, HasToken;
    TokenLines(fs, "Connection", "close");
    TokenLines(fs, "Connection", "keep-alive");
  }

  /** The client waits for a 100 Continue exactly when its one Expect line says so. */
  lemma ExpectRule(fs: Fields)
    ensures ExpectsContinue(AddAll([], fs)) <==> SendsOnly(fs, "Expect", "100-continue")
  {
    hide AddAll, SendsOnly, IEquals, Trim, Get;
    WordLines(fs, "Expect", "100-continue");
  }
}
