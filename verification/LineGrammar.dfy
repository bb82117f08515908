/** What the single lines of a request mean, stated as shapes of text rather than as searches. */
module LineGrammar {
  import opened Text
  import opened Numbers
  import opened Headers
  import opened RequestParser

  const VERSION_PREFIX := "HTTP/1."

  // ---------- characters ----------

  /** The delimiters of section 5.6.2 of RFC 9110: quote, comma, slash, the seven from colon to at sign, and the three
      kinds of bracket with the backslash. */
  predicate IsDelimiter(c: char) {
    || c == '"' || c == ',' || c == '/' || ':' <= c <= '@'
    || '(' <= c <= ')' || '[' <= c <= ']' || c == '{' || c == '}'
  }

  /** Visible ASCII and no delimiter. */
  predicate IsWordChar(c: char) { '!' <= c <= '~' && !IsDelimiter(c) }

  predicate IsWord(s: string) { s != [] && forall i :: 0 <= i < |s| ==> IsWordChar(s[i]) }

  lemma TokenMeaning(s: string)
    ensures IsToken(s) <==> IsWord(s)
  {
    hide IsTchar, IsWordChar;
    forall i | 0 <= i < |s|
      ensures IsTchar(s[i]) <==> IsWordChar(s[i])
    {
      TokenChar(s[i]);
    }
  }

  lemma TokenChar(c: char)
    ensures IsTchar(c) <==> IsWordChar(c)
  {
  }

  /** No control byte, no space, no DEL. */
  predicate IsGraphic(t: string) { t != [] && forall i :: 0 <= i < |t| ==> t[i] as int > 0x20 && t[i] as int != 0x7F }

  /** No control byte but HTAB, and no DEL. */
  predicate IsText(s: string) {
    forall i :: 0 <= i < |s| ==> s[i] as int == 0x09 || (s[i] as int >= 0x20 && s[i] as int != 0x7F)
  }

  lemma TextMeaning(s: string)
    ensures ValidTarget(s) <==> IsGraphic(s)
    ensures IsFieldValue(s) <==> IsText(s)
  {
  }

  // ---------- targets ----------

  /** Path and query are what stands before and after the first question mark. */
  predicate SplitsAt(s: string, path: string, query: string) {
    if '?' in s then s == path + ['?'] + query && '?' !in path else path == s && query == ""
  }

  lemma PathQueryMeaning(pq: string, path: string, query: string)
    ensures PathOf(pq) == path && QueryOf(pq) == query <==> SplitsAt(pq, path, query)
  {
    if pq == path + ['?'] + query && '?' !in path {
      FindCharAt(path, '?', query);
      assert pq[..|path|] == path && pq[|path| + 1..] == query;
      assert pq[|path|] == '?';
    }
    if '?' in pq {
      Rejoin(pq, FindChar(pq, '?'));
    }
  }

  lemma Rejoin(s: string, i: nat)
    requires i < |s|
    ensures s == s[..i] + [s[i]] + s[i + 1..]
  {
  }

  predicate IsScheme(s: string) { SameLetters(s, "http://") || SameLetters(s, "https://") }

  /** The three kinds of target: a path, a whole URL, or the server itself. */
  datatype TargetForm = Origin | Absolute(scheme: string, authority: string, rest: string) | Asterisk

  /** A target of this form, with this path and query. Of a URL, scheme and authority are dropped and an absent path
      is "/". */
  predicate HasForm(verb: string, target: string, form: TargetForm, path: string, query: string) {
    match form
    case Origin => target != [] && target[0] == '/' && SplitsAt(target, path, query)
    case Absolute(scheme, authority, rest) =>
      && IsScheme(scheme) && '/' !in authority && target == scheme + (authority + rest)
      && if rest == "" then path == "/" && query == "" else rest[0] == '/' && SplitsAt(rest, path, query)
    case Asterisk => verb == "OPTIONS" && target == "*" && path == "*" && query == ""
  }

  lemma SchemeShape(s: string)
    requires IsScheme(s)
    ensures |s| >= 7 && s[|s| - 2] == '/' && s[|s| - 1] == '/'
    ensures forall i :: 0 <= i < |s| - 2 ==> s[i] != '/'
  {
    var p := if SameLetters(s, "http://") then "http://" else "https://";
    assert |p| == 7 || |p| == 8;
    forall i | 0 <= i < |s|
      ensures s[i] == '/' <==> i >= |s| - 2
    {
      assert SameLetter(s[i], p[i]);
    }
  }

  lemma {:induction false} SlashesFound(a: string, rest: string)
    requires forall i :: 0 <= i < |a| ==> a[i] != '/'
    requires |rest| >= 2 && rest[0] == '/' && rest[1] == '/'
    ensures exists i :: 0 <= i < |a + rest| - 1 && (a + rest)[i] == '/' && (a + rest)[i + 1] == '/'
    ensures AfterSlashes(a + rest) == |a| + 2
    decreases |a|
  {
    var s := a + rest;
    assert s[|a|] == '/' && s[|a| + 1] == '/';
    if a != [] {
      assert s[0] == a[0];
      assert s[1..] == a[1..] + rest;
      SlashesFound(a[1..], rest);
    } else {
      assert s == rest;
    }
  }

  /** Of an absolute target, scheme and authority are dropped; an absent path is "/". */
  lemma AbsoluteTarget(scheme: string, authority: string, rest: string)
    requires IsScheme(scheme) && '/' !in authority && (rest == "" || rest[0] == '/')
    ensures var t := scheme + (authority + rest);
            IsAbsolute(t) && PathAndQuery(t) == if rest == "" then "/" else rest
  {
    hide AfterSlashes;
    var tail := authority + rest;
    var t := scheme + tail;
    var k := |scheme| - 2;
    SchemeShape(scheme);
    assert t[..|scheme|] == scheme;
    assert IsAbsolute(t) by {
      assert |"http://"| == 7 && |"https://"| == 8;
      IEqualsMeaning(scheme, "http://");
      IEqualsMeaning(scheme, "https://");
    }
    assert t == scheme[..k] + (scheme[k..] + tail);
    SlashesFound(scheme[..k], scheme[k..] + tail);
    assert t[|scheme|..] == tail;
    if rest == "" {
      assert tail == authority;
    } else {
      assert tail == authority + ['/'] + rest[1..];
      FindCharAt(authority, '/', rest[1..]);
      assert t[|scheme| + |authority|..] == rest;
    }
  }

  lemma AbsoluteParts(t: string) returns (scheme: string, authority: string, rest: string)
    requires IsAbsolute(t)
    ensures IsScheme(scheme) && '/' !in authority && (rest == "" || rest[0] == '/')
    ensures t == scheme + (authority + rest)
  {
    var n := if StartsWithIcase(t, "http://") then 7 else 8;
    assert |"http://"| == 7 && |"https://"| == 8;
    scheme := t[..n];
    IEqualsMeaning(scheme, "http://");
    IEqualsMeaning(scheme, "https://");
    var tail := t[n..];
    var slash := FindChar(tail, '/');
    authority := if slash < 0 then tail else tail[..slash];
    rest := tail[|authority|..];
    assert tail == authority + rest && t == scheme + tail;
  }

  lemma AbsoluteBegins(t: string)
    requires IsAbsolute(t)
    ensures t != [] && (t[0] == 'h' || t[0] == 'H')
  {
    var p := if StartsWithIcase(t, "http://") then "http://" else "https://";
    assert Lower(t[..|p|][0]) == Lower(p[0]);
  }

  lemma FormAccepted(verb: string, target: string, form: TargetForm, path: string, query: string)
    requires HasForm(verb, target, form, path, query)
    ensures SupportedForm(verb, target) && SplitsAt(PathAndQuery(target), path, query)
  {
    hide IsAbsolute, IsScheme;
    match form {
      case Origin => PathItself(target);
      case Asterisk =>
        PathItself(target);
        assert SplitsAt("*", "*", "");
      case Absolute(scheme, authority, rest) =>
        AbsoluteTarget(scheme, authority, rest);
        assert SplitsAt("/", "/", "");
    }
  }

  lemma PathItself(target: string)
    requires target != [] && (target[0] == '/' || target[0] == '*')
    ensures PathAndQuery(target) == target
  {
    hide AfterSlashes;
    if IsAbsolute(target) {
      AbsoluteBegins(target);
    }
  }

  lemma FormFound(verb: string, target: string, path: string, query: string) returns (form: TargetForm)
    requires SupportedForm(verb, target) && SplitsAt(PathAndQuery(target), path, query)
    ensures HasForm(verb, target, form, path, query)
  {
    hide IsAbsolute, IsScheme;
    if IsAbsolute(target) {
      var scheme, authority, rest := AbsoluteParts(target);
      AbsoluteTarget(scheme, authority, rest);
      form := Absolute(scheme, authority, rest);
    } else {
      form := if target[0] == '/' then Origin else Asterisk;
    }
  }

  /** A target is taken, with this path and query, exactly when it has one of the three forms with them. */
  lemma TargetMeaning(verb: string, target: string, path: string, query: string)
    ensures (exists form :: HasForm(verb, target, form, path, query)) <==>
              && SupportedForm(verb, target)
              && PathOf(PathAndQuery(target)) == path && QueryOf(PathAndQuery(target)) == query
  {
    hide SupportedForm, PathOf, QueryOf, PathAndQuery, HasForm, SplitsAt;
    PathQueryMeaning(PathAndQuery(target), path, query);
    if SupportedForm(verb, target) && SplitsAt(PathAndQuery(target), path, query) {
      var form := FormFound(verb, target, path, query);
    }
    forall form | HasForm(verb, target, form, path, query)
      ensures SupportedForm(verb, target) && SplitsAt(PathAndQuery(target), path, query)
    {
      FormAccepted(verb, target, form, path, query);
    }
  }

  // ---------- request lines ----------

  /** method SP request-target SP "HTTP/1." ("0" / "1"), with a target of this form. */
  predicate IsRequestLineOf(line: string, h: StartLine, form: TargetForm) {
    && h.minor <= 1
    && line == h.verb + [' '] + (h.target + [' '] + (VERSION_PREFIX + [DigitChar(h.minor)]))
    && IsWord(h.verb) && IsGraphic(h.target) && HasForm(h.verb, h.target, form, h.path, h.query)
  }

  ghost predicate IsRequestLine(line: string, h: StartLine) { exists form :: IsRequestLineOf(line, h, form) }

  ghost predicate IsSomeRequestLine(line: string) { exists h :: IsRequestLine(line, h) }

  lemma NoSpaces(verb: string, target: string)
    ensures IsToken(verb) ==> ' ' !in verb
    ensures ValidTarget(target) ==> ' ' !in target
  {
  }

  lemma VersionNoSpace(minor: nat)
    requires minor <= 1
    ensures ' ' !in VERSION_PREFIX + [DigitChar(minor)]
    ensures IsVersion(VERSION_PREFIX + [DigitChar(minor)])
    ensures var v := VERSION_PREFIX + [DigitChar(minor)]; v[5] == '1' && v[7] == DigitChar(minor)
  {
    var v := VERSION_PREFIX + [DigitChar(minor)];
    assert v[..5] == "HTTP/";
  }

  lemma VersionShape(v: string)
    requires IsVersion(v) && v[5] == '1' && v[7] <= '1'
    ensures HexValue(v[7]) <= 1 && v == VERSION_PREFIX + [DigitChar(HexValue(v[7]))]
  {
    assert v == v[..5] + v[5..];
    assert v[5..] == [v[5], v[6], v[7]];
    assert VERSION_PREFIX == "HTTP/" + "1.";
  }

  lemma PartsMeaning(verb: string, target: string, version: string, h: StartLine)
    ensures ReadParts(verb, target, version) == Ok(h) <==>
              && h.verb == verb && h.target == target && h.minor <= 1
              && version == VERSION_PREFIX + [DigitChar(h.minor)]
              && IsToken(verb) && ValidTarget(target) && SupportedForm(verb, target)
              && h.path == PathOf(PathAndQuery(target)) && h.query == QueryOf(PathAndQuery(target))
  {
    hide IsToken, ValidTarget, SupportedForm, PathOf, QueryOf, PathAndQuery, IsVersion;
    if IsVersion(version) {
      VersionLength(version);
      if version[5] == '1' && version[7] <= '1' {
        VersionShape(version);
      }
    }
    if h.minor <= 1 && version == VERSION_PREFIX + [DigitChar(h.minor)] {
      VersionNoSpace(h.minor);
    }
  }

  lemma VersionLength(v: string)
    requires IsVersion(v)
    ensures |v| == 8 && IsDigit(v[5]) && IsDigit(v[7])
  {
  }

  lemma SplitAtSpaces(a: string, b: string, c: string)
    requires ' ' !in a && ' ' !in b && ' ' !in c
    ensures ReadRequestLine(a + [' '] + (b + [' '] + c)) == ReadParts(a, b, c)
  {
    hide ReadParts;
    var tail := b + [' '] + c;
    var line := a + [' '] + tail;
    FindCharAt(a, ' ', tail);
    assert line[..|a|] == a && line[|a| + 1..] == tail;
    FindCharAt(b, ' ', c);
    assert tail[..|b|] == b && tail[|b| + 1..] == c;
  }

  lemma RequestLineAccepted(line: string, h: StartLine, form: TargetForm)
    requires IsRequestLineOf(line, h, form)
    ensures ReadRequestLine(line) == Ok(h)
  {
    hide IsToken, ValidTarget, SupportedForm, PathOf, QueryOf, PathAndQuery, ReadParts, ReadRequestLine, HasForm,
         IsWord, IsGraphic;
    var v := VERSION_PREFIX + [DigitChar(h.minor)];
    TokenMeaning(h.verb);
    TextMeaning(h.target);
    TargetMeaning(h.verb, h.target, h.path, h.query);
    NoSpaces(h.verb, h.target);
    VersionNoSpace(h.minor);
    SplitAtSpaces(h.verb, h.target, v);
    PartsMeaning(h.verb, h.target, v, h);
  }

  lemma RequestLineShape(line: string, h: StartLine) returns (form: TargetForm)
    requires ReadRequestLine(line) == Ok(h)
    ensures IsRequestLineOf(line, h, form)
  {
    hide IsToken, ValidTarget, SupportedForm, PathOf, QueryOf, PathAndQuery, ReadParts, HasForm, IsWord, IsGraphic;
    var sp1 := FindChar(line, ' ');
    var tail := line[sp1 + 1..];
    var sp2 := FindChar(tail, ' ');
    Rejoin(line, sp1);
    Rejoin(tail, sp2);
    PartsMeaning(line[..sp1], tail[..sp2], tail[sp2 + 1..], h);
    TokenMeaning(h.verb);
    TextMeaning(h.target);
    TargetMeaning(h.verb, h.target, h.path, h.query);
    form :| HasForm(h.verb, h.target, form, h.path, h.query);
  }

  /** The request line is accepted exactly when it has this shape, and then means these parts. */
  lemma RequestLineMeaning(line: string, h: StartLine)
    ensures ReadRequestLine(line) == Ok(h) <==> IsRequestLine(line, h)
  {
    hide ReadRequestLine, IsRequestLineOf;
    if ReadRequestLine(line) == Ok(h) {
      var form := RequestLineShape(line, h);
    }
    forall form | IsRequestLineOf(line, h, form)
      ensures ReadRequestLine(line) == Ok(h)
    {
      RequestLineAccepted(line, h, form);
    }
  }

  // ---------- field lines ----------

  /** field-name ":" OWS field-value OWS, with this much whitespace on either side of the value. */
  predicate IsFieldLineOf(line: string, f: Field, l: string, r: string) {
    && line == f.name + [':'] + (l + f.value + r)
    && AllOws(l) && AllOws(r)
    && IsWord(f.name) && Trimmed(f.value) && IsText(f.value)
  }

  lemma FieldLineAccepted(line: string, f: Field, l: string, r: string)
    requires IsFieldLineOf(line, f, l, r)
    ensures ReadFieldLine(line) == Ok(f)
  {
    hide Trim, Trimmed, IsFieldValue, IsText, IsToken;
    TokenMeaning(f.name);
    TextMeaning(f.value);
    assert ':' !in f.name;
    FindCharAt(f.name, ':', l + f.value + r);
    assert line[..|f.name|] == f.name && line[|f.name| + 1..] == l + f.value + r;
    TrimUndoesPadding(l, f.value, r);
  }

  lemma FieldLineShape(line: string, f: Field) returns (l: string, r: string)
    requires ReadFieldLine(line) == Ok(f)
    ensures IsFieldLineOf(line, f, l, r)
  {
    hide Trim, Trimmed, IsFieldValue, IsToken, IsWord, IsText;
    TokenMeaning(f.name);
    TextMeaning(f.value);
    var colon := FindChar(line, ':');
    l, r := TrimShape(line[colon + 1..]);
    assert line == line[..colon] + [':'] + line[colon + 1..];
  }

  /** A field line is accepted as a field exactly when it is that field with whitespace around its value:
      no space before the colon, no folding, no control bytes in the value. */
  lemma FieldLineMeaning(line: string, f: Field)
    ensures ReadFieldLine(line) == Ok(f) <==> exists l, r :: IsFieldLineOf(line, f, l, r)
  {
    hide ReadFieldLine, IsFieldLineOf;
    if ReadFieldLine(line) == Ok(f) {
      var l, r := FieldLineShape(line, f);
    }
    forall l, r | IsFieldLineOf(line, f, l, r)
      ensures ReadFieldLine(line) == Ok(f)
    {
      FieldLineAccepted(line, f, l, r);
    }
  }

  // ---------- chunk sizes ----------

  /** OWS, 1 to 16 hex digits, OWS, and an extension that is ignored. */
  predicate IsChunkLineOf(line: string, digits: string, l: string, r: string, ext: string) {
    && line == l + digits + r + ext && AllOws(l) && AllOws(r)
    && 1 <= |digits| <= 16 && AllHex(digits)
    && (ext == "" || ext[0] == ';')
  }

  lemma HexHasNoOws(d: string)
    requires AllHex(d)
    ensures Trimmed(d) && ';' !in d
  {
  }

  lemma ChunkLineAccepted(line: string, digits: string, l: string, r: string, ext: string)
    requires IsChunkLineOf(line, digits, l, r, ext)
    ensures ReadChunkSize(line) == Some(Value(digits, 16))
  {
    hide Trim, Value, AllHex, Trimmed;
    var front := l + digits + r;
    HexHasNoOws(digits);
    assert ';' !in front;
    if ext == "" {
      assert line == front;
    } else {
      assert line == front + [';'] + ext[1..];
      FindCharAt(front, ';', ext[1..]);
      assert line[..|front|] == front;
    }
    TrimUndoesPadding(l, digits, r);
  }

  lemma ChunkLineShape(line: string) returns (digits: string, l: string, r: string, ext: string)
    requires ReadChunkSize(line).Some?
    ensures IsChunkLineOf(line, digits, l, r, ext)
  {
    hide Trim, Value;
    var semi := FindChar(line, ';');
    var front := if semi < 0 then line else line[..semi];
    ext := line[|front|..];
    digits := Trim(front);
    l, r := TrimShape(front);
    assert line == front + ext;
  }

  /** A chunk-size line is accepted as n exactly when it has this shape and its digits mean n. */
  lemma ChunkLineMeaning(line: string, n: nat)
    ensures ReadChunkSize(line) == Some(n) <==>
              exists digits, l, r, ext :: IsChunkLineOf(line, digits, l, r, ext) && Value(digits, 16) == n
  {
    hide ReadChunkSize, Value;
    if ReadChunkSize(line) == Some(n) {
      var digits, l, r, ext := ChunkLineShape(line);
      ChunkLineAccepted(line, digits, l, r, ext);
    }
    forall digits, l, r, ext | IsChunkLineOf(line, digits, l, r, ext) && Value(digits, 16) == n
      ensures ReadChunkSize(line) == Some(n)
    {
      ChunkLineAccepted(line, digits, l, r, ext);
    }
  }
}
