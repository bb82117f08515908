/** The path normaliser of the static file server: percent-decoding, then removal of empty and "."
    segments, with ".." refused. */
module StaticFiles {
  import opened Text
  import opened Numbers

  predicate Refused(c: char) { c == '\0' || c == '\\' }

  // ---------- percent-decoding ----------

  function Prepend(s: string, r: Option<string>): Option<string> {
    if r.None? then None else Some(s + r.value)
  }

  function CodedChar(h: char, l: char): char
    requires HexValue(h) >= 0 && HexValue(l) >= 0
  {
    (HexValue(h) * 16 + HexValue(l)) as char
  }

  /** The bytes a URL path stands for, or nothing if an escape is malformed or a byte is refused. */
  function Unescape(s: string): Option<string> {
    if s == [] then Some("")
    else if s[0] == '%' then
      if |s| < 3 || HexValue(s[1]) < 0 || HexValue(s[2]) < 0 then None
      else if Refused(CodedChar(s[1], s[2])) then None
      else Prepend([CodedChar(s[1], s[2])], Unescape(s[3..]))
    else if Refused(s[0]) then None
    else Prepend([s[0]], Unescape(s[1..]))
  }

  /** One byte of a path as it is written: itself, or an escape. */
  datatype Unit = AsIs(c: char) | Coded(h: char, l: char)

  predicate IsUnit(u: Unit) {
    match u
    case AsIs(c) => c != '%' && c as int != 0 && c as int != 0x5C
    case Coded(h, l) =>
      && HexValue(h) >= 0 && HexValue(l) >= 0
      && HexValue(h) * 16 + HexValue(l) != 0 && HexValue(h) * 16 + HexValue(l) != 0x5C
  }

  function Written(u: Unit): string {
    match u
    case AsIs(c) => [c]
    case Coded(h, l) => ['%', h, l]
  }

  function StandsFor(u: Unit): char
    requires IsUnit(u)
  {
    match u
    case AsIs(c) => c
    case Coded(h, l) => (HexValue(h) * 16 + HexValue(l)) as char
  }

  predicate AreUnits(us: seq<Unit>) { forall i :: 0 <= i < |us| ==> IsUnit(us[i]) }

  function Spelling(us: seq<Unit>): string { if us == [] then "" else Written(us[0]) + Spelling(us[1..]) }

  function Meaning(us: seq<Unit>): string
    requires AreUnits(us)
  {
    if us == [] then "" else [StandsFor(us[0])] + Meaning(us[1..])
  }

  /** The path is these units in a row, and they stand for `d`. */
  predicate Spells(us: seq<Unit>, s: string, d: string) { AreUnits(us) && Spelling(us) == s && Meaning(us) == d }

  lemma {:induction false} UnitsUnescape(us: seq<Unit>)
    requires AreUnits(us)
    ensures Unescape(Spelling(us)) == Some(Meaning(us))
    decreases |us|
  {
    if us != [] {
      var s, n := Spelling(us), |Written(us[0])|;
      UnitsUnescape(us[1..]);
      assert s[..n] == Written(us[0]) && s[n..] == Spelling(us[1..]);
      assert s[0] == Written(us[0])[0];
      if us[0].Coded? {
        assert s[1] == Written(us[0])[1] && s[2] == Written(us[0])[2];
      }
    }
  }

  lemma {:induction false} UnescapedUnits(s: string) returns (us: seq<Unit>)
    requires Unescape(s).Some?
    ensures Spells(us, s, Unescape(s).value)
    decreases |s|
  {
    us := [];
    if s != [] {
      var u := if s[0] == '%' then Coded(s[1], s[2]) else AsIs(s[0]);
      var n := |Written(u)|;
      var more := UnescapedUnits(s[n..]);
      us := [u] + more;
      assert us[1..] == more && s == Written(u) + s[n..];
    }
  }

  /** A path is accepted as `d` exactly when it is plain bytes and escapes that stand for `d`, none of them refused. */
  lemma UnescapeMeaning(s: string, d: string)
    ensures Unescape(s) == Some(d) <==> exists us :: Spells(us, s, d)
  {
    hide Unescape, Spelling, Meaning;
    if Unescape(s) == Some(d) {
      var us := UnescapedUnits(s);
    }
    forall us | Spells(us, s, d)
      ensures Unescape(s) == Some(d)
    {
      UnitsUnescape(us);
    }
  }

  method Decode(url: string) returns (r: Option<string>)
    ensures r == Unescape(url)
  {
    var decoded := "";
    var i := 0;
    assert Unescape(url).Some? ==> "" + Unescape(url).value == Unescape(url).value;
    assert url[0..] == url;
    while i < |url|
      invariant 0 <= i <= |url|
      invariant Unescape(url) == Prepend(decoded, Unescape(url[i..]))
    {
      var c := url[i];
      var rest := url[i..];
      var step := 1;
      if c == '%' {
        if i + 2 >= |url| { return None; }
        if HexValue(url[i + 1]) < 0 || HexValue(url[i + 2]) < 0 { return None; }
        c := CodedChar(url[i + 1], url[i + 2]);
        step := 3;
      }
      if Refused(c) { return None; }
      assert rest[step..] == url[i + step..];
      PrependTwice(decoded, [c], Unescape(url[i + step..]));
      decoded := decoded + [c];
      i := i + step;
    }
    assert url[i..] == [] && decoded + "" == decoded;
    r := Some(decoded);
  }

  lemma PrependTwice(a: string, b: string, r: Option<string>)
    ensures Prepend(a, Prepend(b, r)) == Prepend(a + b, r)
  {
    if r.Some? {
      Assoc(a, b, r.value);
    }
  }

  // ---------- segments ----------

  function Split(s: string): (segs: seq<string>)
    ensures |segs| > 0
    decreases |s|
  {
    var c := FindChar(s, '/');
    if c < 0 then [s] else [s[..c]] + Split(s[c + 1..])
  }

  predicate Counts(seg: string) { seg != "" && seg != "." }

  function Kept(segs: seq<string>): seq<string> {
    if segs == [] then []
    else Kept(segs[..|segs| - 1]) + if Counts(segs[|segs| - 1]) then [segs[|segs| - 1]] else []
  }

  function Join(segs: seq<string>): string {
    if segs == [] then ""
    else if |segs| == 1 then segs[0]
    else Join(segs[..|segs| - 1]) + "/" + segs[|segs| - 1]
  }

  predicate Climbs(segs: seq<string>) { exists i :: 0 <= i < |segs| && segs[i] == ".." }

  /** Accepted exactly when the decoded path has no ".." segment; then the kept segments joined. */
  function Sanitized(url: string): Option<string> {
    var d := Unescape(url);
    if d.None? || Climbs(Split(d.value)) then None else Some(Join(Kept(Split(d.value))))
  }

  lemma JoinAppend(segs: seq<string>, seg: string)
    ensures Join(segs + [seg]) == if segs == [] then seg else Join(segs) + "/" + seg
  {
    assert (segs + [seg])[..|segs|] == segs;
  }

  lemma KeptAppend(segs: seq<string>, seg: string)
    ensures Kept(segs + [seg]) == Kept(segs) + if Counts(seg) then [seg] else []
  {
    assert (segs + [seg])[..|segs|] == segs;
  }

  lemma {:induction false} KeptCount(segs: seq<string>)
    ensures forall i :: 0 <= i < |Kept(segs)| ==> Counts(Kept(segs)[i])
    ensures Join(Kept(segs)) == "" <==> Kept(segs) == []
  {
    if segs != [] {
      KeptCount(segs[..|segs| - 1]);
    }
  }

  /** Adds one segment to the path built so far, or leaves it out. */
  method AppendSegment(out: string, segment: string, ghost done: seq<string>) returns (r: string)
    requires out == Join(Kept(done))
    ensures r == Join(Kept(done + [segment]))
  {
    hide Join, Kept;
    KeptAppend(done, segment);
    KeptCount(done);
    JoinAppend(Kept(done), segment);
    r := out;
    if segment != "" && segment != "." {
      if r != "" { r := r + "/"; }
      r := r + segment;
    } else {
      assert Kept(done) + [] == Kept(done);
    }
  }

  lemma ClimbsAppend(done: seq<string>, seg: string, more: seq<string>)
    ensures Climbs(done + [seg]) <==> Climbs(done) || seg == ".."
    ensures seg == ".." ==> Climbs(done + [seg] + more)
  {
    var s := done + [seg];
    assert s[|done|] == seg;
    assert forall i :: 0 <= i < |done| ==> s[i] == done[i];
    assert (s + more)[|done|] == seg;
  }

  /** The second loop: walks the decoded path from slash to slash. */
  method Normalise(decoded: string) returns (r: Option<string>)
    ensures r == if Climbs(Split(decoded)) then None else Some(Join(Kept(Split(decoded))))
  {
    hide Split, Join, Kept, Climbs;
    var out := "";
    var pos := 0;
    ghost var done: seq<string> := [];
    assert decoded[0..] == decoded;
    assert [] + Split(decoded) == Split(decoded);
    NoSegments();
    while pos <= |decoded|
      invariant 0 <= pos <= |decoded| + 1
      invariant Split(decoded) == if pos <= |decoded| then done + Split(decoded[pos..]) else done
      invariant !Climbs(done) && out == Join(Kept(done))
      decreases |decoded| + 1 - pos
    {
      var c := FindChar(decoded[pos..], '/');
      var slash := if c < 0 then |decoded| else pos + c;
      var segment := decoded[pos..slash];
      SplitHere(decoded, pos, slash);
      SplitGlue(done, Split(decoded[pos..]), segment, SplitFrom(decoded, slash + 1));
      ghost var more := SplitFrom(decoded, slash + 1);
      ClimbsAppend(done, segment, more);
      if segment == ".." { return None; }
      out := AppendSegment(out, segment, done);
      assert done + [segment] + [] == done + [segment];
      done := done + [segment];
      pos := slash + 1;
    }
    r := Some(out);
  }

  /** What is left to split behind a slash, if anything. */
  function SplitFrom(s: string, pos: nat): seq<string> { if pos <= |s| then Split(s[pos..]) else [] }

  /** The first segment and what is left, by positions in the whole. */
  lemma SplitHere(s: string, pos: nat, slash: nat)
    requires pos <= slash <= |s| && '/' !in s[pos..slash] && (slash < |s| ==> s[slash] == '/')
    ensures Split(s[pos..]) == [s[pos..slash]] + SplitFrom(s, slash + 1)
  {
    hide Split;
    if slash < |s| {
      SplitPart(s[pos..slash], s[slash + 1..]);
      assert s[pos..] == s[pos..slash] + ['/'] + s[slash + 1..];
    } else {
      SplitPart(s[pos..slash], "");
      assert s[pos..] == s[pos..slash];
    }
  }

  /** What stands before the first slash is the first segment; without a slash it is the only one. */
  lemma SplitPart(p: string, q: string)
    requires '/' !in p
    ensures Split(p) == [p] && Split(p + ['/'] + q) == [p] + Split(q)
  {
    var s := p + ['/'] + q;
    FindCharAt(p, '/', q);
    assert s[..|p|] == p && s[|p| + 1..] == q;
  }

  lemma SplitGlue(done: seq<string>, tail: seq<string>, segment: string, more: seq<string>)
    requires tail == [segment] + more
    ensures done + tail == done + [segment] + more
  {
  }

  method Sanitize(url: string) returns (r: Option<string>)
    ensures r == Sanitized(url)
  {
    var decoded := Decode(url);
    if decoded.None? { return None; }
    r := Normalise(decoded.value);
  }

  // ---------- what an accepted path can be ----------

  /** A segment that names an entry of its own directory. */
  predicate Proper(seg: string) {
    && seg != "" && seg != "." && seg != ".."
    && forall i :: 0 <= i < |seg| ==> seg[i] != '/' && seg[i] as int != 0 && seg[i] as int != 0x5C
  }

  predicate AllProper(segs: seq<string>) { forall i :: 0 <= i < |segs| ==> Proper(segs[i]) }

  predicate NoSlash(segs: seq<string>) { forall i :: 0 <= i < |segs| ==> '/' !in segs[i] }

  lemma {:induction false} SplitNoSlash(s: string)
    ensures NoSlash(Split(s))
    decreases |s|
  {
    var c := FindChar(s, '/');
    if c >= 0 {
      SplitNoSlash(s[c + 1..]);
    }
  }

  predicate Clean(s: string) { forall i :: 0 <= i < |s| ==> !Refused(s[i]) }

  lemma {:induction false} UnescapeClean(s: string)
    ensures Unescape(s).Some? ==> Clean(Unescape(s).value)
  {
    if s != [] {
      if s[0] == '%' {
        if |s| >= 3 {
          UnescapeClean(s[3..]);
        }
      } else {
        UnescapeClean(s[1..]);
      }
    }
  }

  predicate AllClean(segs: seq<string>) { forall i :: 0 <= i < |segs| ==> Clean(segs[i]) }

  lemma CleanPart(s: string, a: nat, b: nat)
    requires Clean(s) && a <= b <= |s|
    ensures Clean(s[a..b])
  {
  }

  lemma AllCleanCons(seg: string, segs: seq<string>)
    requires Clean(seg) && AllClean(segs)
    ensures AllClean([seg] + segs)
  {
    hide Clean;
  }

  lemma SplitUnfold(s: string)
    ensures var c := FindChar(s, '/');
            Split(s) == if c < 0 then [s] else [s[..c]] + Split(s[c + 1..])
  {
  }

  lemma {:induction false} SplitClean(s: string)
    requires Clean(s)
    ensures AllClean(Split(s))
    decreases |s|
  {
    hide Clean, Split;
    SplitUnfold(s);
    var c := FindChar(s, '/');
    if c >= 0 {
      CleanPart(s, 0, c);
      CleanPart(s, c + 1, |s|);
      assert s[0..c] == s[..c] && s[c + 1..|s|] == s[c + 1..];
      SplitClean(s[c + 1..]);
      AllCleanCons(s[..c], Split(s[c + 1..]));
    }
  }

  lemma {:induction false} KeptProper(segs: seq<string>)
    requires NoSlash(segs) && !Climbs(segs) && AllClean(segs)
    ensures AllProper(Kept(segs))
  {
    if segs != [] {
      var k := |segs| - 1;
      assert segs[k] != "..";
      KeptProper(segs[..k]);
    }
  }

  /** Splitting a joined path gives its segments back. */
  lemma {:induction false} SplitJoin(segs: seq<string>)
    requires segs != [] && NoSlash(segs)
    ensures Split(Join(segs)) == segs
  {
    hide Split, Join;
    var k := |segs| - 1;
    assert segs == segs[..k] + [segs[k]];
    JoinAppend(segs[..k], segs[k]);
    if k == 0 {
      SplitPart(segs[0], "");
      assert segs == [segs[0]];
    } else {
      SplitJoin(segs[..k]);
      SplitAppend(Join(segs[..k]), segs[k]);
    }
  }

  lemma {:induction false} SplitAppend(a: string, seg: string)
    requires '/' !in seg
    ensures Split(a + "/" + seg) == Split(a) + [seg]
    decreases |a|
  {
    hide Split;
    var s := a + "/" + seg;
    assert s == a + ['/'] + seg;
    SplitPart(seg, "");
    var c := FindChar(a, '/');
    if c < 0 {
      SplitPart(a, seg);
    } else {
      var p, q := a[..c], a[c + 1..];
      assert a == p + ['/'] + q;
      assert s == p + ['/'] + (q + "/" + seg);
      SplitPart(p, q);
      SplitPart(p, q + "/" + seg);
      SplitAppend(q, seg);
      Assoc([p], Split(q), [seg]);
    }
  }

  /** No accepted path escapes the root: it is empty, or its segments are all proper names. */
  lemma AcceptedIsSafe(url: string)
    requires Sanitized(url).Some?
    ensures Sanitized(url).value == "" || AllProper(Split(Sanitized(url).value))
  {
    hide Unescape, Split, Kept, Join, Climbs, Proper, Clean;
    var d := Unescape(url).value;
    var segs := Split(d);
    UnescapeClean(url);
    SplitClean(d);
    SplitNoSlash(d);
    KeptProper(segs);
    KeptCount(segs);
    if Kept(segs) != [] {
      ProperNoSlash(Kept(segs));
      SplitJoin(Kept(segs));
    }
  }

  lemma ProperNoSlash(segs: seq<string>)
    requires AllProper(segs)
    ensures NoSlash(segs) && !Climbs(segs) && forall i :: 0 <= i < |segs| ==> Counts(segs[i]) && Clean(segs[i])
  {
  }

  // ---------- which paths are accepted, and as what ----------

  lemma {:induction false} JoinSplit(s: string)
    ensures Join(Split(s)) == s
    decreases |s|
  {
    hide Join;
    SplitUnfold(s);
    JoinOne(s);
    var c := FindChar(s, '/');
    if c >= 0 {
      JoinSplit(s[c + 1..]);
      JoinFront(s[..c], Split(s[c + 1..]));
      assert s == s[..c] + "/" + s[c + 1..];
    }
  }

  lemma JoinOne(s: string)
    ensures Join([s]) == s
  {
  }

  lemma {:induction false} JoinFront(seg: string, segs: seq<string>)
    requires segs != []
    ensures Join([seg] + segs) == seg + "/" + Join(segs)
    decreases |segs|
  {
    hide Join;
    var k := |segs| - 1;
    var front := [seg] + segs[..k];
    assert [seg] + segs == front + [segs[k]] && segs == segs[..k] + [segs[k]];
    JoinAppend(front, segs[k]);
    JoinAppend(segs[..k], segs[k]);
    if k == 0 {
      assert front == [seg];
      JoinOne(seg);
      JoinOne(segs[0]);
    } else {
      JoinFront(seg, segs[..k]);
    }
  }

  /** The positions, in order, of the segments that are neither empty nor a dot. */
  predicate AreNames(segs: seq<string>, ks: seq<nat>) {
    ArePositions(ks, |segs|) && forall i :: 0 <= i < |segs| ==> (i in ks <==> segs[i] != "" && segs[i] != ".")
  }

  lemma NamesStep(segs: seq<string>, js: seq<nat>, seg: string)
    requires AreNames(segs, js)
    ensures AreNames(segs + [seg], if Counts(seg) then js + [|segs|] else js)
  {
    PickStep(segs, js, seg);
    assert forall i :: 0 <= i < |segs| ==> (segs + [seg])[i] == segs[i];
  }

  lemma {:induction false} KeptAreNames(segs: seq<string>) returns (ks: seq<nat>)
    ensures AreNames(segs, ks) && Kept(segs) == Pick(segs, ks)
  {
    hide AreNames, Pick, Counts, Kept;
    ks := [];
    if segs == [] {
      NoNames();
    } else {
      var k := |segs| - 1;
      var js := KeptAreNames(segs[..k]);
      ks := if Counts(segs[k]) then js + [k] else js;
      assert segs == segs[..k] + [segs[k]];
      NamesStep(segs[..k], js, segs[k]);
      NamesPositions(segs[..k], js);
      PickStep(segs[..k], js, segs[k]);
      KeptAppend(segs[..k], segs[k]);
    }
  }

  lemma NoNames()
    ensures AreNames([], []) && Kept([]) == Pick([], [])
  {
  }

  lemma NamesPositions(segs: seq<string>, ks: seq<nat>)
    requires AreNames(segs, ks)
    ensures ArePositions(ks, |segs|)
  {
  }

  /** There is only one way of picking the names. */
  lemma {:induction false} NamesAreKept(segs: seq<string>, ks: seq<nat>)
    requires AreNames(segs, ks)
    ensures Pick(segs, ks) == Kept(segs)
  {
    hide Pick, Kept;
    if segs == [] {
      NoPositions(ks);
      NoNames();
    } else {
      var k := |segs| - 1;
      var front, last := segs[..k], segs[k];
      assert segs == front + [last];
      LastPosition(ks, k);
      KeptAppend(front, last);
      var js := if Counts(last) then ks[..|ks| - 1] else ks;
      assert forall i :: 0 <= i < k ==> front[i] == segs[i];
      NamesAreKept(front, js);
      PickStep(front, js, last);
    }
  }

  /** The path spells these segments with slashes between them, none of them climbs, and the result is its names. */
  predicate IsReading(url: string, r: string, us: seq<Unit>, segs: seq<string>, ks: seq<nat>) {
    && segs != [] && NoSlash(segs) && Spells(us, url, Join(segs))
    && ".." !in segs
    && AreNames(segs, ks) && r == Join(Pick(segs, ks))
  }

  lemma ReadingAccepted(url: string, r: string, us: seq<Unit>, segs: seq<string>, ks: seq<nat>)
    requires IsReading(url, r, us, segs, ks)
    ensures Sanitized(url) == Some(r)
  {
    hide Unescape, Split, Join, Kept, Spelling, Meaning, AreNames;
    UnescapeMeaning(url, Join(segs));
    SplitJoin(segs);
    NamesAreKept(segs, ks);
  }

  lemma ReadingFound(url: string) returns (us: seq<Unit>, segs: seq<string>, ks: seq<nat>)
    requires Sanitized(url).Some?
    ensures IsReading(url, Sanitized(url).value, us, segs, ks)
  {
    hide Unescape, Split, Join, Kept, Spells, AreNames;
    var d := Unescape(url).value;
    us := UnescapedUnits(url);
    segs := Split(d);
    JoinSplit(d);
    SplitNoSlash(d);
    ks := KeptAreNames(segs);
  }

  /** A URL path is accepted as `r` exactly when it spells segments of which none is "..", and `r` is those that are
      neither empty nor ".", in order and joined with slashes. */
  lemma SanitizedMeaning(url: string, r: string)
    ensures Sanitized(url) == Some(r) <==> exists us, segs, ks :: IsReading(url, r, us, segs, ks)
  {
    hide Sanitized, IsReading;
    if Sanitized(url) == Some(r) {
      var us, segs, ks := ReadingFound(url);
    }
    forall us, segs, ks | IsReading(url, r, us, segs, ks)
      ensures Sanitized(url) == Some(r)
    {
      ReadingAccepted(url, r, us, segs, ks);
    }
  }

  // ---------- round trip ----------

  predicate Bytes(s: string) { forall i :: 0 <= i < |s| ==> (s[i] as int) < 256 }

  /** Every byte of a segment written as an escape. */
  function Escape(seg: string): string
    requires Bytes(seg)
  {
    if seg == [] then ""
    else
      var v := seg[0] as int;
      ['%', DigitChar(v / 16), DigitChar(v % 16)] + Escape(seg[1..])
  }

  lemma {:induction false} UnescapeEscape(seg: string, rest: string)
    requires Bytes(seg) && Clean(seg)
    ensures Unescape(Escape(seg) + rest) == Prepend(seg, Unescape(rest))
    decreases |seg|
  {
    if seg == [] {
      assert Escape(seg) + rest == rest;
      assert Unescape(rest).Some? ==> "" + Unescape(rest).value == Unescape(rest).value;
    } else {
      var v := seg[0] as int;
      var h, l := DigitChar(v / 16), DigitChar(v % 16);
      var tail := Escape(seg[1..]) + rest;
      UnescapeEscape(seg[1..], rest);
      assert Escape(seg) + rest == ['%', h, l] + tail;
      assert (['%', h, l] + tail)[3..] == tail;
      assert CodedChar(h, l) == seg[0];
      PrependTwice([seg[0]], seg[1..], Unescape(rest));
      assert [seg[0]] + seg[1..] == seg;
    }
  }

  function EscapeAll(segs: seq<string>): seq<string>
    requires forall i :: 0 <= i < |segs| ==> Bytes(segs[i])
  {
    if segs == [] then [] else EscapeAll(segs[..|segs| - 1]) + [Escape(segs[|segs| - 1])]
  }

  predicate Encodable(segs: seq<string>) { forall i :: 0 <= i < |segs| ==> Bytes(segs[i]) && Clean(segs[i]) }

  lemma {:induction false} EscapeAllCount(segs: seq<string>)
    requires Encodable(segs)
    ensures |EscapeAll(segs)| == |segs|
  {
    if segs != [] {
      EscapeAllCount(segs[..|segs| - 1]);
    }
  }

  lemma {:induction false} UnescapeJoin(segs: seq<string>, rest: string)
    requires Encodable(segs)
    ensures Unescape(Join(EscapeAll(segs)) + rest) == Prepend(Join(segs), Unescape(rest))
    decreases |segs|
  {
    hide Unescape, Escape, Bytes, Clean;
    if segs == [] {
      assert Join(EscapeAll(segs)) + rest == rest;
      assert Unescape(rest).Some? ==> "" + Unescape(rest).value == Unescape(rest).value;
    } else {
      var k := |segs| - 1;
      var last := segs[k];
      EscapeAllCount(segs[..k]);
      UnescapeEscape(last, rest);
      JoinAppend(EscapeAll(segs[..k]), Escape(last));
      assert segs[..k] + [last] == segs;
      JoinAppend(segs[..k], last);
      if k > 0 {
        var more := "/" + (Escape(last) + rest);
        UnescapeJoin(segs[..k], more);
        UnescapeSlash(Escape(last) + rest);
        JoinRegroup(Join(EscapeAll(segs[..k])), Escape(last), rest);
        PrependTwice("/", last, Unescape(rest));
        PrependTwice(Join(segs[..k]), "/" + last, Unescape(rest));
        Assoc(Join(segs[..k]), "/", last);
      }
    }
  }

  lemma JoinRegroup(a: string, b: string, c: string)
    ensures a + "/" + b + c == a + ("/" + (b + c))
  {
  }

  lemma UnescapeSlash(rest: string)
    ensures Unescape("/" + rest) == Prepend("/", Unescape(rest))
  {
    assert ("/" + rest)[1..] == rest;
  }

  lemma {:induction false} KeptAll(segs: seq<string>)
    requires forall i :: 0 <= i < |segs| ==> Counts(segs[i])
    ensures Kept(segs) == segs
  {
    if segs != [] {
      var k := |segs| - 1;
      KeptAll(segs[..k]);
      assert segs[..k] + [segs[k]] == segs;
    }
  }

  /** Round trip: escaping every byte of a list of proper names and sanitising the result gives the list
      joined. */
  lemma EncodedPathRoundTrip(segs: seq<string>)
    requires AllProper(segs) && forall i :: 0 <= i < |segs| ==> Bytes(segs[i])
    ensures Sanitized(Join(EscapeAll(segs))) == Some(Join(segs))
  {
    hide Unescape, Split, Kept, Join, Climbs, Proper, EscapeAll, Bytes, Clean;
    ProperNoSlash(segs);
    var url := Join(EscapeAll(segs));
    UnescapeJoin(segs, "");
    assert url + "" == url;
    UnescapeNothing();
    assert Join(segs) + "" == Join(segs);
    if segs == [] {
      NoSegments();
    } else {
      SplitJoin(segs);
      KeptAll(segs);
    }
  }

  lemma UnescapeNothing()
    ensures Unescape("") == Some("")
  {
  }

  lemma NoSegments()
    ensures Join([]) == "" && Kept([]) == [] && !Climbs([])
    ensures Split("") == [""] && Kept([""]) == [] && !Climbs([""])
  {
    assert [""][..0] == [];
  }
}
