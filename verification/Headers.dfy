/** The insertion-ordered, case-insensitive header list. */
module Headers {
  import opened Text
  import opened Numbers

  datatype Field = Field(name: string, value: string)
  type Fields = seq<Field>

  function Lower(c: char): char {
    if 'A' <= c <= 'Z' then (c as int + 32) as char else c
  }

  predicate IEquals(a: string, b: string) {
    |a| == |b| && forall i :: 0 <= i < |a| ==> Lower(a[i]) == Lower(b[i])
  }

  /** Equal, or the two cases of one ASCII letter. */
  predicate SameLetter(a: char, b: char) {
    || a == b
    || ('A' <= a <= 'Z' && b as int == a as int - 'A' as int + 'a' as int)
    || ('A' <= b <= 'Z' && a as int == b as int - 'A' as int + 'a' as int)
  }

  predicate SameLetters(a: string, b: string) {
    |a| == |b| && forall i :: 0 <= i < |a| ==> SameLetter(a[i], b[i])
  }

  /** Names are compared letter by letter without regard to ASCII case, and to nothing else. */
  lemma IEqualsMeaning(a: string, b: string)
    ensures IEquals(a, b) <==> SameLetters(a, b)
  {
    if |a| == |b| {
      assert forall i :: 0 <= i < |a| ==> (Lower(a[i]) == Lower(b[i]) <==> SameLetter(a[i], b[i]));
    }
  }

  predicate IsTchar(c: char) {
    || '0' <= c <= '9'
    || 'a' <= c <= 'z'
    || 'A' <= c <= 'Z'
    || c in "!#$%&'*+-.^_`|~"
  }

  predicate IsToken(s: string) {
    s != [] && forall i :: 0 <= i < |s| ==> IsTchar(s[i])
  }

  /** Position of the first field with this name, or -1. */
  function Find(h: Fields, name: string): (r: int)
    ensures -1 <= r < |h|
    ensures r >= 0 ==> IEquals(h[r].name, name)
    ensures forall j :: 0 <= j < |h| && IEquals(h[j].name, name) ==> 0 <= r <= j
  {
    if h == [] then -1
    else if IEquals(h[0].name, name) then 0
    else
      var k := Find(h[1..], name);
      assert forall j :: 0 <= j < |h[1..]| ==> h[1..][j] == h[j + 1];
      assert forall j :: 0 < j < |h| && IEquals(h[j].name, name) ==> IEquals(h[1..][j - 1].name, name);
      if k < 0 then -1 else k + 1
  }

  /** A lookup does not depend on the case in which the name is asked for. */
  lemma FindIgnoresCase(h: Fields, name: string, other: string)
    requires SameLetters(name, other)
    ensures Find(h, name) == Find(h, other)
  {
    hide Find, SameLetters;
    IEqualsMeaning(name, other);
    SameMatches(h, name, other);
  }

  lemma SameMatches(h: Fields, name: string, other: string)
    requires IEquals(name, other)
    ensures forall j :: 0 <= j < |h| ==> (IEquals(h[j].name, name) <==> IEquals(h[j].name, other))
  {
  }

  predicate Has(h: Fields, name: string) { Find(h, name) >= 0 }

  function Get(h: Fields, name: string): Option<string> {
    var i := Find(h, name);
    if i < 0 then None else Some(h[i].value)
  }

  function Set(h: Fields, name: string, value: string): Fields {
    var i := Find(h, name);
    if i < 0 then h + [Field(name, value)] else h[i := Field(h[i].name, value)]
  }

  function Add(h: Fields, name: string, value: string): Fields {
    var i := Find(h, name);
    if i < 0 then h + [Field(name, value)] else h[i := Field(h[i].name, h[i].value + ", " + value)]
  }

  function Remove(h: Fields, name: string): Fields {
    var i := Find(h, name);
    if i < 0 then h else h[..i] + h[i + 1..]
  }

  /** No two fields have names that differ only in case. */
  predicate DistinctNames(h: Fields) {
    forall i, j :: 0 <= i < j < |h| ==> !IEquals(h[i].name, h[j].name)
  }

  // ---------- comma-separated lists ----------

  /** The members of a comma-separated list, each trimmed. */
  function Members(v: string): (r: seq<string>)
    ensures |r| > 0
    decreases |v|
  {
    var c := FindChar(v, ',');
    if c < 0 then [Trim(v)] else [Trim(v[..c])] + Members(v[c + 1..])
  }

  predicate HasToken(h: Fields, name: string, token: string) {
    var v := Get(h, name);
    v.Some? && exists i :: 0 <= i < |Members(v.value)| && IEquals(Members(v.value)[i], token)
  }

  /** Content-Length: every member is 1*19DIGIT with one and the same value. */
  predicate AgreedLength(v: string, n: nat) { AllDecimal(Members(v), n) }

  predicate AllDecimal(ms: seq<string>, n: nat) {
    forall i :: 0 <= i < |ms| ==> Decimal(ms[i]) == Some(n)
  }

  /** Reads members left to right, each against the one before. */
  function Agree(ms: seq<string>, before: Option<nat>): Option<nat> {
    if ms == [] then before
    else
      var n := Decimal(ms[0]);
      if n.None? || (before.Some? && n != before) then None else Agree(ms[1..], n)
  }

  function ContentLength(v: string): Option<nat> { Agree(Members(v), None) }

  lemma {:induction false} AgreeMeaning(ms: seq<string>, before: Option<nat>, n: nat)
    requires ms != [] || before.Some?
    ensures Agree(ms, before) == Some(n) <==> AllDecimal(ms, n) && (before.Some? ==> before == Some(n))
  {
    if ms != [] {
      var d := Decimal(ms[0]);
      assert AllDecimal(ms, n) <==> d == Some(n) && AllDecimal(ms[1..], n) by {
        assert forall i :: 0 <= i < |ms[1..]| ==> ms[1..][i] == ms[i + 1];
        assert forall i :: 0 < i < |ms| ==> ms[i] == ms[1..][i - 1];
      }
      if d.Some? && (before.None? || d == before) {
        AgreeMeaning(ms[1..], d, n);
      }
    }
  }

  /** A Content-Length value is accepted as `n` exactly when all its members say `n`. */
  lemma ContentLengthMeaning(v: string, n: nat)
    ensures ContentLength(v) == Some(n) <==> AgreedLength(v, n)
  {
    AgreeMeaning(Members(v), None, n);
  }

  /** What stands before the first comma, trimmed, is the first member; without a comma it is the only one. */
  lemma MembersSplit(p: string, q: string)
    requires ',' !in p
    ensures Members(p) == [Trim(p)]
    ensures Members(p + [','] + q) == [Trim(p)] + Members(q)
  {
    var s := p + [','] + q;
    FindCharAt(p, ',', q);
    assert s[..|p|] == p && s[|p| + 1..] == q;
  }

  /** A list in two parts joined by a comma has the members of both. */
  lemma {:induction false} MembersJoin(a: string, b: string)
    ensures Members(a + [','] + b) == Members(a) + Members(b)
    decreases |a|
  {
    var c := FindChar(a, ',');
    if c < 0 {
      MembersSplit(a, b);
    } else {
      MembersJoin(a[c + 1..], b);
      Regroup(a, c, b);
      MembersJoinStep(a, a[..c], a[c + 1..], b, a[c + 1..] + [','] + b);
    }
  }

  lemma MembersJoinStep(a: string, a1: string, a2: string, b: string, t: string)
    requires a == a1 + [','] + a2 && ',' !in a1
    requires a + [','] + b == a1 + [','] + t
    requires Members(t) == Members(a2) + Members(b)
    ensures Members(a + [','] + b) == Members(a) + Members(b)
  {
    MembersSplit(a1, a2);
    MembersSplit(a1, t);
    Assoc([Trim(a1)], Members(a2), Members(b));
  }

  lemma Regroup(a: string, c: nat, b: string)
    requires c < |a| && a[c] == ','
    ensures a == a[..c] + [','] + a[c + 1..]
    ensures a + [','] + b == a[..c] + [','] + (a[c + 1..] + [','] + b)
  {
  }

  /** Members are trimmed, so leading whitespace of a list is immaterial. */
  lemma MembersPad(v: string)
    ensures Members(" " + v) == Members(v)
  {
    var c := FindChar(v, ',');
    if c < 0 {
      TrimLeftSkips(" ", v);
    } else {
      var p, q := v[..c], v[c + 1..];
      assert v == p + [','] + q;
      Assoc(" ", p + [','], q);
      Assoc(" ", p, [',']);
      TrimLeftSkips(" ", p);
      MembersSplit(p, q);
      MembersSplit(" " + p, q);
    }
  }

  /** Folding one more field line into a list value adds exactly that line's members. */
  lemma MembersFold(a: string, b: string)
    ensures Members(a + ", " + b) == Members(a) + Members(b)
  {
    assert a + ", " + b == a + [','] + (" " + b);
    MembersJoin(a, " " + b);
    MembersPad(b);
  }

  /** The loop of `parse_content_length`, which moves a view past each comma. */
  method ParseContentLength(value: string) returns (r: Option<nat>)
    ensures r == ContentLength(value)
  {
    var rest := value;
    r := None;
    while true
      invariant Agree(Members(rest), r) == ContentLength(value)
      decreases |rest|
    {
      var comma := FindChar(rest, ',');
      var piece := TrimOws(if comma < 0 then rest else rest[..comma]);
      var n := ParseDecimal(piece);
      assert Members(rest)[0] == piece;
      if n.None? || (r.Some? && n != r) { return None; }
      r := n;
      if comma < 0 {
        assert Members(rest)[1..] == [];
        return;
      }
      assert Members(rest)[1..] == Members(rest[comma + 1..]);
      rest := rest[comma + 1..];
    }
  }

  // ---------- folding repeated names ----------

  function AddAll(h: Fields, lines: Fields): Fields
    decreases |lines|
  {
    if lines == [] then h else AddAll(Add(h, lines[0].name, lines[0].value), lines[1..])
  }

  function FoldOnto(before: Option<string>, value: string): Option<string> {
    if before.None? then Some(value) else Some(before.value + ", " + value)
  }

  /** The values given for `name`, in order, joined with ", " behind what was there before. */
  function Folded(before: Option<string>, lines: Fields, name: string): Option<string>
    decreases |lines|
  {
    if lines == [] then before
    else Folded(if IEquals(lines[0].name, name) then FoldOnto(before, lines[0].value) else before, lines[1..], name)
  }

  lemma AddKeepsDistinct(h: Fields, name: string, value: string)
    requires DistinctNames(h)
    ensures DistinctNames(Add(h, name, value))
    ensures DistinctNames(Set(h, name, value))
  {
    var i := Find(h, name);
    if i < 0 {
      AppendKeepsDistinct(h, Field(name, value));
    } else {
      RenameKeepsDistinct(h, h[i := Field(h[i].name, value)]);
      RenameKeepsDistinct(h, h[i := Field(h[i].name, h[i].value + ", " + value)]);
    }
  }

  lemma AppendKeepsDistinct(h: Fields, f: Field)
    requires DistinctNames(h) && !Has(h, f.name)
    ensures DistinctNames(h + [f])
  {
    forall i, j | 0 <= i < j < |h + [f]|
      ensures !IEquals((h + [f])[i].name, (h + [f])[j].name)
    {
      if j < |h| {
        assert !IEquals(h[i].name, h[j].name);
      } else {
        assert !IEquals(h[i].name, f.name);
      }
    }
  }

  lemma RenameKeepsDistinct(h: Fields, g: Fields)
    requires DistinctNames(h) && |g| == |h|
    requires forall i :: 0 <= i < |h| ==> g[i].name == h[i].name
    ensures DistinctNames(g)
  {
  }

  lemma RemoveKeepsDistinct(h: Fields, name: string)
    requires DistinctNames(h)
    ensures DistinctNames(Remove(h, name)) && !Has(Remove(h, name), name)
  {
    var i := Find(h, name);
    var g := Remove(h, name);
    if i >= 0 {
      assert forall j :: 0 <= j < |g| ==> g[j] == (if j < i then h[j] else h[j + 1]);
      forall j | 0 <= j < |g|
        ensures !IEquals(g[j].name, name)
      {
        assert j >= i ==> !IEquals(h[i].name, h[j + 1].name);
        assert j < i ==> !IEquals(h[j].name, name);
      }
    }
  }

  lemma AddGet(h: Fields, name: string, value: string, key: string)
    ensures Get(Add(h, name, value), key) ==
            if IEquals(name, key) then FoldOnto(Get(h, key), value) else Get(h, key)
  {
    var i, k := Find(h, name), Find(h, key);
    var h' := Add(h, name, value);
    var k' := Find(h', key);
    assert forall j :: 0 <= j < |h| ==> h'[j].name == h[j].name;
    if i < 0 {
      assert h'[|h|].name == name;
    }
    if k >= 0 {
      assert IEquals(h'[k].name, key);
    }
    if IEquals(name, key) {
      assert forall j :: 0 <= j < |h| ==> (IEquals(h[j].name, name) <==> IEquals(h[j].name, key));
      assert i == k;
    }
  }

  lemma SetGet(h: Fields, name: string, value: string, key: string)
    ensures Get(Set(h, name, value), key) == if IEquals(name, key) then Some(value) else Get(h, key)
  {
    var i, k := Find(h, name), Find(h, key);
    var h' := Set(h, name, value);
    assert forall j :: 0 <= j < |h| ==> h'[j].name == h[j].name;
    if i < 0 {
      assert h'[|h|].name == name;
    }
    if k >= 0 {
      assert IEquals(h'[k].name, key);
    }
    if IEquals(name, key) {
      SameMatches(h, name, key);
      assert i == k;
    }
  }

  lemma RemoveGet(h: Fields, name: string, key: string)
    requires DistinctNames(h)
    ensures Get(Remove(h, name), key) == if IEquals(name, key) then None else Get(h, key)
  {
    var i, k := Find(h, name), Find(h, key);
    var h' := Remove(h, name);
    RemoveKeepsDistinct(h, name);
    if IEquals(name, key) {
      SameMatches(h', name, key);
    } else if i >= 0 {
      assert forall j :: 0 <= j < |h'| ==> h'[j] == h[if j < i then j else j + 1];
      if k >= 0 {
        assert IEquals(h'[if k < i then k else k - 1].name, key);
      }
    }
  }

  /** A lookup in a list built by `add` gives every value sent under that name, in arrival order. */
  lemma {:induction false} AddAllGet(h: Fields, lines: Fields, key: string)
    ensures Get(AddAll(h, lines), key) == Folded(Get(h, key), lines, key)
    ensures DistinctNames(h) ==> DistinctNames(AddAll(h, lines))
    decreases |lines|
  {
    hide IEquals, Get, Add;
    if lines != [] {
      AddGet(h, lines[0].name, lines[0].value, key);
      if DistinctNames(h) {
        AddKeepsDistinct(h, lines[0].name, lines[0].value);
      }
      AddAllGet(Add(h, lines[0].name, lines[0].value), lines[1..], key);
    }
  }

  /** A name that was sent is found, and only then. */
  lemma {:induction false} FoldedPresent(before: Option<string>, lines: Fields, key: string)
    ensures Folded(before, lines, key).Some? <==>
              before.Some? || exists i :: 0 <= i < |lines| && IEquals(lines[i].name, key)
    decreases |lines|
  {
    hide IEquals;
    if lines != [] {
      var f, rest := lines[0], lines[1..];
      FoldedPresent(if IEquals(f.name, key) then FoldOnto(before, f.value) else before, rest, key);
      assert forall i :: 0 <= i < |rest| ==> rest[i] == lines[i + 1];
      assert forall i :: 0 < i < |lines| ==> lines[i] == rest[i - 1];
    }
  }

  predicate EveryLengthIs(lines: Fields, n: nat) {
    forall i :: 0 <= i < |lines| && IEquals(lines[i].name, "Content-Length") ==> AgreedLength(lines[i].value, n)
  }

  /** The folded Content-Length is accepted as `n` exactly when every single Content-Length line says `n`. */
  lemma {:induction false} EveryLengthLineAgrees(before: Option<string>, lines: Fields, n: nat)
    requires Folded(before, lines, "Content-Length").Some?
    ensures ContentLength(Folded(before, lines, "Content-Length").value) == Some(n) <==>
              (before.Some? ==> AgreedLength(before.value, n)) && EveryLengthIs(lines, n)
    decreases |lines|
  {
    hide ContentLength, IEquals, AgreedLength;
    if lines == [] {
      ContentLengthMeaning(before.value, n);
    } else {
      var f, rest := lines[0], lines[1..];
      assert forall i :: 0 <= i < |rest| ==> rest[i] == lines[i + 1];
      assert forall i :: 0 < i < |lines| ==> lines[i] == rest[i - 1];
      EveryLengthLineAgrees(if IEquals(f.name, "Content-Length") then FoldOnto(before, f.value) else before, rest, n);
      if before.Some? {
        LengthSplits(before.value, f.value, n);
      }
    }
  }

  lemma LengthSplits(a: string, b: string, n: nat)
    ensures AgreedLength(a + ", " + b, n) <==> AgreedLength(a, n) && AgreedLength(b, n)
  {
    hide Members, Decimal;
    MembersFold(a, b);
    var ms, ma, mb := Members(a + ", " + b), Members(a), Members(b);
    assert forall j :: 0 <= j < |ma| ==> ma[j] == ms[j];
    assert forall j :: 0 <= j < |mb| ==> mb[j] == ms[|ma| + j];
    assert forall j :: |ma| <= j < |ms| ==> ms[j] == mb[j - |ma|];
  }

  /** The mutable list itself. */
  class HeaderList {
    var fields: Fields

    constructor ()
      ensures fields == []
    {
      fields := [];
    }

    method Lookup(name: string) returns (i: int)
      ensures i == Find(fields, name)
    {
      i := 0;
      while i < |fields|
        invariant 0 <= i <= |fields|
        invariant forall j :: 0 <= j < i ==> !IEquals(fields[j].name, name)
      {
        if IEquals(fields[i].name, name) { return; }
        i := i + 1;
      }
      i := -1;
    }

    method SetField(name: string, value: string)
      requires DistinctNames(fields)
      modifies this
      ensures fields == Set(old(fields), name, value) && DistinctNames(fields)
    {
      AddKeepsDistinct(fields, name, value);
      var i := Lookup(name);
      if i >= 0 {
        fields := fields[i := Field(fields[i].name, value)];
      } else {
        fields := fields + [Field(name, value)];
      }
    }

    method AddField(name: string, value: string)
      requires DistinctNames(fields)
      modifies this
      ensures fields == Add(old(fields), name, value) && DistinctNames(fields)
    {
      AddKeepsDistinct(fields, name, value);
      var i := Lookup(name);
      if i >= 0 {
        fields := fields[i := Field(fields[i].name, fields[i].value + ", " + value)];
      } else {
        fields := fields + [Field(name, value)];
      }
    }

    method RemoveField(name: string) returns (found: bool)
      requires DistinctNames(fields)
      modifies this
      ensures found == Has(old(fields), name)
      ensures fields == Remove(old(fields), name) && DistinctNames(fields) && !Has(fields, name)
    {
      RemoveKeepsDistinct(fields, name);
      var i := Lookup(name);
      found := i >= 0;
      if found {
        fields := fields[..i] + fields[i + 1..];
      }
    }
  }

  /** The loop of `has_token` over the comma-separated value. */
  method ScanToken(h: Fields, name: string, token: string) returns (r: bool)
    ensures r == HasToken(h, name, token)
  {
    var value := Get(h, name);
    if value.None? { return false; }
    ghost var all := Members(value.value);
    ghost var k := 0;
    var rest := value.value;
    while true
      invariant 0 <= k < |all| && all[k..] == Members(rest)
      invariant forall i :: 0 <= i < k ==> !IEquals(all[i], token)
      decreases |rest|
    {
      var comma := FindChar(rest, ',');
      var piece := TrimOws(if comma < 0 then rest else rest[..comma]);
      assert piece == all[k..][0] == all[k];
      if IEquals(piece, token) { return true; }
      if comma < 0 {
        assert k + 1 == |all|;
        return false;
      }
      rest := rest[comma + 1..];
      assert all[k + 1..] == all[k..][1..];
      k := k + 1;
    }
  }
}
