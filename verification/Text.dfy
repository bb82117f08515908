/** Byte strings and the searches and trims that the parser and the serialiser share.
    A byte is modelled as a `char`; nothing below depends on a char being less than 256. */
module Text {

  datatype Option<+T> = None | Some(value: T)

  function Min(a: nat, b: nat): nat { if a < b then a else b }

  lemma Assoc<T>(a: seq<T>, b: seq<T>, c: seq<T>)
    ensures a + b + c == a + (b + c)
  {
  }

  const CRLF: string := "\r\n"

  predicate CrlfAt(s: string, i: int) {
    0 <= i && i + 1 < |s| && s[i] == '\r' && s[i + 1] == '\n'
  }

  /** Index of the first CRLF, or -1. */
  function FindCrlf(s: string): (r: int)
    ensures -1 <= r
    ensures r >= 0 ==> CrlfAt(s, r)
    ensures forall j {:trigger CrlfAt(s, j)} :: CrlfAt(s, j) ==> 0 <= r <= j
  {
    if |s| < 2 then -1
    else if s[0] == '\r' && s[1] == '\n' then 0
    else
      var k := FindCrlf(s[1..]);
      assert forall j :: CrlfAt(s, j) ==> CrlfAt(s[1..], j - 1);
      if k < 0 then -1 else k + 1
  }

  /** A CRLF already seen stays the first one, whatever arrives later. */
  lemma FindCrlfStable(a: string, b: string)
    ensures FindCrlf(a) >= 0 ==> FindCrlf(a + b) == FindCrlf(a)
    ensures FindCrlf(a) < 0 && FindCrlf(a + b) >= 0 ==> FindCrlf(a + b) >= |a| - 1
  {
    var s := a + b;
    assert FindCrlf(a) >= 0 ==> CrlfAt(s, FindCrlf(a));
    assert 0 <= FindCrlf(s) < |a| - 1 ==> CrlfAt(a, FindCrlf(s));
  }

  /** A line without CRLF is found whole, even when it ends in a bare CR. */
  lemma FindCrlfAfterLine(line: string, rest: string)
    requires FindCrlf(line) < 0
    ensures FindCrlf(line + CRLF + rest) == |line|
  {
    var s := line + CRLF + rest;
    assert CrlfAt(s, |line|);
    var r := FindCrlf(s);
    assert r < |line| - 1 ==> CrlfAt(line, r);
    assert s[|line|] == '\r';
  }

  lemma FindCrlfEmpty()
    ensures FindCrlf("") < 0
  {
  }

  lemma FindCrlfPrefix(s: string)
    requires FindCrlf(s) >= 0
    ensures FindCrlf(s[..FindCrlf(s)]) < 0
    ensures s == s[..FindCrlf(s)] + CRLF + s[FindCrlf(s) + 2..]
  {
    var line := s[..FindCrlf(s)];
    assert FindCrlf(line) >= 0 ==> CrlfAt(s, FindCrlf(line));
  }

  /** Index of the first `c`, or -1. */
  function FindChar(s: string, c: char): (r: int)
    ensures -1 <= r < |s|
    ensures r >= 0 ==> s[r] == c && c !in s[..r]
    ensures r < 0 <==> c !in s
  {
    if s == [] then -1
    else if s[0] == c then 0
    else
      var k := FindChar(s[1..], c);
      assert s == [s[0]] + s[1..];
      if k < 0 then -1 else
      assert s[..k + 1] == [s[0]] + s[1..][..k];
      k + 1
  }

  lemma {:induction false} FindCharAt(a: string, c: char, b: string)
    requires c !in a
    ensures FindChar(a + [c] + b, c) == |a|
  {
    if a == [] {
      assert a + [c] + b == [c] + b;
    } else {
      assert (a + [c] + b)[1..] == a[1..] + [c] + b;
      FindCharAt(a[1..], c, b);
    }
  }

  predicate IsOws(c: char) { c == ' ' || c == '\t' }

  function TrimLeft(s: string): string {
    if s != [] && IsOws(s[0]) then TrimLeft(s[1..]) else s
  }

  function TrimRight(s: string): string {
    if s != [] && IsOws(s[|s| - 1]) then TrimRight(s[..|s| - 1]) else s
  }

  function Trim(s: string): string { TrimRight(TrimLeft(s)) }

  /** Neither end is SP or HTAB. */
  predicate Trimmed(s: string) {
    s == [] || (s[0] != ' ' && s[0] != '\t' && s[|s| - 1] != ' ' && s[|s| - 1] != '\t')
  }

  /** *( SP / HTAB ) */
  predicate AllOws(s: string) { forall i :: 0 <= i < |s| ==> s[i] == ' ' || s[i] == '\t' }

  /** Strips SP and HTAB from both ends by moving two cursors over a view. */
  method TrimOws(s: string) returns (r: string)
    ensures r == Trim(s)
  {
    r := s;
    while r != [] && IsOws(r[0])
      invariant TrimLeft(r) == TrimLeft(s)
      decreases |r|
    {
      r := r[1..];
    }
    while r != [] && IsOws(r[|r| - 1])
      invariant TrimRight(r) == Trim(s)
      decreases |r|
    {
      r := r[..|r| - 1];
    }
  }

  /** Trimming removes exactly the surrounding whitespace. */
  lemma {:induction false} TrimUndoesPadding(l: string, v: string, r: string)
    requires AllOws(l) && AllOws(r) && Trimmed(v)
    ensures Trim(l + v + r) == v
  {
    TrimLeftSkips(l, v + r);
    assert l + v + r == l + (v + r);
    if v == [] {
      assert v + r == r;
      TrimLeftSkips(r, []);
      assert r + [] == r;
    } else {
      assert TrimLeft(v + r) == v + r;
      TrimRightSkips(v, r);
    }
  }

  lemma {:induction false} TrimLeftSkips(l: string, s: string)
    requires AllOws(l)
    ensures TrimLeft(l + s) == TrimLeft(s)
  {
    if l == [] {
      assert l + s == s;
    } else {
      assert (l + s)[1..] == l[1..] + s;
      TrimLeftSkips(l[1..], s);
    }
  }

  lemma {:induction false} TrimRightSkips(s: string, r: string)
    requires AllOws(r)
    ensures TrimRight(s + r) == TrimRight(s)
  {
    if r == [] {
      assert s + r == s;
    } else {
      assert (s + r)[..|s + r| - 1] == s + r[..|r| - 1];
      TrimRightSkips(s, r[..|r| - 1]);
    }
  }

  /** The trimmed value is what lies between two runs of whitespace. */
  lemma {:induction false} TrimShape(s: string) returns (l: string, r: string)
    ensures s == l + Trim(s) + r && AllOws(l) && AllOws(r) && Trimmed(Trim(s))
  {
    l := TrimLeftShape(s);
    var t := TrimLeft(s);
    r := TrimRightShape(t);
    assert s == l + (Trim(s) + r);
    if Trim(s) != [] {
      assert t[0] == Trim(s)[0];
    }
  }

  lemma {:induction false} TrimLeftShape(s: string) returns (l: string)
    ensures s == l + TrimLeft(s) && AllOws(l)
    ensures TrimLeft(s) != [] ==> !IsOws(TrimLeft(s)[0])
  {
    if s != [] && IsOws(s[0]) {
      var k := TrimLeftShape(s[1..]);
      l := [s[0]] + k;
      assert s == [s[0]] + s[1..];
    } else {
      l := [];
    }
  }

  lemma {:induction false} TrimRightShape(s: string) returns (r: string)
    ensures s == TrimRight(s) + r && AllOws(r)
    ensures TrimRight(s) != [] ==> !IsOws(TrimRight(s)[|TrimRight(s)| - 1])
  {
    if s != [] && IsOws(s[|s| - 1]) {
      var k := TrimRightShape(s[..|s| - 1]);
      r := k + [s[|s| - 1]];
      assert s == s[..|s| - 1] + [s[|s| - 1]];
    } else {
      r := [];
    }
  }

  function Concat(ss: seq<string>): string {
    if ss == [] then [] else Concat(ss[..|ss| - 1]) + ss[|ss| - 1]
  }

  // ---------- sublists ----------

  /** Increasing positions in a list of `n`. */
  predicate ArePositions(ks: seq<nat>, n: nat) {
    && (forall a, b :: 0 <= a < b < |ks| ==> ks[a] < ks[b])
    && forall a :: 0 <= a < |ks| ==> ks[a] < n
  }

  /** The elements at these positions. */
  function Pick<T>(s: seq<T>, ks: seq<nat>): (r: seq<T>)
    requires ArePositions(ks, |s|)
    ensures |r| == |ks| && forall a :: 0 <= a < |ks| ==> r[a] == s[ks[a]]
  {
    seq(|ks|, a requires 0 <= a < |ks| => s[ks[a]])
  }

  lemma NoPositions(ks: seq<nat>)
    ensures ArePositions(ks, 0) <==> ks == []
  {
    if ks != [] {
      assert ks[0] >= 0;
    }
  }

  lemma PickStep<T>(s: seq<T>, ks: seq<nat>, x: T)
    requires ArePositions(ks, |s|)
    ensures |s| !in ks
    ensures ArePositions(ks, |s + [x]|) && Pick(s + [x], ks) == Pick(s, ks)
    ensures ArePositions(ks + [|s|], |s + [x]|) && Pick(s + [x], ks + [|s|]) == Pick(s, ks) + [x]
  {
  }

  /** Positions are determined by the set of them. */
  lemma LastPosition(ks: seq<nat>, n: nat)
    requires ArePositions(ks, n + 1)
    ensures n !in ks ==> ArePositions(ks, n)
    ensures n in ks ==>
              && ArePositions(ks[..|ks| - 1], n) && ks == ks[..|ks| - 1] + [n]
              && forall i :: i < n ==> (i in ks[..|ks| - 1] <==> i in ks)
  {
    if n in ks {
      var k := |ks| - 1;
      forall a | 0 <= a < |ks|
        ensures ks[a] <= ks[k]
      {
      }
      assert ks == ks[..k] + [n];
    }
  }
}
