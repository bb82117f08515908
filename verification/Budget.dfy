/** What a request costs of the parser's five limits: the counters it keeps against what it has kept. */
module Budget {
  import opened Text
  import opened Headers
  import opened RequestParser
  import opened Driver
  import opened Reachable
  import opened LineGrammar

  /** The bytes of the shortest lines that give these fields. */
  function Weight(h: Fields): nat {
    if h == [] then 0 else Weight(h[..|h| - 1]) + FieldCost(h[|h| - 1])
  }

  function FieldCost(f: Field): nat { |f.name| + 1 + |f.value| + 2 }

  lemma EmptyWeight()
    ensures Weight([]) == 0
  {
  }

  lemma {:induction false} WeightUpdate(h: Fields, i: nat, f: Field)
    requires i < |h|
    ensures Weight(h[i := f]) == Weight(h) - FieldCost(h[i]) + FieldCost(f)
    decreases |h|
  {
    hide FieldCost;
    var k := |h| - 1;
    if i == k {
      assert h[i := f][..k] == h[..k];
    } else {
      assert h[i := f][..k] == h[..k][i := f];
      WeightUpdate(h[..k], i, f);
    }
  }

  lemma {:induction false} WeightAtLeast(h: Fields, i: nat)
    requires i < |h|
    ensures Weight(h) >= FieldCost(h[i])
    decreases |h|
  {
    hide FieldCost;
    if i < |h| - 1 {
      WeightAtLeast(h[..|h| - 1], i);
    }
  }

  lemma {:induction false} WeightAtLeastTwo(h: Fields, i: nat, j: nat)
    requires i < j < |h|
    ensures Weight(h) >= FieldCost(h[i]) + FieldCost(h[j])
    decreases |h|
  {
    hide FieldCost;
    var k := |h| - 1;
    if j < k {
      WeightAtLeastTwo(h[..k], i, j);
    } else {
      WeightAtLeast(h[..k], i);
    }
  }

  /** Folding a line into a list never makes the list dearer than the line. */
  lemma WeightAdd(h: Fields, f: Field)
    ensures Weight(Add(h, f.name, f.value)) <= Weight(h) + FieldCost(f)
    ensures |Add(h, f.name, f.value)| <= |h| + 1
  {
    hide IEquals;
    var i := Find(h, f.name);
    if i < 0 {
      assert (h + [f])[..|h|] == h;
    } else {
      WeightUpdate(h, i, Field(h[i].name, h[i].value + ", " + f.value));
    }
  }

  lemma {:induction false} TrimShorter(s: string)
    ensures |Trim(s)| <= |s|
  {
    var l, r := TrimShape(s);
  }

  lemma FieldLineCost(line: string)
    requires ReadFieldLine(line).Ok?
    ensures FieldCost(ReadFieldLine(line).value) <= |line| + 2
  {
    hide Trim, IsToken, IsFieldValue;
    TrimShorter(line[FindChar(line, ':') + 1..]);
  }

  lemma RequestLineCost(line: string)
    requires ReadRequestLine(line).Ok?
    ensures var h := ReadRequestLine(line).value;
            |line| == |h.verb| + |h.target| + 10 && h.verb != [] && h.target != [] && h.minor <= 1
  {
    hide ReadRequestLine, HasForm;
    RequestLineMeaning(line, ReadRequestLine(line).value);
    assert |VERSION_PREFIX| == 7;
  }

  /** The budget counters cover at least what the request line and the fields kept must have cost. */
  predicate HeadPaid(lim: Limits, m: Machine) {
    m.state.RequestLine? || m.state.Error? ||
    (&& |m.req.verb| + |m.req.target| + 10 <= lim.maxRequestLine
     && m.req.verb != [] && m.req.target != [] && m.req.versionMinor <= 1
     && m.headerBytes >= Weight(m.req.headers) + Weight(m.req.trailers) + (if m.state.HeaderLines? then 0 else 2)
     && m.headerCount >= |m.req.headers| + |m.req.trailers|)
  }

  lemma FieldLinePaid(lim: Limits, m: Machine, line: string)
    requires HeadPaid(lim, m) && InFields(m) && line != []
    ensures HeadPaid(lim, OnFieldLine(lim, m, line).m)
  {
    hide ReadFieldLine, Add, Weight, FieldCost, Has, IEquals;
    var f := ReadFieldLine(line);
    if f.Ok? {
      WeightAdd(if m.state.Trailers? then m.req.trailers else m.req.headers, f.value);
      FieldLineCost(line);
    }
  }

  lemma LinePaid(lim: Limits, m: Machine, line: string)
    requires HeadPaid(lim, m) && InLine(m) && !LineTooLong(lim, m, |line|)
    requires m.state.RequestLine? ==> m == START
    ensures HeadPaid(lim, OnLine(lim, m, line).m)
  {
    hide AddLine, ReadRequestLine, ReadChunkSize, DecideFraming, Weight;
    if InFields(m) {
      if line != [] {
        FieldLinePaid(lim, m, line);
      }
    } else if m.state.RequestLine? && line != [] && ReadRequestLine(line).Ok? {
      RequestLineCost(line);
      EmptyWeight();
    }
  }

  lemma StepPaid(lim: Limits, m: Machine, rest: string)
    requires HeadPaid(lim, m) && (m.state.RequestLine? ==> m == START)
    ensures HeadPaid(lim, Step(lim, m, rest).m)
  {
    hide OnLine, Weight;
    if InLine(m) {
      var eol := FindCrlf(rest);
      if eol >= 0 && !LineTooLong(lim, m, eol) {
        LinePaid(lim, m, rest[..eol]);
      }
    }
  }

  lemma {:induction false} FeedPaid(lim: Limits, m: Machine, data: string)
    requires HeadPaid(lim, m) && Inv(lim, m)
    ensures HeadPaid(lim, Feed(lim, m, data).m)
    decreases |data|, if InData(m) then 1 else 0
  {
    hide Step, HeadPaid, Budgets, FramingKept;
    FeedTurn(lim, m, data);
    StepUses(lim, m, data);
    StepKeepsInv(lim, m, data);
    StepPaid(lim, m, data);
    var t := Step(lim, m, data);
    if t.Continue? {
      FeedPaid(lim, t.m, data[t.used..]);
    }
  }

  /** What a delivered request may have cost: every limit, on the request itself. */
  predicate Afforded(lim: Limits, r: Request) {
    && |r.verb| + |r.target| + 10 <= lim.maxRequestLine
    && Weight(r.headers) + Weight(r.trailers) + 2 <= lim.maxHeaderBytes
    && |r.headers| + |r.trailers| <= lim.maxHeaderCount
    && |r.body| <= lim.maxBodyBytes
  }

  predicate AllAfforded(lim: Limits, rs: seq<Request>) { forall i :: 0 <= i < |rs| ==> Afforded(lim, rs[i]) }

  lemma DoneAffords(lim: Limits, m: Machine)
    requires HeadPaid(lim, m) && Inv(lim, m) && m.state.Done?
    ensures Afforded(lim, m.req)
  {
    hide Weight, FramingKept, DistinctNames;
  }

  /** Over whole runs: the counters stay honest, and every request delivered is within all five limits. */
  lemma {:induction false} DrainPaid(lim: Limits, m: Machine, buf: string)
    requires HeadPaid(lim, m) && Inv(lim, m)
    ensures HeadPaid(lim, Drain(lim, m, buf).m)
    ensures AllAfforded(lim, Drain(lim, m, buf).requests)
    decreases |buf|, if m == START then 0 else 1
  {
    hide Feed, Inv, Afforded, HeadPaid;
    FeedPaid(lim, m, buf);
    FeedKeepsInv(lim, m, buf);
    var f := Feed(lim, m, buf);
    if f.m.state.Done? {
      DoneUsesBytes(lim, buf);
      DoneAffords(lim, f.m);
      StartInv(lim);
      StartPaid(lim);
      DrainPaid(lim, START, buf[f.used..]);
    }
  }

  lemma StartPaid(lim: Limits)
    ensures HeadPaid(lim, START)
  {
  }
}
