/** The parser's central promise: the result never depends on how the byte stream was cut. */
module Segmentation {
  import opened Text
  import opened RequestParser

  // ---------- one turn under a longer input ----------

  /** How a turn on `a` relates to the turn on `a + b`: a decision, once made, does not change. */
  ghost predicate Settled(lim: Limits, m: Machine, a: string, b: string) {
    var t := Step(lim, m, a);
    if t.Continue? || t.m.state.Error? then Step(lim, m, a + b) == t else t == Return(m, 0)
  }

  /** Early rejection is sound: an unterminated line is refused only when no continuation of it,
      including one that completes a CRLF with its last CR, would be accepted. */
  lemma PartialTooLongIsFinal(lim: Limits, m: Machine, n: nat, k: nat)
    requires InLine(m) && PartialTooLong(lim, m, n)
    ensures k >= n ==> PartialTooLong(lim, m, k)
    ensures k >= n - 1 ==> LineTooLong(lim, m, k)
  {
  }

  /** It is also as early as the length alone allows: `n` bytes are refused exactly when the shortest
      line they can belong to, one whose CR is the last byte, is. */
  lemma PartialLimitIsExact(lim: Limits, m: Machine, n: nat)
    requires InLine(m) && n > 0
    ensures PartialTooLong(lim, m, n) <==> LineTooLong(lim, m, n - 1)
  {
  }

  lemma LineSettled(lim: Limits, m: Machine, a: string, b: string)
    requires InLine(m)
    ensures Settled(lim, m, a, b)
  {
    hide OnLine;
    FindCrlfStable(a, b);
    if FindCrlf(a) >= 0 {
      assert (a + b)[..FindCrlf(a)] == a[..FindCrlf(a)];
      OnLineUses(lim, m, a[..FindCrlf(a)]);
    } else if PartialTooLong(lim, m, |a|) {
      PartialTooLongIsFinal(lim, m, |a|, |a + b|);
      if FindCrlf(a + b) >= 0 {
        PartialTooLongIsFinal(lim, m, |a|, FindCrlf(a + b));
      }
    }
  }

  lemma StepSettled(lim: Limits, m: Machine, a: string, b: string)
    requires !InData(m)
    ensures Settled(lim, m, a, b)
  {
    if InLine(m) {
      LineSettled(lim, m, a, b);
    } else if m.state.ChunkDataEnd? && |a| >= 2 {
      assert (a + b)[..2] == a[..2];
    }
  }

  // ---------- resumption ----------

  /** Feeding `a`, keeping the unread tail, and feeding that tail with `b` behind it. */
  function FeedTwice(lim: Limits, m: Machine, a: string, b: string): Fed {
    var r := Feed(lim, m, a);
    After(r.used, Feed(lim, r.m, a[r.used..] + b))
  }

  /** Data bytes that do not finish the unit are all taken. */
  lemma DataTaken(lim: Limits, m: Machine, a: string)
    requires InData(m) && |a| < m.remaining
    ensures Feed(lim, m, a) ==
            Fed(m.(req := m.req.(body := m.req.body + a), remaining := m.remaining - |a|), |a|)
  {
    if a != [] {
      var m1 := Step(lim, m, a).m;
      assert a[..|a|] == a && a[|a|..] == [];
      assert Feed(lim, m1, []) == Fed(m1, 0);
    }
  }

  /** One turn over `a + b` does what a turn over `b` does after `a` was taken. */
  lemma DataTurn(lim: Limits, m: Machine, a: string, b: string)
    requires InData(m) && |a| < m.remaining && b != []
    ensures var m1 := m.(req := m.req.(body := m.req.body + a), remaining := m.remaining - |a|);
            && Step(lim, m1, b).Continue?
            && Step(lim, m, a + b) == Continue(Step(lim, m1, b).m, |a| + Step(lim, m1, b).used)
  {
    var left := m.remaining - |a|;
    var n1 := if |b| < left then |b| else left;
    assert (a + b)[..|a| + n1] == a + b[..n1];
    Assoc(m.req.body, a, b[..n1]);
  }

  /** A data state is not step-for-step equal under splitting, but the bytes add up. */
  lemma DataSplit(lim: Limits, m: Machine, a: string, b: string)
    requires InData(m) && |a| < m.remaining
    ensures Feed(lim, m, a + b) == FeedTwice(lim, m, a, b)
  {
    hide Step;
    DataTaken(lim, m, a);
    var m1 := Feed(lim, m, a).m;
    assert a[|a|..] + b == b;
    if b == [] {
      assert a + b == a;
      DataTaken(lim, m1, b);
      assert m1.req.body + b == m1.req.body;
    } else {
      DataTurn(lim, m, a, b);
      FeedTurn(lim, m1, b);
      FeedTurn(lim, m, a + b);
      var n1 := Step(lim, m1, b).used;
      assert (a + b)[|a| + n1..] == b[n1..];
    }
  }

  /** Resumption law: stopping anywhere and resuming with the kept tail changes nothing, for every
      machine and every cut. The early size rejections are the Error cases of `Settled`. */
  lemma {:induction false} Resume(lim: Limits, m: Machine, a: string, b: string)
    ensures Feed(lim, m, a + b) == FeedTwice(lim, m, a, b)
    decreases |a|, if InData(m) then 1 else 0
  {
    if InData(m) && |a| < m.remaining {
      DataSplit(lim, m, a, b);
    } else if InData(m) && a == [] {
      assert a + b == b;
    } else {
      if InData(m) {
        assert (a + b)[..m.remaining] == a[..m.remaining];
      } else {
        StepSettled(lim, m, a, b);
      }
      ResumeTurn(lim, m, a, b);
    }
  }

  lemma {:induction false} ResumeTurn(lim: Limits, m: Machine, a: string, b: string)
    requires !InData(m) || a != []
    requires Settled(lim, m, a, b)
    ensures Feed(lim, m, a + b) == FeedTwice(lim, m, a, b)
    decreases |a|, if InData(m) then 1 else 0, 0
  {
    var t := Step(lim, m, a);
    if t.Return? {
      ResumeReturn(lim, m, a, b);
    } else {
      StepUses(lim, m, a);
      Resume(lim, t.m, a[t.used..], b);
      ResumeContinue(lim, m, a, b);
    }
  }

  lemma ResumeReturn(lim: Limits, m: Machine, a: string, b: string)
    requires Step(lim, m, a).Return? && Settled(lim, m, a, b)
    ensures Feed(lim, m, a + b) == FeedTwice(lim, m, a, b)
  {
    hide Step;
    var t := Step(lim, m, a);
    assert Feed(lim, m, a) == Fed(t.m, t.used);
    if t.m.state.Error? {
      FeedHalted(lim, t.m, a[t.used..] + b);
    } else {
      assert a[0..] == a;
    }
  }

  lemma ResumeContinue(lim: Limits, m: Machine, a: string, b: string)
    requires Step(lim, m, a).Continue? && Step(lim, m, a).used <= |a| && Settled(lim, m, a, b)
    requires var t := Step(lim, m, a);
             Feed(lim, t.m, a[t.used..] + b) == FeedTwice(lim, t.m, a[t.used..], b)
    ensures Feed(lim, m, a + b) == FeedTwice(lim, m, a, b)
  {
    hide Step;
    var t := Step(lim, m, a);
    assert (a + b)[t.used..] == a[t.used..] + b;
    var r := Feed(lim, t.m, a[t.used..]);
    assert Feed(lim, m, a) == After(t.used, r);
    assert a[t.used..][r.used..] == a[t.used + r.used..];
  }

  /** Once `feed` has rejected, or has completed a message, no later byte changes what it did: a limit
      error on an unterminated line is the error of every continuation. */
  lemma VerdictIsFinal(lim: Limits, m: Machine, a: string, b: string)
    requires Halted(Feed(lim, m, a).m)
    ensures Feed(lim, m, a + b) == Feed(lim, m, a)
  {
    Resume(lim, m, a, b);
    var r := Feed(lim, m, a);
    FeedHalted(lim, r.m, a[r.used..] + b);
  }
}
