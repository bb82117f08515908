/** Chunked transfer coding as the server writes it, and the parser that reads it back. */
module ChunkedCoding {
  import opened Text
  import opened Numbers
  import opened Headers
  import opened RequestParser
  import opened Messages
  import opened Response

  /** One piece as a chunk; an empty piece writes nothing, since a zero chunk would end the body. */
  function ChunkText(data: string): string {
    if data == [] then "" else Line(ToBase(|data|, 16)) + Line(data)
  }

  function LastChunkText(trailers: Fields): string { Line("0") + (FieldText(trailers) + CRLF) }

  method AppendChunk(out: string, data: string) returns (r: string)
    ensures r == out + ChunkText(data)
  {
    if data == [] {
      r := out;
    } else {
      r := out + ToBase(|data|, 16);
      r := r + CRLF + data + CRLF;
      assert r == out + (Line(ToBase(|data|, 16)) + Line(data));
    }
  }

  method AppendLastChunk(out: string, trailers: Fields) returns (r: string)
    ensures r == out + LastChunkText(trailers)
  {
    hide FieldText;
    var text := "";
    FieldTextOne(Field("", ""));
    for i := 0 to |trailers|
      invariant text == FieldText(trailers[..i])
    {
      FieldTextAppend(trailers[..i], [trailers[i]]);
      assert trailers[..i] + [trailers[i]] == trailers[..i + 1];
      text := AppendField(text, trailers[i].name, trailers[i].value);
    }
    assert trailers[..|trailers|] == trailers;
    r := out + (Line("0") + (text + CRLF));
  }

  // ---------- the written text as a payload of the grammar ----------

  function PiecesText(pieces: seq<string>): string {
    if pieces == [] then "" else PiecesText(pieces[..|pieces| - 1]) + ChunkText(pieces[|pieces| - 1])
  }

  function OneChunk(p: string): seq<Chunk> { if p == [] then [] else [Chunk(ToBase(|p|, 16), p)] }

  function ToChunks(pieces: seq<string>): seq<Chunk> {
    if pieces == [] then [] else ToChunks(pieces[..|pieces| - 1]) + OneChunk(pieces[|pieces| - 1])
  }

  lemma {:induction false} ChunksAppend(a: seq<Chunk>, b: seq<Chunk>)
    ensures EncodeChunks(a + b) == EncodeChunks(a) + EncodeChunks(b)
    ensures DataOf(a + b) == DataOf(a) + DataOf(b)
    decreases |a|
  {
    if a == [] {
      assert a + b == b;
    } else {
      assert (a + b)[1..] == a[1..] + b;
      ChunksAppend(a[1..], b);
      Assoc(Line(a[0].data), EncodeChunks(a[1..]), EncodeChunks(b));
      Assoc(Line(a[0].sizeLine), Line(a[0].data) + EncodeChunks(a[1..]), EncodeChunks(b));
      Assoc(a[0].data, DataOf(a[1..]), DataOf(b));
    }
  }

  lemma OneChunkText(p: string)
    ensures EncodeChunks(OneChunk(p)) == ChunkText(p) && DataOf(OneChunk(p)) == p
  {
    hide ToBase;
    if p != [] {
      var c := Chunk(ToBase(|p|, 16), p);
      assert [c][1..] == [];
      assert EncodeChunks([c]) == Line(c.sizeLine) + (Line(c.data) + EncodeChunks([c][1..]));
      assert Line(c.data) + "" == Line(c.data);
      assert DataOf([c]) == c.data + DataOf([c][1..]);
    }
  }

  lemma {:induction false} PiecesAsChunks(pieces: seq<string>)
    ensures EncodeChunks(ToChunks(pieces)) == PiecesText(pieces)
    ensures DataOf(ToChunks(pieces)) == Concat(pieces)
  {
    hide ChunkText, OneChunk;
    if pieces != [] {
      var k := |pieces| - 1;
      PiecesAsChunks(pieces[..k]);
      ChunksAppend(ToChunks(pieces[..k]), OneChunk(pieces[k]));
      OneChunkText(pieces[k]);
    }
  }

  /** Piece sizes whose hex form the reader takes. */
  predicate SizesFit(lim: Limits, pieces: seq<string>) {
    forall i :: 0 <= i < |pieces| ==> |pieces[i]| < TWO_64 && |ToBase(|pieces[i]|, 16)| <= lim.maxChunkLine
  }

  lemma SizeLine(n: nat)
    requires n < TWO_64
    ensures FindCrlf(ToBase(n, 16)) < 0 && ReadChunkSize(ToBase(n, 16)) == Some(n)
  {
    var s := ToBase(n, 16);
    assert NoBreaks(s);
    NoBreaksNoCrlf(s);
    ToBaseClean(n, 16, ';');
    assert Trimmed(s);
    TrimUndoesPadding("", s, "");
    assert "" + s + "" == s;
    HexRoundTrip(n);
  }

  lemma {:induction false} PiecesAreChunks(lim: Limits, pieces: seq<string>)
    requires SizesFit(lim, pieces)
    ensures AreChunks(lim, ToChunks(pieces))
  {
    hide ToBase, ReadChunkSize;
    if pieces != [] {
      var k := |pieces| - 1;
      PiecesAreChunks(lim, pieces[..k]);
      SizeLine(|pieces[k]|);
    }
  }

  /** Trailer fields that mean themselves: token names, trimmed values without control bytes, no repeats. */
  predicate CleanTrailers(fs: Fields) {
    && DistinctNames(fs)
    && forall i :: 0 <= i < |fs| ==> IsToken(fs[i].name) && IsFieldValue(fs[i].value) && Trimmed(fs[i].value)
  }

  lemma TokenNoBreaks(s: string)
    requires IsToken(s)
    ensures NoBreaks(s)
  {
  }

  lemma TrailerLine(f: Field)
    requires IsToken(f.name) && IsFieldValue(f.value) && Trimmed(f.value)
    ensures IsFieldLine(Render(f)) && ReadFieldLine(Render(f)) == Ok(f)
  {
    hide Trim;
    TrimUndoesPadding("", f.value, "");
    assert "" + f.value + "" == f.value;
    FieldRoundTrip(f);
    TokenNoBreaks(f.name);
    assert NoBreaks(f.name + ": ");
    NoBreaksNoCrlf(Render(f));
  }

  lemma {:induction false} TrailerLinesRead(fs: Fields)
    requires forall i :: 0 <= i < |fs| ==> IsToken(fs[i].name) && IsFieldValue(fs[i].value) && Trimmed(fs[i].value)
    ensures AreFieldLines(RenderAll(fs)) && FieldsOf(RenderAll(fs)) == fs
    decreases |fs|
  {
    hide IsFieldLine, ReadFieldLine, IsToken, IsFieldValue, Trimmed, Render;
    if fs != [] {
      TrailerLine(fs[0]);
      TrailerLinesRead(fs[1..]);
      var ls := RenderAll(fs);
      assert ls[1..] == RenderAll(fs[1..]);
      forall i | 0 <= i < |ls|
        ensures IsFieldLine(ls[i])
      {
        assert i > 0 ==> ls[i] == ls[1..][i - 1];
      }
      assert [fs[0]] + fs[1..] == fs;
    }
  }

  /** Adding fields whose names are all new keeps them as they are, in order. */
  lemma {:induction false} AddAllDistinct(h: Fields, fs: Fields)
    requires DistinctNames(h + fs)
    ensures AddAll(h, fs) == h + fs
    decreases |fs|
  {
    hide IEquals;
    if fs == [] {
      assert h + fs == h;
    } else {
      var f := fs[0];
      assert (h + fs)[|h|] == f;
      assert Find(h, f.name) < 0 by {
        forall i | 0 <= i < |h|
          ensures !IEquals(h[i].name, f.name)
        {
          assert (h + fs)[i] == h[i];
        }
      }
      assert Add(h, f.name, f.value) == h + [f];
      assert (h + [f]) + fs[1..] == h + fs;
      AddAllDistinct(h + [f], fs[1..]);
    }
  }

  /** Chunked round trip: what the serialiser writes for any list of pieces and clean trailers, fed to a
      parser about to read a chunk size, is taken exactly to its last byte, and gives back the
      concatenated pieces, even if they contain CRLF, and the trailers. */
  lemma ChunkedRoundTrip(lim: Limits, m: Machine, pieces: seq<string>, trailers: Fields, rest: string)
    requires m.state.ChunkSize? && m.remaining == 0 && m.req.trailers == []
    requires |m.req.body| + |Concat(pieces)| <= lim.maxBodyBytes
    requires lim.maxChunkLine > 0 && SizesFit(lim, pieces) && CleanTrailers(trailers)
    requires m.headerBytes + |FieldText(trailers)| + 2 <= lim.maxHeaderBytes
    requires m.headerCount + |trailers| <= lim.maxHeaderCount
    ensures var text := PiecesText(pieces) + LastChunkText(trailers);
            Feed(lim, m, text + rest) ==
            Fed(m.(state := Done, headerBytes := m.headerBytes + |FieldText(trailers)| + 2,
                   headerCount := m.headerCount + |trailers|,
                   req := m.req.(body := m.req.body + Concat(pieces), trailers := trailers)), |text|)
  {
    hide Feed, ToBase, ReadChunkSize, EncodeChunks, DataOf, Lines, ReadFieldLine, AddAll, PiecesText, Concat,
         FieldsOf, CleanTrailers, SizesFit;
    var cs, ls := ToChunks(pieces), RenderAll(trailers);
    var m1 := WithData(m, Concat(pieces));
    PiecesAsChunks(pieces);
    PiecesAreChunks(lim, pieces);
    TrailersBack(trailers);
    ZeroLine();
    var end := LastChunkText(trailers);
    Assoc(PiecesText(pieces), end, rest);
    ChunksLead(lim, m, cs, end + rest);
    TailLeads(lim, m1, "0", ls, rest);
    AfterFieldsSum(m1.(state := Trailers), ls);
  }

  lemma ZeroLine()
    ensures FindCrlf("0") < 0 && ReadChunkSize("0") == Some(0)
  {
    assert ToBase(0, 16) == "0";
    SizeLine(0);
  }

  lemma TrailersBack(fs: Fields)
    requires CleanTrailers(fs)
    ensures AreFieldLines(RenderAll(fs)) && AddAll([], FieldsOf(RenderAll(fs))) == fs
  {
    hide DistinctNames;
    TrailerLinesRead(fs);
    assert [] + fs == fs;
    AddAllDistinct([], fs);
  }
}
