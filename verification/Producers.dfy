/** The two streaming bodies the application serves, `/stream/{n}` and `/bytes/{n}`: stateful closures that
    honour the producer contract, and what their whole bodies are. */
module Producers {
  import opened Text
  import opened Numbers
  import opened Headers
  import opened RequestParser
  import opened Response
  import opened ChunkedCoding
  import opened Exchanges
  import opened Sending
  import Crc32

  const BYTES_PIECE: nat := 64 * 1024

  // ---------- /stream/{n} ----------

  function ToBytes(s: string): seq<Crc32.Byte> {
    if s == [] then [] else ToBytes(s[..|s| - 1]) + [ByteOf(s[|s| - 1])]
  }

  function ByteOf(c: char): Crc32.Byte { (c as int % 256) as bv8 }

  lemma ByteOfChar(c: char)
    requires c as int < 256
    ensures ByteOf(c) as int == c as int
  {
  }

  /** Byte by byte. */
  lemma {:induction false} ToBytesAt(s: string)
    ensures |ToBytes(s)| == |s|
    ensures forall i :: 0 <= i < |s| ==> ToBytes(s)[i] == ByteOf(s[i])
  {
    hide ByteOf;
    if s != [] {
      ToBytesAt(s[..|s| - 1]);
    }
  }

  lemma {:induction false} ToBytesAppend(a: string, b: string)
    ensures ToBytes(a + b) == ToBytes(a) + ToBytes(b)
    decreases |b|
  {
    hide ByteOf;
    if b == [] {
      assert a + b == a;
    } else {
      var k := |b| - 1;
      assert (a + b)[..|a + b| - 1] == a + b[..k];
      ToBytesAppend(a, b[..k]);
    }
  }

  /** The checksum of a body, as eight lower-case hex digits. */
  function Hex8(crc: bv32): string { Pad8(ToBase(crc as nat, 16)) }

  function Pad8(s: string): string
    decreases 8 - |s|
  {
    if |s| >= 8 then s else Pad8("0" + s)
  }

  lemma {:induction false} Pad8Value(s: string)
    requires InBase(s, 16) && IsLowerHex(s) && |s| <= 8
    ensures var t := Pad8(s);
            |t| == 8 && InBase(t, 16) && IsLowerHex(t) && Value(t, 16) == Value(s, 16)
    decreases 8 - |s|
  {
    hide Value;
    if |s| < 8 {
      ValueLeadingZero(s, 16);
      Pad8Value("0" + s);
    }
  }

  /** Eight digits with small letters, and their value is the checksum. */
  lemma Hex8Meaning(crc: bv32)
    ensures |Hex8(crc)| == 8 && IsLowerHex(Hex8(crc))
    ensures Hexadecimal(Hex8(crc)) == Some(crc as nat)
  {
    hide Value, ToBase, Pad8;
    var s := ToBase(crc as nat, 16);
    assert Pow(16, 4) == 0x1_0000;
    assert Pow(16, 8) == 0x1_0000_0000;
    ToBaseLength(crc as nat, 16, 8);
    ToBaseLower(crc as nat, 16);
    Pad8Value(s);
  }

  function Checksum(body: string): bv32 { Crc32.Crc(ToBytes(body), 0) }

  function StreamLine(i: nat, n: nat): (s: string)
    ensures s != []
  {
    "chunk " + ToBase(i, 10) + " of " + ToBase(n, 10) + "\n"
  }

  /** A line names its own number and how many there are, in that order. */
  lemma StreamLineSays(i: nat, n: nat) returns (a: string, b: string)
    ensures StreamLine(i, n) == "chunk " + a + " of " + b + "\n"
    ensures InBase(a, 10) && Value(a, 10) == i && InBase(b, 10) && Value(b, 10) == n
  {
    a, b := ToBase(i, 10), ToBase(n, 10);
  }

  /** The first `k` lines of the body. */
  function StreamBody(n: nat, k: nat): string {
    if k == 0 then "" else StreamBody(n, k - 1) + StreamLine(k - 1, n)
  }

  function StreamTrailers(n: nat, crc: bv32): Fields {
    Set(Set([], COUNT_NAME, ToBase(n, 10)), CRC_NAME, Hex8(crc))
  }

  /** Answer `k` of the producer for `/stream/{n}`. */
  function StreamAnswer(n: nat, k: nat): Answer {
    var sent := if k < n then k + 1 else n;
    Piece(if k < n then StreamLine(k, n) else "", sent < n,
          if sent < n then [] else StreamTrailers(n, Checksum(StreamBody(n, n))))
  }

  function StreamProducer(n: nat): Producer { (k: nat) => StreamAnswer(n, k) }

  class Stream {
    const n: nat
    const table: seq<bv32>
    var i: nat
    var crc: bv32

    ghost predicate Valid()
      reads this
    {
      i <= n && crc == Checksum(StreamBody(n, i)) && Crc32.IsTable(table)
    }

    constructor (n: nat)
      ensures Valid() && this.n == n && i == 0
    {
      this.n, i := n, 0;
      crc := 0;
      var t := Crc32.MakeTable();
      table := t[..];
      new;
      EmptyChecksum();
    }

    /** One call: the next line, the running checksum carried over, and the trailers with the last. */
    method Next() returns (piece: string, more: bool, trailers: Fields)
      requires Valid()
      modifies this
      ensures Valid() && Piece(piece, more, trailers) == StreamAnswer(n, old(i))
      ensures i == if old(i) < n then old(i) + 1 else n
    {
      hide StreamLine, StreamBody, StreamTrailers, Checksum, Crc32.IsTable, Crc32.Crc, ToBytes;
      piece := "";
      if i < n {
        var line := StreamLine(i, n);
        ChecksumCarries(StreamBody(n, i), line);
        StreamBodyNext(n, i);
        crc := Update(line, crc);
        piece := line;
        i := i + 1;
      }
      more := i < n;
      trailers := if more then [] else StreamTrailers(n, crc);
    }

    method Update(line: string, was: bv32) returns (r: bv32)
      requires Crc32.IsTable(table)
      ensures r == Crc32.Crc(ToBytes(line), was)
    {
      r := Crc32.Compute(table, ToBytes(line), was);
    }
  }

  lemma StreamBodyNext(n: nat, i: nat)
    ensures StreamBody(n, i + 1) == StreamBody(n, i) + StreamLine(i, n)
  {
  }

  lemma EmptyChecksum()
    ensures Checksum("") == 0
  {
    Crc32.NotNot(0);
    assert Crc32.Divide(Crc32.Not(0), []) == Crc32.Not(0);
  }

  lemma ChecksumCarries(a: string, b: string)
    ensures Checksum(a + b) == Crc32.Crc(ToBytes(b), Checksum(a))
  {
    hide Crc32.Crc;
    ToBytesAppend(a, b);
    Crc32.CrcComposes(ToBytes(a), ToBytes(b), 0);
  }

  lemma {:induction false} StreamPieces(n: nat, k: nat)
    ensures Concat(Pieces(StreamProducer(n), k)) == StreamBody(n, if k < n then k else n)
  {
    hide StreamLine, StreamTrailers;
    if k > 0 {
      var p := StreamProducer(n);
      StreamPieces(n, k - 1);
      assert Pieces(p, k)[..|Pieces(p, k)| - 1] == Pieces(p, k - 1);
      if k > n {
        assert StreamBody(n, n) + "" == StreamBody(n, n);
      }
    }
  }

  /** The producer honours its contract, whether the client gets chunks or a close-delimited body. */
  lemma StreamKeepsContract(n: nat, mode: Mode, i: nat)
    requires !mode.Sized?
    ensures !Violates(StreamProducer(n), mode, i)
  {
    hide StreamLine, StreamTrailers, StreamLength;
  }

  /** When the stream has ended, its trailers name the number of chunks and the checksum of the whole body
      as it was sent, however many answers went into each refill. */
  lemma StreamTrailersDescribeBody(n: nat, mode: Mode, k: nat)
    requires !mode.Sized? && StreamEnded(StreamProducer(n), mode, k)
    ensures var body := Concat(Pieces(StreamProducer(n), k));
            && body == StreamBody(n, n)
            && TrailersOf(StreamProducer(n)(k - 1)) == StreamTrailers(n, Checksum(body))
  {
    hide StreamLine, StreamTrailers, StreamLength, Checksum;
    StreamPieces(n, k);
    assert !StreamProducer(n)(k - 1).more;
  }

  const COUNT_NAME := "X-Chunk-Count"
  const CRC_NAME := "X-Content-CRC32"

  lemma TrailerNames()
    ensures IsToken(COUNT_NAME) && IsToken(CRC_NAME) && !IEquals(COUNT_NAME, CRC_NAME)
  {
    assert |COUNT_NAME| == 13 && |CRC_NAME| == 15;
  }

  lemma {:induction false} Pad8Hex(s: string)
    requires InBase(s, 16)
    ensures InBase(Pad8(s), 16)
    decreases 8 - |s|
  {
    if |s| < 8 {
      Pad8Hex("0" + s);
    }
  }

  lemma HexIsClean(s: string)
    requires InBase(s, 16)
    ensures IsFieldValue(s) && Trimmed(s)
  {
    forall i | 0 <= i < |s|
      ensures IsFieldChar(s[i]) && !IsOws(s[i])
    {
      assert HexValue(s[i]) >= 0;
    }
  }

  lemma StreamTrailersForm(n: nat, crc: bv32)
    ensures StreamTrailers(n, crc) == [Field(COUNT_NAME, ToBase(n, 10)), Field(CRC_NAME, Hex8(crc))]
  {
    hide ToBase, Hex8, IEquals;
    TrailerNames();
    var first := Field(COUNT_NAME, ToBase(n, 10));
    assert Find([], COUNT_NAME) < 0;
    assert Set([], COUNT_NAME, first.value) == [first];
    assert Find([first], CRC_NAME) < 0;
  }

  lemma StreamTrailersClean(n: nat, crc: bv32)
    ensures CleanTrailers(StreamTrailers(n, crc))
  {
    hide ToBase, IEquals, IsToken, IsFieldValue, Trimmed, StreamTrailers, Pad8;
    StreamTrailersForm(n, crc);
    TrailerNames();
    assert InBase(ToBase(n, 10), 16);
    HexIsClean(ToBase(n, 10));
    Pad8Hex(ToBase(crc as nat, 16));
    HexIsClean(Hex8(crc));
  }

  /** End to end: a client that decodes the finished `/stream/{n}` body gets the n lines, and trailers that
      name the checksum of exactly what it got. */
  lemma StreamVerifies(lim: Limits, m: Machine, n: nat, e: Exchange, rest: string)
    requires e.plan == FromStream(StreamProducer(n), InChunks) && e.over && Consistent(e)
    requires m.state.ChunkSize? && m.remaining == 0 && m.req.body == "" && m.req.trailers == []
    requires |StreamBody(n, n)| <= lim.maxBodyBytes && lim.maxChunkLine > 0
    requires SizesFit(lim, Pieces(StreamProducer(n), e.k))
    requires m.headerBytes + |FieldText(StreamTrailers(n, Checksum(StreamBody(n, n))))| + 2 <= lim.maxHeaderBytes
    requires m.headerCount + 2 <= lim.maxHeaderCount
    ensures var f := Feed(lim, m, BodyText(e) + rest);
            && f.m.state.Done? && f.used == |BodyText(e)|
            && f.m.req.body == StreamBody(n, n)
            && f.m.req.trailers == [Field(COUNT_NAME, ToBase(n, 10)), Field(CRC_NAME, Hex8(Checksum(f.m.req.body)))]
  {
    hide Feed, SizesFit, StreamTrailers, Checksum, StreamBody, BodyText, FieldText, ToBase, Hex8, CleanTrailers,
         StreamLength, Concat;
    var crc := Checksum(StreamBody(n, n));
    StreamTrailersDescribeBody(n, InChunks, e.k);
    StreamTrailersForm(n, crc);
    StreamTrailersClean(n, crc);
    assert "" + Concat(Pieces(StreamProducer(n), e.k)) == StreamBody(n, n);
    ChunkedBodyReadsBack(lim, m, e, rest);
  }

  // ---------- /bytes/{n} ----------

  function Letter(i: nat): char { ('a' as int + i % 26) as char }

  /** 64 KiB of the alphabet and one alphabet more. */
  function Pattern(): (s: string)
    ensures |s| == BYTES_PIECE + 26 && forall i :: 0 <= i < |s| ==> s[i] == Letter(i)
  {
    seq(BYTES_PIECE + 26, i requires i >= 0 => Letter(i))
  }

  function Sent(n: nat, k: nat): nat { Min(k * BYTES_PIECE, n) }

  function BytesPiece(n: nat, sent: nat): string
    requires sent <= n
  {
    Pattern()[sent % 26..sent % 26 + Min(n - sent, BYTES_PIECE)]
  }

  /** Answer `k` of the producer for `/bytes/{n}`. */
  function BytesAnswer(n: nat, k: nat): Answer {
    Piece(BytesPiece(n, Sent(n, k)), Sent(n, k + 1) < n, [])
  }

  function BytesProducer(n: nat): Producer { (k: nat) => BytesAnswer(n, k) }

  class Bytes {
    const n: nat
    var sent: nat

    constructor (n: nat)
      ensures this.n == n && sent == 0
    {
      this.n, sent := n, 0;
    }

    method Next(ghost k: nat) returns (piece: string, more: bool)
      requires sent == Sent(n, k)
      modifies this
      ensures Piece(piece, more, []) == BytesAnswer(n, k) && sent == Sent(n, k + 1)
    {
      hide Pattern;
      var take := Min(n - sent, BYTES_PIECE);
      piece := Pattern()[sent % 26..sent % 26 + take];
      sent := sent + take;
      more := sent < n;
    }
  }

  /** The first `n` letters of the endless alphabet. */
  function Alphabet(n: nat): (s: string)
    ensures |s| == n && forall i :: 0 <= i < n ==> s[i] == Letter(i)
  {
    if n == 0 then "" else Alphabet(n - 1) + [Letter(n - 1)]
  }

  lemma PieceContinues(n: nat, sent: nat)
    requires sent <= n
    ensures Alphabet(sent) + BytesPiece(n, sent) == Alphabet(Min(sent + BYTES_PIECE, n))
  {
    hide Alphabet, Pattern, Letter;
    var piece := BytesPiece(n, sent);
    forall i | 0 <= i < |piece|
      ensures piece[i] == Letter(sent + i)
    {
      LetterPeriod(sent, i);
    }
  }

  lemma LetterPeriod(sent: nat, i: nat)
    ensures Letter(sent % 26 + i) == Letter(sent + i)
  {
  }

  /** However the pieces fall, the body so far is a prefix of the alphabet of the right length. */
  lemma {:induction false} BytesSoFar(n: nat, k: nat)
    ensures StreamText(BytesProducer(n), Sized(n), k) == Alphabet(Sent(n, k))
    ensures StreamLength(BytesProducer(n), k) == Sent(n, k)
  {
    hide Alphabet, BytesPiece, Letter;
    if k > 0 {
      BytesSoFar(n, k - 1);
      PieceContinues(n, Sent(n, k - 1));
      BytesPieceLength(n, Sent(n, k - 1));
    } else {
      assert Alphabet(0) == "";
    }
  }

  lemma BytesPieceLength(n: nat, sent: nat)
    requires sent <= n
    ensures |BytesPiece(n, sent)| == Min(n - sent, BYTES_PIECE)
  {
    hide Pattern;
  }

  /** The producer never sends more than it declared, and never an empty piece with more to come. */
  lemma BytesKeepContract(n: nat, i: nat)
    ensures !Violates(BytesProducer(n), Sized(n), i)
  {
    hide BytesPiece, StreamLength;
    BytesSoFar(n, i);
    BytesPieceLength(n, Sent(n, i));
  }

  /** A body of n bytes is declared and exactly those n bytes are sent. */
  lemma BytesExact(n: nat, k: nat)
    requires StreamEnded(BytesProducer(n), Sized(n), k)
    ensures StreamText(BytesProducer(n), Sized(n), k) == Alphabet(n)
    ensures StreamLength(BytesProducer(n), k) == n
  {
    hide BytesPiece, StreamLength, StreamText, Alphabet;
    BytesSoFar(n, k);
    assert !BytesProducer(n)(k - 1).more || StreamLength(BytesProducer(n), k) == n;
  }
}
