/** CRC-32 with the reflected polynomial 0xEDB88320: the table-driven loop, the bit-at-a-time division it
    abbreviates, and composition over pieces. */
module Crc32 {

  type Byte = bv8

  const POLY: bv32 := 0xEDB88320

  function Xor(a: bv32, b: bv32): bv32 { a ^ b }
  function Half(c: bv32): bv32 { c >> 1 }
  predicate Odd(c: bv32) { c & 1 == 1 }

  /** One step of the division. */
  function Shift(c: bv32): bv32 {
    if Odd(c) then Xor(POLY, Half(c)) else Half(c)
  }

  function Shifts(c: bv32, k: nat): bv32
    decreases k
  {
    if k == 0 then c else Shifts(Shift(c), k - 1)
  }

  // ---------- the reference: one message bit at a time ----------

  function LowBit(b: bv32): bv32 { b & 1 }

  /** Divides the `k` low bits of `b` into the register, least significant first. */
  function FeedBits(c: bv32, b: bv32, k: nat): bv32
    decreases k
  {
    if k == 0 then c else FeedBits(Shift(Xor(c, LowBit(b))), Half(b), k - 1)
  }

  function Widen(b: Byte): bv32 { b as bv32 }

  function Divide(c: bv32, data: seq<Byte>): bv32 {
    if data == [] then c else FeedBits(Divide(c, data[..|data| - 1]), Widen(data[|data| - 1]), 8)
  }

  function Not(c: bv32): bv32 { !c }

  /** The checksum: the register starts from the complemented previous checksum and is complemented. */
  function Crc(data: seq<Byte>, crc: bv32): bv32 { Not(Divide(Not(crc), data)) }

  // ---------- facts about single words ----------

  lemma XorHalf(x: bv32, y: bv32)
    ensures Half(Xor(x, y)) == Xor(Half(x), Half(y))
  {
  }

  lemma XorOdd(x: bv32, y: bv32)
    ensures Odd(Xor(x, y)) <==> Odd(x) != Odd(y)
  {
  }

  lemma XorTwice(p: bv32, z: bv32)
    ensures Xor(p, Xor(p, z)) == z
  {
  }

  lemma WordAssoc(p: bv32, x: bv32, y: bv32)
    ensures (p ^ x) ^ y == p ^ (x ^ y)
  {
  }

  lemma XorAssoc(p: bv32, x: bv32, y: bv32)
    ensures Xor(Xor(p, x), y) == Xor(p, Xor(x, y))
  {
    WordAssoc(p, x, y);
  }

  lemma XorSwaps(p: bv32, x: bv32, y: bv32)
    ensures Xor(x, Xor(p, y)) == Xor(p, Xor(x, y))
  {
  }

  lemma XorCancels(p: bv32, x: bv32, y: bv32)
    ensures Xor(Xor(p, x), Xor(p, y)) == Xor(x, y)
  {
    hide Xor;
    XorAssoc(p, x, Xor(p, y));
    XorSwaps(p, x, y);
    XorTwice(p, Xor(x, y));
  }

  lemma BitAndRest(t: bv32)
    ensures Xor(LowBit(t), t & 0xFFFFFFFE) == t && !Odd(t & 0xFFFFFFFE) && Half(t & 0xFFFFFFFE) == Half(t)
  {
  }

  lemma XorZero(c: bv32)
    ensures Xor(c, 0) == c
  {
  }

  lemma NotNot(c: bv32)
    ensures Not(Not(c)) == c
  {
  }

  // ---------- linearity ----------

  lemma ShiftLinear(x: bv32, y: bv32)
    ensures Shift(Xor(x, y)) == Xor(Shift(x), Shift(y))
  {
    hide Xor, Half, Odd;
    XorHalf(x, y);
    XorOdd(x, y);
    XorCancels(POLY, Half(x), Half(y));
    XorAssoc(POLY, Half(x), Half(y));
    XorSwaps(POLY, Half(x), Half(y));
  }

  lemma {:induction false} ShiftsLinear(x: bv32, y: bv32, k: nat)
    ensures Shifts(Xor(x, y), k) == Xor(Shifts(x, k), Shifts(y, k))
    decreases k
  {
    hide Xor, Shift;
    if k > 0 {
      ShiftLinear(x, y);
      ShiftsLinear(Shift(x), Shift(y), k - 1);
    }
  }

  function Halves(c: bv32, k: nat): bv32
    decreases k
  {
    if k == 0 then c else Halves(Half(c), k - 1)
  }

  predicate LowClear(c: bv32, k: nat)
    decreases k
  {
    k == 0 || (!Odd(c) && LowClear(Half(c), k - 1))
  }

  /** Steps on a register whose low bits are clear only move it. */
  lemma {:induction false} ShiftsClear(y: bv32, k: nat)
    requires LowClear(y, k)
    ensures Shifts(y, k) == Halves(y, k)
    decreases k
  {
    hide Xor, Half, Odd;
    if k > 0 {
      ShiftsClear(Half(y), k - 1);
    }
  }

  lemma Peel(c: bv32, t: bv32)
    ensures Shift(Xor(c, t)) == Xor(Shift(Xor(c, LowBit(t))), Half(t))
  {
    hide Xor, Half, Odd, LowBit;
    var rest := t & 0xFFFFFFFE;
    BitAndRest(t);
    XorAssoc(c, LowBit(t), rest);
    ShiftLinear(Xor(c, LowBit(t)), rest);
  }

  /** Adding the whole byte first is the same as adding each bit just before its step. */
  lemma {:induction false} BitsTogether(c: bv32, b: bv32, k: nat)
    requires Halves(b, k) == 0
    ensures FeedBits(c, b, k) == Shifts(Xor(c, b), k)
    decreases k
  {
    hide Xor, Half, Shift, LowBit;
    if k == 0 {
      XorZero(c);
    } else {
      Peel(c, b);
      BitsTogether(Shift(Xor(c, LowBit(b))), Half(b), k - 1);
    }
  }

  // ---------- the table ----------

  function Low(v: bv32): bv32 { v & 0xFF }
  function High(v: bv32): bv32 { v & 0xFFFFFF00 }
  function Drop(c: bv32): bv32 { c >> 8 }

  lemma EightHalves(c: bv32)
    ensures Halves(c, 8) == Half(Half(Half(Half(Half(Half(Half(Half(c))))))))
  {
    hide Half;
    var d := Half(Half(Half(Half(c))));
    assert Halves(c, 8) == Halves(d, 4);
    assert Halves(d, 4) == Half(Half(Half(Half(d))));
  }

  lemma EightClear(c: bv32)
    requires !Odd(c) && !Odd(Half(c)) && !Odd(Half(Half(c))) && !Odd(Half(Half(Half(c))))
    requires var d := Half(Half(Half(Half(c))));
             !Odd(d) && !Odd(Half(d)) && !Odd(Half(Half(d))) && !Odd(Half(Half(Half(d))))
    ensures LowClear(c, 8)
  {
    hide Half, Odd;
    var d := Half(Half(Half(Half(c))));
    assert LowClear(d, 4);
    assert LowClear(Half(Half(c)), 6);
  }

  lemma WordSplit(c: bv32, b: bv32)
    requires Low(b) == b
    ensures Xor(Low(Xor(c, b)), High(Xor(c, b))) == Xor(c, b)
    ensures var h := High(Xor(c, b));
            Half(Half(Half(Half(Half(Half(Half(Half(h)))))))) == Drop(c)
  {
  }

  lemma HighClear(v: bv32)
    ensures var c := High(v);
            !Odd(c) && !Odd(Half(c)) && !Odd(Half(Half(c))) && !Odd(Half(Half(Half(c))))
    ensures var d := Half(Half(Half(Half(High(v)))));
            !Odd(d) && !Odd(Half(d)) && !Odd(Half(Half(d))) && !Odd(Half(Half(Half(d))))
  {
  }

  lemma LowHalves(b: bv32)
    requires Low(b) == b
    ensures Half(Half(Half(Half(Half(Half(Half(Half(b)))))))) == 0
  {
  }

  /** One table look-up does the work of a whole byte. */
  lemma TableStep(c: bv32, b: bv32)
    requires Low(b) == b
    ensures FeedBits(c, b, 8) == Xor(Shifts(Low(Xor(c, b)), 8), Drop(c))
  {
    hide Xor, Half, Shift, Low, High, Drop, Odd;
    var v := Xor(c, b);
    LowHalves(b);
    EightHalves(b);
    BitsTogether(c, b, 8);
    WordSplit(c, b);
    ShiftsLinear(Low(v), High(v), 8);
    HighClear(v);
    EightClear(High(v));
    ShiftsClear(High(v), 8);
    EightHalves(High(v));
  }

  /** The nested loops that fill the table. */
  method MakeTable() returns (table: array<bv32>)
    ensures IsTable(table[..])
  {
    hide Shift, Word;
    table := new bv32[256];
    for i := 0 to 256
      invariant forall j :: 0 <= j < i ==> table[j] == Shifts(Word(j), 8)
    {
      var c := Word(i);
      for bit := 0 to 8
        invariant Shifts(c, 8 - bit) == Shifts(Word(i), 8)
      {
        c := Shift(c);
      }
      table[i] := c;
    }
  }

  function Word(i: nat): bv32
    requires i < 256
  {
    i as bv32
  }

  function Index(v: bv32): (i: nat)
    ensures i < 256 && Word(i) == Low(v)
  {
    var i := Low(v) as nat;
    IndexFits(v);
    i
  }

  lemma IndexFits(v: bv32)
    ensures (Low(v) as nat) < 256 && (Low(v) as nat) as bv32 == Low(v)
  {
  }

  predicate IsTable(t: seq<bv32>) {
    |t| == 256 && forall i :: 0 <= i < 256 ==> t[i] == Shifts(Word(i), 8)
  }

  lemma WidenLow(b: Byte)
    ensures Low(Widen(b)) == Widen(b)
  {
  }

  /** The table-driven loop computes the checksum of the bit-at-a-time division, for every byte string and
      every starting value. */
  method Compute(table: seq<bv32>, data: seq<Byte>, crc: bv32) returns (r: bv32)
    requires IsTable(table)
    ensures r == Crc(data, crc)
  {
    hide Xor, Drop, Low, Widen, Not, FeedBits, Shifts, Word;
    r := Not(crc);
    for i := 0 to |data|
      invariant r == Divide(Not(crc), data[..i])
    {
      assert data[..i + 1][..i] == data[..i];
      var b := Widen(data[i]);
      WidenLow(data[i]);
      TableStep(r, b);
      r := Xor(table[Index(Xor(r, b))], Drop(r));
    }
    assert data[..|data|] == data;
    r := Not(r);
  }

  // ---------- composition ----------

  lemma {:induction false} DivideAppend(c: bv32, a: seq<Byte>, b: seq<Byte>)
    ensures Divide(c, a + b) == Divide(Divide(c, a), b)
    decreases |b|
  {
    hide FeedBits, Widen;
    if b == [] {
      assert a + b == a;
    } else {
      var k := |b| - 1;
      assert (a + b)[..|a + b| - 1] == a + b[..k];
      DivideAppend(c, a, b[..k]);
    }
  }

  /** Passing the checksum of one piece to the next gives the checksum of the whole. */
  lemma CrcComposes(a: seq<Byte>, b: seq<Byte>, crc: bv32)
    ensures Crc(a + b, crc) == Crc(b, Crc(a, crc))
  {
    hide Divide, Not;
    DivideAppend(Not(crc), a, b);
    NotNot(Divide(Not(crc), a));
  }

  // ---------- the check value ----------

  lemma DivideNext(c: bv32, data: seq<Byte>, b: Byte)
    ensures Divide(c, data + [b]) == FeedBits(Divide(c, data), Widen(b), 8)
  {
    assert (data + [b])[..|data|] == data;
  }

  lemma DivideThree(c: bv32, x: Byte, y: Byte, z: Byte)
    ensures Divide(c, [x, y, z]) == FeedBits(FeedBits(FeedBits(c, Widen(x), 8), Widen(y), 8), Widen(z), 8)
  {
    hide FeedBits, Divide;
    DivideNext(c, [x, y], z);
    DivideNext(c, [x], y);
    DivideNext(c, [], x);
    DivideNothing(c);
    assert [] + [x] == [x] && [x] + [y] == [x, y] && [x, y] + [z] == [x, y, z];
  }

  lemma DivideNothing(c: bv32)
    ensures Divide(c, []) == c
  {
  }

  lemma BitsOneToThree()
    ensures FeedBits(0xFFFFFFFF, 0x31, 8) == 0x7C231048
    ensures FeedBits(0x7C231048, 0x32, 8) == 0xB0ACBB32
    ensures FeedBits(0xB0ACBB32, 0x33, 8) == 0x77B79C2D
  {
  }

  lemma CheckOneToThree()
    ensures Divide(0xFFFFFFFF, [0x31, 0x32, 0x33]) == 0x77B79C2D
  {
    hide Divide, FeedBits;
    BitsOneToThree();
    DivideThree(0xFFFFFFFF, 0x31, 0x32, 0x33);
  }

  lemma BitsFourToSix()
    ensures FeedBits(0x77B79C2D, 0x34, 8) == 0x641C1F5C
    ensures FeedBits(0x641C1F5C, 0x35, 8) == 0x340AC5E3
    ensures FeedBits(0x340AC5E3, 0x36, 8) == 0xF68D2C9E
  {
  }

  lemma CheckFourToSix()
    ensures Divide(0x77B79C2D, [0x34, 0x35, 0x36]) == 0xF68D2C9E
  {
    hide Divide, FeedBits;
    BitsFourToSix();
    DivideThree(0x77B79C2D, 0x34, 0x35, 0x36);
  }

  lemma BitsSevenToNine()
    ensures FeedBits(0xF68D2C9E, 0x37, 8) == 0xAFFC9660
    ensures FeedBits(0xAFFC9660, 0x38, 8) == 0x651F2550
    ensures FeedBits(0x651F2550, 0x39, 8) == 0x340BC6D9
  {
  }

  lemma CheckSevenToNine()
    ensures Divide(0xF68D2C9E, [0x37, 0x38, 0x39]) == 0x340BC6D9
  {
    hide Divide, FeedBits;
    BitsSevenToNine();
    DivideThree(0xF68D2C9E, 0x37, 0x38, 0x39);
  }

  /** The digits one to nine, in ASCII. */
  const CHECK_DIGITS: seq<Byte> := [0x31, 0x32, 0x33] + [0x34, 0x35, 0x36] + [0x37, 0x38, 0x39]

  /** The catalogued check value of this CRC. */
  lemma CheckValue()
    ensures Crc(CHECK_DIGITS, 0) == 0xCBF43926
  {
    hide Divide;
    CheckOneToThree();
    CheckFourToSix();
    CheckSevenToNine();
    DivideAppend(0xFFFFFFFF, [0x31, 0x32, 0x33] + [0x34, 0x35, 0x36], [0x37, 0x38, 0x39]);
    DivideAppend(0xFFFFFFFF, [0x31, 0x32, 0x33], [0x34, 0x35, 0x36]);
  }
}
