/** Decimal and hexadecimal numbers: the readers of the request parser, the writer of the serialiser,
    and the proof that one undoes the other without leaving 64 bits. */
module Numbers {
  import opened Text

  const TWO_64: nat := 0x1_0000_0000_0000_0000

  function Pow(b: nat, e: nat): (r: nat)
    requires b > 0
    ensures r > 0
  {
    if e == 0 then 1 else b * Pow(b, e - 1)
  }

  predicate IsDigit(c: char) { '0' <= c <= '9' }

  function HexValue(c: char): (v: int)
    ensures -1 <= v < 16
    ensures IsDigit(c) <==> 0 <= v < 10
  {
    if '0' <= c <= '9' then c as int - '0' as int
    else if 'a' <= c <= 'f' then c as int - 'a' as int + 10
    else if 'A' <= c <= 'F' then c as int - 'A' as int + 10
    else -1
  }

  /** The sixteen digits in order, letters in either case, and nothing else. */
  lemma HexValueMeaning(c: char, v: nat)
    ensures HexValue(c) == v <==> v < 16 && (c == "0123456789abcdef"[v] || c == "0123456789ABCDEF"[v])
  {
    assert |"0123456789abcdef"| == 16 && |"0123456789ABCDEF"| == 16;
  }

  predicate AllDigits(s: string) { forall i :: 0 <= i < |s| ==> IsDigit(s[i]) }
  predicate AllHex(s: string) { forall i :: 0 <= i < |s| ==> HexValue(s[i]) >= 0 }

  predicate IsBase(b: nat) { b == 10 || b == 16 }

  /** Every character is a digit of the base. */
  predicate InBase(s: string, b: nat) { forall i :: 0 <= i < |s| ==> 0 <= HexValue(s[i]) < b }

  /** Positional value, most significant digit first. */
  function Value(s: string, b: nat): nat
    requires IsBase(b) && InBase(s, b)
  {
    if s == [] then 0 else Value(s[..|s| - 1], b) * b + HexValue(s[|s| - 1])
  }

  lemma ShiftOnce(d: int, p: int, v: int, b: int, e: int)
    ensures (d * p + v) * b + e == d * (b * p) + (v * b + e)
  {
  }

  /** Read from the front: the first digit weighs the base to the number of digits behind it. */
  lemma {:induction false} ValueFromFront(d: char, s: string, b: nat)
    requires IsBase(b) && InBase([d] + s, b)
    ensures InBase(s, b) && Value([d] + s, b) == HexValue(d) * Pow(b, |s|) + Value(s, b)
  {
    hide HexValue;
    var t := [d] + s;
    assert s == t[1..];
    if s == [] {
      assert t[..0] == [];
    } else {
      var k := |s| - 1;
      assert t[..|t| - 1] == [d] + s[..k];
      ValueFromFront(d, s[..k], b);
      ShiftOnce(HexValue(d), Pow(b, k), Value(s[..k], b), b, HexValue(s[k]));
    }
  }

  lemma {:induction false} ValueBound(s: string, b: nat)
    requires IsBase(b) && InBase(s, b)
    ensures Value(s, b) < Pow(b, |s|)
  {
    if s != [] {
      ValueBound(s[..|s| - 1], b);
    }
  }

  lemma PowMonotone(b: nat, d: nat, e: nat)
    requires IsBase(b) && d <= e
    ensures Pow(b, d) <= Pow(b, e)
    decreases e
  {
    if d < e {
      PowMonotone(b, d, e - 1);
    }
  }

  /** Nineteen decimal digits and sixteen hex digits always fit in 64 bits. */
  lemma WidthBounds()
    ensures Pow(10, 19) == 10_000_000_000_000_000_000 < TWO_64
    ensures Pow(16, 16) == TWO_64
  {
    assert Pow(10, 4) == 10_000;
    assert Pow(10, 8) == 100_000_000;
    assert Pow(10, 12) == 1_000_000_000_000;
    assert Pow(10, 16) == 10_000_000_000_000_000;
    assert Pow(16, 4) == 0x1_0000;
    assert Pow(16, 8) == 0x1_0000_0000;
    assert Pow(16, 12) == 0x1_0000_0000_0000;
  }

  /** 1*19DIGIT. */
  function Decimal(s: string): Option<nat> {
    if 1 <= |s| <= 19 && AllDigits(s) then Some(Value(s, 10)) else None
  }

  /** 1*16HEXDIG. */
  function Hexadecimal(s: string): Option<nat> {
    if 1 <= |s| <= 16 && AllHex(s) then Some(Value(s, 16)) else None
  }

  /** The reader's loop, with the wrap-around of its 64-bit accumulator written out: it never happens. */
  method ParseDecimal(s: string) returns (r: Option<nat>)
    ensures r == Decimal(s)
    ensures r.Some? ==> r.value < TWO_64
  {
    if s == [] || |s| > 19 { return None; }
    var v: nat := 0;
    for i := 0 to |s|
      invariant AllDigits(s[..i])
      invariant v == Value(s[..i], 10) < TWO_64
    {
      if !IsDigit(s[i]) { return None; }
      v := (v * 10 + HexValue(s[i])) % TWO_64;
      assert v == Value(s[..i + 1], 10) < TWO_64 by {
        assert s[..i + 1][..i] == s[..i];
        ValueBound(s[..i + 1], 10);
        PowMonotone(10, i + 1, 19);
        WidthBounds();
      }
    }
    assert s[..|s|] == s;
    r := Some(v);
  }

  method ParseHex(s: string) returns (r: Option<nat>)
    ensures r == Hexadecimal(s)
    ensures r.Some? ==> r.value < TWO_64
  {
    if s == [] || |s| > 16 { return None; }
    var v: nat := 0;
    for i := 0 to |s|
      invariant AllHex(s[..i])
      invariant v == Value(s[..i], 16) < TWO_64
    {
      if HexValue(s[i]) < 0 { return None; }
      v := (v * 16) % TWO_64 + HexValue(s[i]);  // the shifted accumulator has four clear low bits
      assert v == Value(s[..i + 1], 16) < TWO_64 by {
        assert s[..i + 1][..i] == s[..i];
        ValueBound(s[..i + 1], 16);
        PowMonotone(16, i + 1, 16);
        WidthBounds();
      }
    }
    assert s[..|s|] == s;
    r := Some(v);
  }

  function DigitChar(d: nat): (c: char)
    requires d < 16
    ensures HexValue(c) == d
  {
    if d < 10 then '0' + d as char else 'a' + (d - 10) as char
  }

  /** The digits `std::to_chars` writes: no leading zero, lower-case letters. */
  function ToBase(v: nat, b: nat): (s: string)
    requires IsBase(b)
    ensures |s| > 0 && InBase(s, b) && Value(s, b) == v
    ensures s[0] == '0' <==> v == 0
  {
    if v < b then
      assert [DigitChar(v)][..0] == [] && (HexValue(DigitChar(v)) == 0 <==> DigitChar(v) == '0');
      [DigitChar(v)]
    else
      var hi := ToBase(v / b, b);
      var s := hi + [DigitChar(v % b)];
      assert s[..|s| - 1] == hi;
      s
  }

  lemma {:induction false} ToBaseLength(v: nat, b: nat, k: nat)
    requires IsBase(b) && k > 0 && v < Pow(b, k)
    ensures |ToBase(v, b)| <= k
    decreases k
  {
    if v >= b && k > 1 {
      assert Pow(b, k) == b * Pow(b, k - 1);
      ToBaseLength(v / b, b, k - 1);
    }
  }

  /** Reading back what `append_number` wrote gives the same number. */
  lemma DecimalRoundTrip(v: nat)
    requires v < Pow(10, 19)
    ensures Decimal(ToBase(v, 10)) == Some(v)
  {
    ToBaseLength(v, 10, 19);
  }

  lemma HexRoundTrip(v: nat)
    requires v < TWO_64
    ensures Hexadecimal(ToBase(v, 16)) == Some(v)
  {
    WidthBounds();
    ToBaseLength(v, 16, 16);
  }

  /** Digits are written with small letters. */
  predicate IsLowerHex(s: string) { forall i :: 0 <= i < |s| ==> '0' <= s[i] <= '9' || 'a' <= s[i] <= 'f' }

  lemma {:induction false} ToBaseLower(v: nat, b: nat)
    requires IsBase(b)
    ensures IsLowerHex(ToBase(v, b))
  {
    if v >= b {
      ToBaseLower(v / b, b);
    }
  }

  /** Leading zeros do not count. */
  lemma ValueLeadingZero(s: string, b: nat)
    requires IsBase(b) && InBase(s, b)
    ensures InBase("0" + s, b) && Value("0" + s, b) == Value(s, b)
  {
    hide Value;
    assert "0" + s == ['0'] + s;
    ValueFromFront('0', s, b);
  }

  /** A written number has no whitespace, separator or line-break bytes. */
  lemma ToBaseClean(v: nat, b: nat, c: char)
    requires IsBase(b) && HexValue(c) < 0
    ensures c !in ToBase(v, b)
  {
  }
}
