/** The hex and base64 codecs of std/encoding.fx (RFC 4648, sections 8 and 4) over vectors of i32. A word is
    the bit pattern of an i32, so every shift, mask and wrap is the source's. */
module Encoding {
  type Word = bv32

  const PAD: Word := 0x3D

  /** Signed comparison of two i32 patterns. */
  predicate Lt(a: Word, b: Word) { (a ^ 0x8000_0000) < (b ^ 0x8000_0000) }
  predicate Le(a: Word, b: Word) { (a ^ 0x8000_0000) <= (b ^ 0x8000_0000) }

  /** Arithmetic shift right: the sign bit is copied in. */
  function Sar(a: Word, k: Word): Word
    requires k < 32
  {
    if a & 0x8000_0000 == 0 then a >> k else !(!a >> k)
  }

  /** Shifting a word without the sign bit shifts in zeros. */
  lemma SarOfPositive(a: Word)
    requires a & 0x8000_0000 == 0
    ensures Sar(a, 2) == a >> 2 && Sar(a, 4) == a >> 4 && Sar(a, 6) == a >> 6
  {
  }

  /** Shifting one with the sign bit shifts in ones. */
  lemma SarOfNegative(a: Word)
    requires a & 0x8000_0000 != 0
    ensures Sar(a, 2) == (a >> 2) | 0xC000_0000
    ensures Sar(a, 4) == (a >> 4) | 0xF000_0000
    ensures Sar(a, 6) == (a >> 6) | 0xFC00_0000
  {
  }

  /** Words with the sign bit are negative, and so below all others. */
  lemma SignedOrder(a: Word, b: Word)
    ensures a < 0x8000_0000 <= b ==> Lt(b, a) && Le(b, a) && !Lt(a, b) && !Le(a, b)
    ensures (a < 0x8000_0000 <==> b < 0x8000_0000) ==> (Lt(a, b) <==> a < b) && (Le(a, b) <==> a <= b)
  {
  }

  predicate IsBytes(s: seq<Word>) { forall i :: 0 <= i < |s| ==> s[i] < 256 }

  /** Every word cut down to its low byte. */
  function LowBytes(s: seq<Word>): seq<Word> { if s == [] then [] else [s[0] & 0xFF] + LowBytes(s[1..]) }

  lemma {:induction false} LowBytesFixed(s: seq<Word>)
    ensures |LowBytes(s)| == |s| && IsBytes(LowBytes(s))
    ensures LowBytes(s) == s <==> IsBytes(s)
  {
    if s != [] {
      LowBytesFixed(s[1..]);
      assert s[0] & 0xFF < 256 && (s[0] & 0xFF == s[0] <==> s[0] < 256);
      assert s == [s[0]] + s[1..];
      assert LowBytes(s)[1..] == LowBytes(s[1..]);
    }
  }

  // ---- hex ----

  function NibbleToHex(n: Word): Word { if Lt(n, 10) then 0x30 + n else 0x61 + (n - 10) }
  function HexToNibble(c: Word): Word { if Le(c, 0x39) then c - 0x30 else (c - 0x61) + 10 }

  predicate IsLowerHex(c: Word) { 0x30 <= c <= 0x39 || 0x61 <= c <= 0x66 }

  /** Whole pairs of lowercase hex digits. */
  predicate IsHexText(t: seq<Word>) { |t| % 2 == 0 && forall i :: 0 <= i < |t| ==> IsLowerHex(t[i]) }

  function HighDigit(b: Word): Word { NibbleToHex(Sar(b, 4) & 0xF) }
  function LowDigit(b: Word): Word { NibbleToHex(b & 0xF) }
  function HexByte(h: Word, l: Word): Word { (HexToNibble(h) << 4) | HexToNibble(l) }

  function HexEncode(bs: seq<Word>): seq<Word> {
    if bs == [] then [] else [HighDigit(bs[0]), LowDigit(bs[0])] + HexEncode(bs[1..])
  }

  function HexDecode(t: seq<Word>): seq<Word> {
    if |t| < 2 then [] else [HexByte(t[0], t[1])] + HexDecode(t[2..])
  }

  lemma ByteOfDigits(b: Word)
    ensures HexByte(HighDigit(b), LowDigit(b)) == b & 0xFF
    ensures IsLowerHex(HighDigit(b)) && IsLowerHex(LowDigit(b))
  {
  }

  lemma DigitsOfByte(h: Word, l: Word)
    requires IsLowerHex(h) && IsLowerHex(l)
    ensures HighDigit(HexByte(h, l)) == h && LowDigit(HexByte(h, l)) == l && HexByte(h, l) < 256
  {
  }

  /** Encoding writes two lowercase digits a word, and decoding them gives the low byte of each back. */
  lemma {:induction false} HexDecodeEncode(bs: seq<Word>)
    ensures |HexEncode(bs)| == 2 * |bs| && IsHexText(HexEncode(bs))
    ensures HexDecode(HexEncode(bs)) == LowBytes(bs)
  {
    hide HighDigit, LowDigit, HexByte, IsLowerHex;
    if bs != [] {
      HexDecodeEncode(bs[1..]);
      ByteOfDigits(bs[0]);
      assert HexEncode(bs)[2..] == HexEncode(bs[1..]);
    }
  }

  lemma {:induction false} HexEncodeDecode(t: seq<Word>)
    requires IsHexText(t)
    ensures HexEncode(HexDecode(t)) == t && IsBytes(HexDecode(t))
  {
    hide HighDigit, LowDigit, HexByte, IsLowerHex;
    if t != [] {
      HexEncodeDecode(t[2..]);
      DigitsOfByte(t[0], t[1]);
      assert t == [t[0], t[1]] + t[2..];
      assert HexDecode(t)[1..] == HexDecode(t[2..]);
    }
  }

  /** The hex codecs are inverse to each other exactly on byte vectors and on lowercase pairs. */
  lemma HexBijection(bs: seq<Word>, t: seq<Word>)
    ensures HexDecode(HexEncode(bs)) == bs <==> IsBytes(bs)
    ensures HexEncode(HexDecode(t)) == t <==> IsHexText(t)
  {
    HexDecodeEncode(bs);
    LowBytesFixed(bs);
    HexDecodeEncode(HexDecode(t));
    if IsHexText(t) { HexEncodeDecode(t); }
  }

  // ---- base64 ----

  function EncChar(v: Word): Word {
    if Lt(v, 26) then 0x41 + v
    else if Lt(v, 52) then 0x61 + (v - 26)
    else if Lt(v, 62) then 0x30 + (v - 52)
    else if v == 62 then 0x2B
    else 0x2F
  }

  function DecVal(c: Word): Word {
    if c == 0x2B then 62
    else if c == 0x2F then 63
    else if Le(c, 0x39) then (c - 0x30) + 52
    else if Le(c, 0x5A) then c - 0x41
    else (c - 0x61) + 26
  }

  /** The 64 symbols of the alphabet. */
  predicate IsSymbol(c: Word) {
    c == 0x2B || c == 0x2F || 0x30 <= c <= 0x39 || 0x41 <= c <= 0x5A || 0x61 <= c <= 0x7A
  }

  // The four sextets of a group of bytes, and the three bytes of a group of sextets.
  function V0(b0: Word): Word { Sar(b0, 2) }
  function V1(b0: Word, b1: Word): Word { ((b0 & 0x3) << 4) | Sar(b1, 4) }
  function V2(b1: Word, b2: Word): Word { ((b1 & 0xF) << 2) | Sar(b2, 6) }
  function V3(b2: Word): Word { b2 & 0x3F }
  function B0(v0: Word, v1: Word): Word { ((v0 << 2) | Sar(v1, 4)) & 0xFF }
  function B1(v1: Word, v2: Word): Word { (((v1 & 0xF) << 4) | Sar(v2, 2)) & 0xFF }
  function B2(v2: Word, v3: Word): Word { (((v2 & 0x3) << 6) | v3) & 0xFF }

  /** The last sextet of a byte vector that ends after one or two bytes of a group. */
  function V1Tail(b0: Word): Word { (b0 & 0x3) << 4 }
  function V2Tail(b1: Word): Word { (b1 & 0xF) << 2 }

  function Quad(b0: Word, b1: Word, b2: Word): seq<Word> {
    [EncChar(V0(b0)), EncChar(V1(b0, b1)), EncChar(V2(b1, b2)), EncChar(V3(b2))]
  }

  function Tail(bs: seq<Word>): seq<Word>
    requires |bs| < 3
  {
    if |bs| == 1 then [EncChar(V0(bs[0])), EncChar(V1Tail(bs[0])), PAD, PAD]
    else if |bs| == 2 then [EncChar(V0(bs[0])), EncChar(V1(bs[0], bs[1])), EncChar(V2Tail(bs[1])), PAD]
    else []
  }

  function Encode(bs: seq<Word>): seq<Word> {
    if |bs| >= 3 then Quad(bs[0], bs[1], bs[2]) + Encode(bs[3..]) else Tail(bs)
  }

  /** The bytes of one group of four characters. */
  function Group(c0: Word, c1: Word, c2: Word, c3: Word): seq<Word> {
    [B0(DecVal(c0), DecVal(c1))] +
    if c2 == PAD then []
    else [B1(DecVal(c1), DecVal(c2))] + if c3 == PAD then [] else [B2(DecVal(c2), DecVal(c3))]
  }

  function Decode(t: seq<Word>): seq<Word> {
    if |t| < 4 then [] else Group(t[0], t[1], t[2], t[3]) + Decode(t[4..])
  }

  /** A group of four symbols, or one padded with the unused low bits of its last symbol all zero. */
  predicate IsGroup(c0: Word, c1: Word, c2: Word, c3: Word) {
    && IsSymbol(c0) && IsSymbol(c1)
    && if c2 == PAD then c3 == PAD && DecVal(c1) & 0xF == 0
       else IsSymbol(c2) && if c3 == PAD then DecVal(c2) & 0x3 == 0 else IsSymbol(c3)
  }

  /** Canonical base64 text: whole groups, of which only the last may be padded. */
  predicate Canonical(t: seq<Word>) {
    t == [] || (|t| >= 4 && IsGroup(t[0], t[1], t[2], t[3]) && (|t| > 4 ==> t[3] != PAD) && Canonical(t[4..]))
  }

  lemma SymbolOfSextet(v: Word)
    requires v < 64
    ensures IsSymbol(EncChar(v)) && DecVal(EncChar(v)) == v
  {
  }

  lemma SextetOfSymbol(c: Word)
    requires IsSymbol(c)
    ensures c != PAD && DecVal(c) < 64 && EncChar(DecVal(c)) == c
  {
  }

  lemma SextetsFit(b0: Word, b1: Word, b2: Word)
    requires b0 < 256 && b1 < 256 && b2 < 256
    ensures V0(b0) < 64 && V1(b0, b1) < 64 && V2(b1, b2) < 64 && V3(b2) < 64
  {
  }

  lemma FirstByte(b0: Word, b1: Word)
    requires b0 < 256 && b1 < 256
    ensures B0(V0(b0), V1(b0, b1)) == b0
  {
  }

  lemma SecondByte(b0: Word, b1: Word, b2: Word)
    requires b0 < 256 && b1 < 256 && b2 < 256
    ensures B1(V1(b0, b1), V2(b1, b2)) == b1
  {
  }

  lemma ThirdByte(b1: Word, b2: Word)
    requires b1 < 256 && b2 < 256
    ensures B2(V2(b1, b2), V3(b2)) == b2
  {
  }

  lemma TailsOfBytes(b: Word)
    requires b < 256
    ensures V1Tail(b) == V1(b, 0) && V1Tail(b) & 0xF == 0
    ensures V2Tail(b) == V2(b, 0) && V2Tail(b) & 0x3 == 0
  {
  }

  lemma SextetsBack(v0: Word, v1: Word, v2: Word, v3: Word)
    requires v0 < 64 && v1 < 64 && v2 < 64 && v3 < 64
    ensures V0(B0(v0, v1)) == v0 && V3(B2(v2, v3)) == v3
    ensures v1 & 0xF == 0 ==> V1Tail(B0(v0, v1)) == v1
  {
  }

  lemma SecondSextetBack(v0: Word, v1: Word, v2: Word)
    requires v0 < 64 && v1 < 64 && v2 < 64
    ensures V1(B0(v0, v1), B1(v1, v2)) == v1
    ensures v2 & 0x3 == 0 ==> V2Tail(B1(v1, v2)) == v2
  {
  }

  lemma ThirdSextetBack(v1: Word, v2: Word, v3: Word)
    requires v1 < 64 && v2 < 64 && v3 < 64
    ensures V2(B1(v1, v2), B2(v2, v3)) == v2
  {
  }

  lemma BytesFit(v0: Word, v1: Word, v2: Word, v3: Word)
    ensures B0(v0, v1) < 256 && B1(v1, v2) < 256 && B2(v2, v3) < 256
  {
  }

  lemma QuadDecodes(b0: Word, b1: Word, b2: Word)
    ensures |Quad(b0, b1, b2)| == 4
    ensures b0 < 256 && b1 < 256 && b2 < 256 ==>
      var q := Quad(b0, b1, b2);
      IsGroup(q[0], q[1], q[2], q[3]) && q[3] != PAD && Group(q[0], q[1], q[2], q[3]) == [b0, b1, b2]
  {
    hide EncChar, DecVal, IsSymbol, V0, V1, V2, V3, B0, B1, B2;
    if b0 < 256 && b1 < 256 && b2 < 256 {
      SextetsFit(b0, b1, b2);
      CharsOfSextets(V0(b0), V1(b0, b1), V2(b1, b2), V3(b2));
      FirstByte(b0, b1);
      SecondByte(b0, b1, b2);
      ThirdByte(b1, b2);
    }
  }

  lemma CharsOfSextets(v0: Word, v1: Word, v2: Word, v3: Word)
    requires v0 < 64 && v1 < 64 && v2 < 64 && v3 < 64
    ensures forall v :: v in {v0, v1, v2, v3} ==> IsSymbol(EncChar(v)) && DecVal(EncChar(v)) == v && EncChar(v) != PAD
  {
    hide EncChar, DecVal, IsSymbol;
    forall v | v in {v0, v1, v2, v3}
      ensures IsSymbol(EncChar(v)) && DecVal(EncChar(v)) == v && EncChar(v) != PAD
    {
      SymbolOfSextet(v);
      SextetOfSymbol(EncChar(v));
    }
  }

  lemma TailDecodes(bs: seq<Word>)
    requires |bs| < 3
    ensures if bs == [] then Tail(bs) == [] else |Tail(bs)| == 4 && Tail(bs)[3] == PAD
    ensures bs != [] && IsBytes(bs) ==>
      var q := Tail(bs);
      IsGroup(q[0], q[1], q[2], q[3]) && Group(q[0], q[1], q[2], q[3]) == bs
  {
    hide EncChar, DecVal, IsSymbol, V0, V1, V2, V3, V1Tail, V2Tail, B0, B1, B2;
    if bs != [] && IsBytes(bs) {
      var b0, b1 := bs[0], if |bs| == 2 then bs[1] else 0;
      SextetsFit(b0, b1, 0);
      CharsOfSextets(V0(b0), V1(b0, b1), V2(b1, 0), V3(0));
      FirstByte(b0, b1);
      SecondByte(b0, b1, 0);
      TailsOfBytes(b0);
      TailsOfBytes(b1);
    }
  }

  lemma GroupEncodes(c0: Word, c1: Word, c2: Word, c3: Word)
    requires IsGroup(c0, c1, c2, c3)
    ensures var g := Group(c0, c1, c2, c3);
            if c3 == PAD then 0 < |g| < 3 && Tail(g) == [c0, c1, c2, c3]
            else |g| == 3 && Quad(g[0], g[1], g[2]) == [c0, c1, c2, c3]
  {
    hide EncChar, DecVal, IsSymbol, V0, V1, V2, V3, V1Tail, V2Tail, B0, B1, B2;
    SymbolsApart();
    var d2, d3 := if c2 == PAD then 0x41 else c2, if c3 == PAD then 0x41 else c3;
    SextetOfSymbol(c0);
    SextetOfSymbol(c1);
    SextetOfSymbol(d2);
    SextetOfSymbol(d3);
    SextetsBack(DecVal(c0), DecVal(c1), DecVal(d2), DecVal(d3));
    SecondSextetBack(DecVal(c0), DecVal(c1), DecVal(d2));
    ThirdSextetBack(DecVal(c1), DecVal(d2), DecVal(d3));
  }

  lemma SymbolsApart()
    ensures !IsSymbol(PAD) && IsSymbol(0x41)
  {
  }

  /** Bytes encode to canonical text, four characters for every three bytes or part of three, and decode back. */
  lemma {:induction false} DecodeEncode(bs: seq<Word>)
    requires IsBytes(bs)
    ensures Canonical(Encode(bs)) && |Encode(bs)| == 4 * ((|bs| + 2) / 3)
    ensures Decode(Encode(bs)) == bs
  {
    hide Quad, Tail, Group, IsGroup;
    var t := Encode(bs);
    if |bs| >= 3 {
      QuadDecodes(bs[0], bs[1], bs[2]);
      DecodeEncode(bs[3..]);
      assert t[4..] == Encode(bs[3..]);
      assert bs == [bs[0], bs[1], bs[2]] + bs[3..];
    } else {
      TailDecodes(bs);
      assert bs != [] ==> t[4..] == [];
    }
  }

  lemma GroupIsBytes(c0: Word, c1: Word, c2: Word, c3: Word)
    ensures IsBytes(Group(c0, c1, c2, c3))
  {
    hide DecVal, B0, B1, B2;
    BytesFit(DecVal(c0), DecVal(c1), DecVal(c2), DecVal(c3));
  }

  lemma {:induction false} DecodeIsBytes(t: seq<Word>)
    ensures IsBytes(Decode(t))
  {
    hide Group;
    if |t| >= 4 {
      GroupIsBytes(t[0], t[1], t[2], t[3]);
      DecodeIsBytes(t[4..]);
    }
  }

  /** Canonical text is what its bytes encode to. */
  lemma {:induction false} EncodeDecode(t: seq<Word>)
    requires Canonical(t)
    ensures Encode(Decode(t)) == t
  {
    hide Quad, Tail, Group, IsGroup;
    TailDecodes([]);
    if t != [] {
      GroupEncodes(t[0], t[1], t[2], t[3]);
      var g, rest := Group(t[0], t[1], t[2], t[3]), Decode(t[4..]);
      assert t == [t[0], t[1], t[2], t[3]] + t[4..];
      if t[3] == PAD {
        assert rest == [] && g + rest == g;
      } else {
        EncodeDecode(t[4..]);
        assert (g + rest)[3..] == rest;
      }
    }
  }

  /** The base64 codecs are inverse to each other exactly on byte vectors and on canonical text. */
  lemma Base64Bijection(bs: seq<Word>, t: seq<Word>)
    ensures Decode(Encode(bs)) == bs <==> IsBytes(bs)
    ensures Encode(Decode(t)) == t <==> Canonical(t)
  {
    DecodeIsBytes(Encode(bs));
    if IsBytes(bs) { DecodeEncode(bs); }
    DecodeIsBytes(t);
    DecodeEncode(Decode(t));
    if Canonical(t) { EncodeDecode(t); }
  }

  /** Encoding in two pieces is encoding at once exactly when the first is whole groups, or the second empty. */
  lemma {:induction false} EncodeAppend(a: seq<Word>, b: seq<Word>)
    ensures Encode(a + b) == Encode(a) + Encode(b) <==> |a| % 3 == 0 || b == []
  {
    hide Quad, Tail;
    if |a| >= 3 {
      EncodeAppend(a[3..], b);
      assert (a + b)[3..] == a[3..] + b;
      QuadEnds(a[0], a[1], a[2]);
      assert (Encode(a) + Encode(b))[4..] == Encode(a[3..]) + Encode(b);
      assert Encode(a + b)[4..] == Encode(a[3..] + b);
    } else if a == [] {
      assert a + b == b;
      TailDecodes(a);
    } else if b == [] {
      assert a + b == a;
      TailDecodes(b);
    } else {
      TailDecodes(a);
      TailDecodes([b[0]]);
      if |a + b| >= 3 {
        QuadEnds((a + b)[0], (a + b)[1], (a + b)[2]);
        assert (Encode(a) + Encode(b))[3] == PAD != Encode(a + b)[3];
      } else {
        TailDecodes(a + b);
        TailDecodes(b);
      }
    }
  }

  /** The last symbol of a whole group is never the pad. */
  lemma QuadEnds(b0: Word, b1: Word, b2: Word)
    ensures |Quad(b0, b1, b2)| == 4 && Quad(b0, b1, b2)[3] != PAD
  {
    var v := V3(b2);
    assert v < 64;
    SymbolOfSextet(v);
  }

  // ---- the bit stream of RFC 4648, section 4 ----

  /** The bits of a byte and of a sextet, most significant first. */
  predicate Bit(b: Word, mask: Word) { b & mask != 0 }
  function Bits8(b: Word): (r: seq<bool>)
    ensures |r| == 8
  {
    [Bit(b, 128), Bit(b, 64), Bit(b, 32), Bit(b, 16), Bit(b, 8), Bit(b, 4), Bit(b, 2), Bit(b, 1)]
  }
  function Bits6(v: Word): (r: seq<bool>)
    ensures |r| == 6
  {
    [Bit(v, 32), Bit(v, 16), Bit(v, 8), Bit(v, 4), Bit(v, 2), Bit(v, 1)]
  }

  function ByteBits(bs: seq<Word>): seq<bool> {
    if bs == [] then [] else Bits8(bs[0]) + ByteBits(bs[1..])
  }

  /** The bits of the symbols of a text up to its padding. */
  function TextBits(t: seq<Word>): seq<bool> {
    if t == [] || t[0] == PAD then [] else Bits6(DecVal(t[0])) + TextBits(t[1..])
  }

  /** The zero bits that fill up the last symbol. */
  function Fill(n: nat): seq<bool> {
    if n % 3 == 0 then [] else if n % 3 == 1 then [false, false, false, false] else [false, false]
  }

  lemma FirstBits(b0: Word)
    requires b0 < 256
    ensures Bits6(V0(b0)) == Bits8(b0)[..6]
  {
  }

  lemma SecondMasks(b0: Word, b1: Word)
    requires b0 < 256 && b1 < 256
    ensures var v := V1(b0, b1);
            && Bit(v, 32) == Bit(b0, 2) && Bit(v, 16) == Bit(b0, 1) && Bit(v, 8) == Bit(b1, 128)
            && Bit(v, 4) == Bit(b1, 64) && Bit(v, 2) == Bit(b1, 32) && Bit(v, 1) == Bit(b1, 16)
  {
  }

  lemma SecondBits(b0: Word, b1: Word)
    requires b0 < 256 && b1 < 256
    ensures Bits6(V1(b0, b1)) == Bits8(b0)[6..] + Bits8(b1)[..4]
  {
    hide V1, Bit;
    SecondMasks(b0, b1);
  }

  lemma ThirdMasks(b1: Word, b2: Word)
    requires b1 < 256 && b2 < 256
    ensures var v := V2(b1, b2);
            && Bit(v, 32) == Bit(b1, 8) && Bit(v, 16) == Bit(b1, 4) && Bit(v, 8) == Bit(b1, 2)
            && Bit(v, 4) == Bit(b1, 1) && Bit(v, 2) == Bit(b2, 128) && Bit(v, 1) == Bit(b2, 64)
  {
  }

  lemma ThirdBits(b1: Word, b2: Word)
    requires b1 < 256 && b2 < 256
    ensures Bits6(V2(b1, b2)) == Bits8(b1)[4..] + Bits8(b2)[..2]
  {
    hide V2, Bit;
    ThirdMasks(b1, b2);
  }

  lemma FourthBits(b2: Word)
    requires b2 < 256
    ensures Bits6(V3(b2)) == Bits8(b2)[2..]
  {
  }

  lemma Regroup(x: seq<bool>, y: seq<bool>, z: seq<bool>, r: seq<bool>)
    requires |x| == |y| == |z| == 8
    ensures x[..6] + ((x[6..] + y[..4]) + ((y[4..] + z[..2]) + (z[2..] + r))) == x + (y + (z + r))
  {
  }

  lemma TextBitsOf(c: Word, t: seq<Word>)
    requires c != PAD
    ensures TextBits([c] + t) == Bits6(DecVal(c)) + TextBits(t)
  {
    assert ([c] + t)[1..] == t;
  }

  /** A group without a pad spells its four sextets. */
  lemma GroupText(v0: Word, v1: Word, v2: Word, v3: Word, t: seq<Word>)
    requires v0 < 64 && v1 < 64 && v2 < 64 && v3 < 64
    ensures TextBits([EncChar(v0), EncChar(v1), EncChar(v2), EncChar(v3)] + t)
         == Bits6(v0) + (Bits6(v1) + (Bits6(v2) + (Bits6(v3) + TextBits(t))))
  {
    hide EncChar, DecVal, IsSymbol, Bits6, TextBits;
    CharsOfSextets(v0, v1, v2, v3);
    var t3 := [EncChar(v3)] + t;
    var t2 := [EncChar(v2)] + t3;
    var t1 := [EncChar(v1)] + t2;
    TextBitsOf(EncChar(v3), t);
    TextBitsOf(EncChar(v2), t3);
    TextBitsOf(EncChar(v1), t2);
    TextBitsOf(EncChar(v0), t1);
    assert [EncChar(v0), EncChar(v1), EncChar(v2), EncChar(v3)] + t == [EncChar(v0)] + t1;
  }

  lemma QuadText(b0: Word, b1: Word, b2: Word, t: seq<Word>)
    requires b0 < 256 && b1 < 256 && b2 < 256
    ensures TextBits(Quad(b0, b1, b2) + t) == Bits8(b0) + (Bits8(b1) + (Bits8(b2) + TextBits(t)))
  {
    hide EncChar, V0, V1, V2, V3, Bits6, TextBits, Bits8;
    SextetsFit(b0, b1, b2);
    GroupText(V0(b0), V1(b0, b1), V2(b1, b2), V3(b2), t);
    FirstBits(b0);
    SecondBits(b0, b1);
    ThirdBits(b1, b2);
    FourthBits(b2);
    Regroup(Bits8(b0), Bits8(b1), Bits8(b2), TextBits(t));
  }

  lemma ByteBitsOf(b: Word, bs: seq<Word>)
    ensures ByteBits([b] + bs) == Bits8(b) + ByteBits(bs)
  {
    assert ([b] + bs)[1..] == bs;
  }

  lemma PadEnds(t: seq<Word>)
    requires t != [] && t[0] == PAD
    ensures TextBits(t) == []
  {
  }

  lemma OneByteText(b0: Word)
    requires b0 < 256
    ensures TextBits(Tail([b0])) == Bits8(b0) + Fill(1)
  {
    hide EncChar, DecVal, IsSymbol, V0, V1, V1Tail, Bits6, Bits8, TextBits;
    SextetsFit(b0, 0, 0);
    TailsOfBytes(b0);
    CharsOfSextets(V0(b0), V1(b0, 0), 0, 0);
    var c0, c1 := EncChar(V0(b0)), EncChar(V1(b0, 0));
    assert Tail([b0]) == [c0] + ([c1] + [PAD, PAD]);
    TextBitsOf(c0, [c1] + [PAD, PAD]);
    TextBitsOf(c1, [PAD, PAD]);
    PadEnds([PAD, PAD]);
    FirstBits(b0);
    SecondBits(b0, 0);
    ZeroBits();
    RegroupOne(Bits8(b0), Fill(1));
  }

  lemma RegroupOne(x: seq<bool>, z: seq<bool>)
    requires |x| == 8
    ensures x[..6] + ((x[6..] + z) + []) == x + z
  {
  }

  lemma TwoBytesText(b0: Word, b1: Word)
    requires b0 < 256 && b1 < 256
    ensures TextBits(Tail([b0, b1])) == Bits8(b0) + (Bits8(b1) + Fill(2))
  {
    hide EncChar, DecVal, IsSymbol, V0, V1, V2, V2Tail, Bits6, Bits8, TextBits;
    SextetsFit(b0, b1, 0);
    TailsOfBytes(b1);
    CharsOfSextets(V0(b0), V1(b0, b1), V2(b1, 0), 0);
    var c0, c1, c2 := EncChar(V0(b0)), EncChar(V1(b0, b1)), EncChar(V2(b1, 0));
    assert Tail([b0, b1]) == [c0] + ([c1] + ([c2] + [PAD]));
    TextBitsOf(c0, [c1] + ([c2] + [PAD]));
    TextBitsOf(c1, [c2] + [PAD]);
    TextBitsOf(c2, [PAD]);
    PadEnds([PAD]);
    FirstBits(b0);
    SecondBits(b0, b1);
    ThirdBits(b1, 0);
    ZeroBits();
    RegroupTwo(Bits8(b0), Bits8(b1), Fill(2));
  }

  lemma RegroupTwo(x: seq<bool>, y: seq<bool>, z: seq<bool>)
    requires |x| == |y| == 8
    ensures x[..6] + ((x[6..] + y[..4]) + ((y[4..] + z) + [])) == x + (y + z)
  {
  }

  lemma ZeroBits()
    ensures Bits8(0)[..4] == Fill(1) && Bits8(0)[..2] == Fill(2)
  {
  }

  lemma FillOf(n: nat)
    requires n >= 3
    ensures Fill(n) == Fill(n - 3)
  {
  }

  /** Three bytes more in front are their bits more in front. */
  lemma GroupSpells(b0: Word, b1: Word, b2: Word, rest: seq<Word>, t: seq<Word>, f: seq<bool>)
    requires b0 < 256 && b1 < 256 && b2 < 256 && TextBits(t) == ByteBits(rest) + f
    ensures TextBits(Quad(b0, b1, b2) + t) == ByteBits([b0] + ([b1] + ([b2] + rest))) + f
  {
    hide Quad, Bits8, TextBits, ByteBits;
    QuadText(b0, b1, b2, t);
    ByteBitsOf(b0, [b1] + ([b2] + rest));
    ByteBitsOf(b1, [b2] + rest);
    ByteBitsOf(b2, rest);
    Nest(Bits8(b0), Bits8(b1), Bits8(b2), ByteBits(rest), f);
  }

  lemma OneByteSpells(b0: Word)
    requires b0 < 256
    ensures TextBits(Tail([b0])) == ByteBits([b0]) + Fill(1)
  {
    hide Tail, Bits8, TextBits, ByteBits, Fill;
    OneByteText(b0);
    assert [b0] == [b0] + [];
    ByteBitsOf(b0, []);
    NoBits();
    Nest(Bits8(b0), [], [], [], Fill(1));
  }

  lemma TwoBytesSpell(b0: Word, b1: Word)
    requires b0 < 256 && b1 < 256
    ensures TextBits(Tail([b0, b1])) == ByteBits([b0, b1]) + Fill(2)
  {
    hide Tail, Bits8, TextBits, ByteBits, Fill;
    TwoBytesText(b0, b1);
    assert [b0, b1] == [b0] + ([b1] + []);
    ByteBitsOf(b0, [b1] + []);
    ByteBitsOf(b1, []);
    NoBits();
    Nest(Bits8(b0), Bits8(b1), [], [], Fill(2));
  }

  lemma TailSpells(bs: seq<Word>)
    requires IsBytes(bs) && |bs| < 3
    ensures TextBits(Tail(bs)) == ByteBits(bs) + Fill(|bs|)
  {
    hide Tail, TextBits, ByteBits;
    if |bs| == 2 {
      assert bs == [bs[0], bs[1]];
      TwoBytesSpell(bs[0], bs[1]);
    } else if |bs| == 1 {
      assert bs == [bs[0]];
      OneByteSpells(bs[0]);
    } else {
      TailDecodes(bs);
      NoBits();
    }
  }

  /** The symbols spell the bits of the bytes in order, followed by the fill. */
  lemma {:induction false} EncodeSpellsBits(bs: seq<Word>)
    requires IsBytes(bs)
    ensures TextBits(Encode(bs)) == ByteBits(bs) + Fill(|bs|)
  {
    hide Quad, Tail, TextBits, ByteBits, Fill;
    if |bs| >= 3 {
      var rest := bs[3..];
      EncodeSpellsBits(rest);
      FillOf(|bs|);
      GroupSpells(bs[0], bs[1], bs[2], rest, Encode(rest), Fill(|bs|));
      assert bs == [bs[0]] + ([bs[1]] + ([bs[2]] + rest));
    } else {
      TailSpells(bs);
    }
  }

  lemma Nest(x: seq<bool>, y: seq<bool>, z: seq<bool>, r: seq<bool>, f: seq<bool>)
    ensures x + (y + (z + (r + f))) == x + (y + (z + r)) + f
    ensures x + (y + f) == x + (y + []) + f && x + f == x + [] + f
  {
  }

  lemma NoBits()
    ensures ByteBits([]) == [] && TextBits([]) == []
  {
  }

  // ---- the bit stream of the hex codec, RFC 4648, section 8 ----

  function Bits4(n: Word): seq<bool> { [Bit(n, 8), Bit(n, 4), Bit(n, 2), Bit(n, 1)] }

  /** The bits that the digits of a hex text stand for. */
  function HexBits(t: seq<Word>): seq<bool> {
    if t == [] then [] else Bits4(HexToNibble(t[0])) + HexBits(t[1..])
  }

  /** The digits: 0 to 9 and a to f, in this order, and what each stands for. */
  lemma HexOrder(n: Word)
    requires n < 16
    ensures NibbleToHex(0) == 0x30 && NibbleToHex(9) == 0x39 && NibbleToHex(10) == 0x61 && NibbleToHex(15) == 0x66
    ensures n !in {9, 15} ==> NibbleToHex(n + 1) == NibbleToHex(n) + 1
    ensures HexToNibble(NibbleToHex(n)) == n
  {
    assert n < 9 || n == 9 || 10 <= n < 15 || n == 15;
  }

  lemma HighBits(b: Word)
    requires b < 256
    ensures Bits4(HexToNibble(HighDigit(b))) == Bits8(b)[..4]
  {
    hide NibbleToHex, HexToNibble, Bit;
    var n := Sar(b, 4) & 0xF;
    assert n < 16;
    HexOrder(n);
    HighMasks(b);
  }

  lemma HighMasks(b: Word)
    requires b < 256
    ensures var n := Sar(b, 4) & 0xF;
            && Bit(n, 8) == Bit(b, 128) && Bit(n, 4) == Bit(b, 64) && Bit(n, 2) == Bit(b, 32) && Bit(n, 1) == Bit(b, 16)
  {
  }

  lemma LowBits(b: Word)
    ensures Bits4(HexToNibble(LowDigit(b))) == Bits8(b)[4..]
  {
    hide NibbleToHex, HexToNibble, Bit;
    var n := b & 0xF;
    assert n < 16;
    HexOrder(n);
    LowMasks(b);
  }

  lemma LowMasks(b: Word)
    ensures var n := b & 0xF;
            Bit(n, 8) == Bit(b, 8) && Bit(n, 4) == Bit(b, 4) && Bit(n, 2) == Bit(b, 2) && Bit(n, 1) == Bit(b, 1)
  {
  }

  lemma HexBitsOf(h: Word, l: Word, t: seq<Word>)
    ensures HexBits([h, l] + t) == Bits4(HexToNibble(h)) + (Bits4(HexToNibble(l)) + HexBits(t))
  {
    hide Bits4;
    assert ([h, l] + t)[1..] == [l] + t && ([l] + t)[1..] == t;
    assert HexBits([l] + t) == Bits4(HexToNibble(l)) + HexBits(t);
  }

  lemma ByteInHex(b: Word, t: seq<Word>)
    requires b < 256
    ensures HexBits([HighDigit(b), LowDigit(b)] + t) == Bits8(b) + HexBits(t)
  {
    hide HighDigit, LowDigit, HexBits, Bits4, Bits8, HexToNibble;
    HexBitsOf(HighDigit(b), LowDigit(b), t);
    HighBits(b);
    LowBits(b);
    HalvesJoin(Bits8(b), HexBits(t));
  }

  lemma HalvesJoin(x: seq<bool>, r: seq<bool>)
    requires |x| == 8
    ensures x[..4] + (x[4..] + r) == x + r
  {
  }

  /** The digits spell the bits of the bytes in order: the high half of each byte first. */
  lemma {:induction false} HexSpellsBits(bs: seq<Word>)
    requires IsBytes(bs)
    ensures HexBits(HexEncode(bs)) == ByteBits(bs)
  {
    hide HighDigit, LowDigit, HexBits, Bits8;
    if bs == [] {
      assert HexBits([]) == [] by { NoHexBits(); }
    } else {
      HexSpellsBits(bs[1..]);
      ByteInHex(bs[0], HexEncode(bs[1..]));
    }
  }

  lemma NoHexBits()
    ensures HexBits([]) == []
  {
  }

  /** Decoding yields one byte for every whole pair, also of an odd text; and for digits, the bits they spell. */
  lemma {:induction false} HexDecodeSpellsBits(t: seq<Word>)
    ensures |HexDecode(t)| == |t| / 2
    ensures (forall i :: 0 <= i < |t| ==> IsLowerHex(t[i])) ==>
      ByteBits(HexDecode(t)) == HexBits(t[..|t| - |t| % 2]) && IsBytes(HexDecode(t))
  {
    hide HexByte, HexBits, Bits8, IsLowerHex;
    if |t| < 2 {
      assert t[..|t| - |t| % 2] == [];
      NoHexBits();
    } else {
      HexDecodeSpellsBits(t[2..]);
      var rest := t[2..][..|t[2..]| - |t[2..]| % 2];
      assert t[..|t| - |t| % 2] == [t[0], t[1]] + rest;
      if forall i :: 0 <= i < |t| ==> IsLowerHex(t[i]) {
        DigitsOfByte(t[0], t[1]);
        ByteInHex(HexByte(t[0], t[1]), rest);
        assert HexDecode(t)[1..] == HexDecode(t[2..]);
      }
    }
  }

  // ---- decoding base64 group by group ----

  /** The three ways in which a byte lies across two sextets. */
  lemma Octets(x: seq<bool>, y: seq<bool>)
    requires |x| == |y| == 6
    ensures x + y[..2] == [x[0], x[1], x[2], x[3], x[4], x[5], y[0], y[1]]
    ensures x[2..] + y[..4] == [x[2], x[3], x[4], x[5], y[0], y[1], y[2], y[3]]
    ensures x[4..] + y == [x[4], x[5], y[0], y[1], y[2], y[3], y[4], y[5]]
  {
  }

  lemma FirstByteBits(v0: Word, v1: Word)
    requires v0 < 64 && v1 < 64
    ensures Bits8(B0(v0, v1)) == Bits6(v0) + Bits6(v1)[..2]
  {
    hide B0, Bit;
    FirstByteMasks(v0, v1);
    Octets(Bits6(v0), Bits6(v1));
  }

  lemma FirstByteMasks(v0: Word, v1: Word)
    requires v0 < 64 && v1 < 64
    ensures var b := B0(v0, v1);
            && Bit(b, 128) == Bit(v0, 32) && Bit(b, 64) == Bit(v0, 16)
            && Bit(b, 32) == Bit(v0, 8) && Bit(b, 16) == Bit(v0, 4)
            && Bit(b, 8) == Bit(v0, 2) && Bit(b, 4) == Bit(v0, 1)
            && Bit(b, 2) == Bit(v1, 32) && Bit(b, 1) == Bit(v1, 16)
  {
  }

  lemma SecondByteBits(v1: Word, v2: Word)
    requires v1 < 64 && v2 < 64
    ensures Bits8(B1(v1, v2)) == Bits6(v1)[2..] + Bits6(v2)[..4]
  {
    hide B1, Bit;
    SecondByteMasks(v1, v2);
    Octets(Bits6(v1), Bits6(v2));
  }

  lemma SecondByteMasks(v1: Word, v2: Word)
    requires v1 < 64 && v2 < 64
    ensures var b := B1(v1, v2);
            && Bit(b, 128) == Bit(v1, 8) && Bit(b, 64) == Bit(v1, 4)
            && Bit(b, 32) == Bit(v1, 2) && Bit(b, 16) == Bit(v1, 1)
            && Bit(b, 8) == Bit(v2, 32) && Bit(b, 4) == Bit(v2, 16)
            && Bit(b, 2) == Bit(v2, 8) && Bit(b, 1) == Bit(v2, 4)
  {
  }

  lemma ThirdByteBits(v2: Word, v3: Word)
    requires v2 < 64 && v3 < 64
    ensures Bits8(B2(v2, v3)) == Bits6(v2)[4..] + Bits6(v3)
  {
    hide B2, Bit;
    ThirdByteMasks(v2, v3);
    Octets(Bits6(v2), Bits6(v3));
  }

  lemma ThirdByteMasks(v2: Word, v3: Word)
    requires v2 < 64 && v3 < 64
    ensures var b := B2(v2, v3);
            && Bit(b, 128) == Bit(v2, 2) && Bit(b, 64) == Bit(v2, 1)
            && Bit(b, 32) == Bit(v3, 32) && Bit(b, 16) == Bit(v3, 16)
            && Bit(b, 8) == Bit(v3, 8) && Bit(b, 4) == Bit(v3, 4)
            && Bit(b, 2) == Bit(v3, 2) && Bit(b, 1) == Bit(v3, 1)
  {
  }

  /** Two symbols, and then two more that may each be the pad. */
  predicate Symbols(c0: Word, c1: Word, c2: Word, c3: Word) {
    IsSymbol(c0) && IsSymbol(c1) && (c2 == PAD || IsSymbol(c2)) && (c3 == PAD || IsSymbol(c3))
  }

  /** The whole bytes in the bits that the symbols before the first pad spell. */
  function GroupBits(c0: Word, c1: Word, c2: Word, c3: Word): seq<bool> {
    var two := Bits6(DecVal(c0)) + Bits6(DecVal(c1));
    if c2 == PAD then two[..8]
    else
      var three := two + Bits6(DecVal(c2));
      if c3 == PAD then three[..16] else three + Bits6(DecVal(c3))
  }

  function AllGroupBits(t: seq<Word>): seq<bool> {
    if |t| < 4 then [] else GroupBits(t[0], t[1], t[2], t[3]) + AllGroupBits(t[4..])
  }

  predicate AllSymbols(t: seq<Word>) {
    |t| >= 4 ==> Symbols(t[0], t[1], t[2], t[3]) && AllSymbols(t[4..])
  }

  lemma GroupSpellsBits(c0: Word, c1: Word, c2: Word, c3: Word)
    requires Symbols(c0, c1, c2, c3)
    ensures ByteBits(Group(c0, c1, c2, c3)) == GroupBits(c0, c1, c2, c3)
  {
    hide DecVal, IsSymbol, B0, B1, B2, Bits6, Bits8, ByteBits;
    var v0, v1 := DecVal(c0), DecVal(c1);
    SextetOfSymbol(c0);
    SextetOfSymbol(c1);
    FirstByteBits(v0, v1);
    NoBits();
    if c2 == PAD {
      ByteBitsOf(B0(v0, v1), []);
      assert [B0(v0, v1)] + [] == [B0(v0, v1)];
      CutOne(Bits6(v0), Bits6(v1));
    } else {
      var v2 := DecVal(c2);
      SextetOfSymbol(c2);
      SecondByteBits(v1, v2);
      if c3 == PAD {
        ByteBitsOf(B0(v0, v1), [B1(v1, v2)]);
        ByteBitsOf(B1(v1, v2), []);
        assert [B1(v1, v2)] + [] == [B1(v1, v2)];
        CutTwo(Bits6(v0), Bits6(v1), Bits6(v2));
      } else {
        var v3 := DecVal(c3);
        SextetOfSymbol(c3);
        ThirdByteBits(v2, v3);
        ByteBitsOf(B0(v0, v1), [B1(v1, v2)] + [B2(v2, v3)]);
        ByteBitsOf(B1(v1, v2), [B2(v2, v3)]);
        ByteBitsOf(B2(v2, v3), []);
        assert [B2(v2, v3)] + [] == [B2(v2, v3)];
        CutThree(Bits6(v0), Bits6(v1), Bits6(v2), Bits6(v3));
      }
    }
  }

  lemma CutOne(x: seq<bool>, y: seq<bool>)
    requires |x| == |y| == 6
    ensures (x + y[..2]) + [] == (x + y)[..8]
  {
  }

  lemma CutTwo(x: seq<bool>, y: seq<bool>, z: seq<bool>)
    requires |x| == |y| == |z| == 6
    ensures (x + y[..2]) + ((y[2..] + z[..4]) + []) == (x + y + z)[..16]
  {
  }

  lemma CutThree(x: seq<bool>, y: seq<bool>, z: seq<bool>, w: seq<bool>)
    requires |x| == |y| == |z| == |w| == 6
    ensures (x + y[..2]) + ((y[2..] + z[..4]) + ((z[4..] + w) + [])) == x + y + z + w
  {
  }

  /** Decoding takes the text four characters at a time, drops what is left over, and yields the whole bytes
      that the symbols of each group spell, padded or not, canonical or not. */
  lemma {:induction false} DecodeSpellsBits(t: seq<Word>)
    requires AllSymbols(t)
    ensures ByteBits(Decode(t)) == AllGroupBits(t)
  {
    hide Symbols, Group, GroupBits, ByteBits;
    if |t| < 4 {
      NoBits();
    } else {
      DecodeSpellsBits(t[4..]);
      GroupSpellsBits(t[0], t[1], t[2], t[3]);
      ByteBitsAppend(Group(t[0], t[1], t[2], t[3]), Decode(t[4..]));
    }
  }

  lemma {:induction false} ByteBitsAppend(a: seq<Word>, b: seq<Word>)
    ensures ByteBits(a + b) == ByteBits(a) + ByteBits(b)
  {
    hide Bits8;
    if a == [] {
      assert a + b == b;
    } else {
      ByteBitsAppend(a[1..], b);
      assert (a + b)[1..] == a[1..] + b && (a + b)[0] == a[0];
      assert Bits8(a[0]) + (ByteBits(a[1..]) + ByteBits(b)) == (Bits8(a[0]) + ByteBits(a[1..])) + ByteBits(b);
    }
  }

  /** The alphabet: A to Z, a to z, 0 to 9, + and /, in this order. */
  lemma AlphabetOrder(v: Word)
    requires v < 64
    ensures EncChar(0) == 0x41 && EncChar(26) == 0x61 && EncChar(52) == 0x30
    ensures EncChar(62) == 0x2B && EncChar(63) == 0x2F
    ensures v !in {25, 51, 61, 62, 63} ==> EncChar(v + 1) == EncChar(v) + 1
  {
    assert v < 26 || 26 <= v < 52 || 52 <= v < 62 || v == 62 || v == 63;
  }

  // ---- the loops ----

  lemma Peel<T>(out: seq<T>, q: seq<T>, r: seq<T>)
    ensures |q| == 2 ==> out + (q + r) == out + [q[0]] + [q[1]] + r
    ensures |q| == 4 ==> out + (q + r) == out + [q[0]] + [q[1]] + [q[2]] + [q[3]] + r
  {
  }

  method EncodeHex(bytes: seq<Word>) returns (out: seq<Word>)
    ensures out == HexEncode(bytes)
  {
    hide NibbleToHex, Sar;
    out := [];
    var i, n := 0, |bytes|;
    while i < n
      invariant i <= n && HexEncode(bytes) == out + HexEncode(bytes[i..])
    {
      assert bytes[i..][1..] == bytes[i + 1..];
      Peel(out, [HighDigit(bytes[i]), LowDigit(bytes[i])], HexEncode(bytes[i + 1..]));
      var b := bytes[i];
      out := out + [NibbleToHex(Sar(b, 4) & 0xF)];
      out := out + [NibbleToHex(b & 0xF)];
      i := i + 1;
    }
  }

  lemma DecodeHexStep(hex: seq<Word>, i: nat, out: seq<Word>)
    requires i + 2 <= |hex|
    ensures out + HexDecode(hex[i..]) == out + [HexByte(hex[i], hex[i + 1])] + HexDecode(hex[i + 2..])
  {
    hide HexByte;
    assert hex[i..][2..] == hex[i + 2..];
  }

  method DecodeHex(hex: seq<Word>) returns (out: seq<Word>)
    ensures out == HexDecode(hex)
  {
    hide HexToNibble, HexDecode;
    out := [];
    var i, n := 0, |hex|;
    while i + 1 < n
      invariant i <= n && HexDecode(hex) == out + HexDecode(hex[i..])
    {
      DecodeHexStep(hex, i, out);
      var hi := HexToNibble(hex[i]);
      var lo := HexToNibble(hex[i + 1]);
      out := out + [(hi << 4) | lo];
      i := i + 2;
    }
    assert HexDecode(hex[i..]) == [] by { DecodeHexRest(hex[i..]); }
  }

  lemma DecodeHexRest(t: seq<Word>)
    requires |t| < 2
    ensures HexDecode(t) == []
  {
  }

  lemma EncodeStep(bytes: seq<Word>, i: nat, out: seq<Word>)
    requires i + 3 <= |bytes|
    ensures out + Encode(bytes[i..]) ==
      var b0, b1, b2 := bytes[i], bytes[i + 1], bytes[i + 2];
      out + [EncChar(V0(b0))] + [EncChar(V1(b0, b1))] + [EncChar(V2(b1, b2))] + [EncChar(V3(b2))]
        + Encode(bytes[i + 3..])
  {
    hide EncChar, V0, V1, V2, V3;
    assert bytes[i..][3..] == bytes[i + 3..];
    Peel(out, Quad(bytes[i], bytes[i + 1], bytes[i + 2]), Encode(bytes[i + 3..]));
  }

  lemma EncodeTail(bytes: seq<Word>, i: nat, out: seq<Word>)
    requires i <= |bytes| < i + 3
    ensures |bytes| - i == 0 ==> out + Encode(bytes[i..]) == out
    ensures |bytes| - i == 1 ==>
      out + Encode(bytes[i..]) == out + [EncChar(V0(bytes[i]))] + [EncChar(V1Tail(bytes[i]))] + [PAD] + [PAD]
    ensures |bytes| - i == 2 ==>
      out + Encode(bytes[i..])
        == out + [EncChar(V0(bytes[i]))] + [EncChar(V1(bytes[i], bytes[i + 1]))]
          + [EncChar(V2Tail(bytes[i + 1]))] + [PAD]
  {
    hide EncChar, V0, V1, V2, V3, V1Tail, V2Tail;
    Peel(out, Encode(bytes[i..]), []);
    assert out + (Encode(bytes[i..]) + []) == out + Encode(bytes[i..]);
  }

  method EncodeBase64(bytes: seq<Word>) returns (out: seq<Word>)
    ensures out == Encode(bytes)
  {
    hide EncChar, Sar, Encode;
    out := [];
    var i, n := 0, |bytes|;
    while i + 3 <= n
      invariant i <= n && Encode(bytes) == out + Encode(bytes[i..])
    {
      EncodeStep(bytes, i, out);
      var b0 := bytes[i];
      var b1 := bytes[i + 1];
      var b2 := bytes[i + 2];
      out := out + [EncChar(Sar(b0, 2))];
      out := out + [EncChar(((b0 & 0x3) << 4) | Sar(b1, 4))];
      out := out + [EncChar(((b1 & 0xF) << 2) | Sar(b2, 6))];
      out := out + [EncChar(b2 & 0x3F)];
      i := i + 3;
    }
    EncodeTail(bytes, i, out);
    var rem := n - i;
    if rem == 1 {
      var b0 := bytes[i];
      out := out + [EncChar(Sar(b0, 2))];
      out := out + [EncChar((b0 & 0x3) << 4)];
      out := out + [PAD];
      out := out + [PAD];
    } else {
      if rem == 2 {
        var b0 := bytes[i];
        var b1 := bytes[i + 1];
        out := out + [EncChar(Sar(b0, 2))];
        out := out + [EncChar(((b0 & 0x3) << 4) | Sar(b1, 4))];
        out := out + [EncChar((b1 & 0xF) << 2)];
        out := out + [PAD];
      }
    }
  }

  lemma DecodeStep(text: seq<Word>, i: nat, out: seq<Word>)
    requires i + 4 <= |text|
    ensures out + Decode(text[i..]) ==
      var v0, v1, v2, v3 := DecVal(text[i]), DecVal(text[i + 1]), DecVal(text[i + 2]), DecVal(text[i + 3]);
      if text[i + 2] == PAD then out + [B0(v0, v1)] + Decode(text[i + 4..])
      else if text[i + 3] == PAD then out + [B0(v0, v1)] + [B1(v1, v2)] + Decode(text[i + 4..])
      else out + [B0(v0, v1)] + [B1(v1, v2)] + [B2(v2, v3)] + Decode(text[i + 4..])
  {
    hide DecVal, B0, B1, B2;
    assert text[i..][4..] == text[i + 4..];
  }

  method DecodeBase64(text: seq<Word>) returns (out: seq<Word>)
    ensures out == Decode(text)
  {
    hide DecVal, Sar, Decode;
    out := [];
    var n, i := |text|, 0;
    while i + 4 <= n
      invariant i <= n && Decode(text) == out + Decode(text[i..])
    {
      DecodeStep(text, i, out);
      var c0 := text[i];
      var c1 := text[i + 1];
      var c2 := text[i + 2];
      var c3 := text[i + 3];
      var v0 := DecVal(c0);
      var v1 := DecVal(c1);
      out := out + [((v0 << 2) | Sar(v1, 4)) & 0xFF];
      if c2 != PAD {
        var v2 := DecVal(c2);
        out := out + [(((v1 & 0xF) << 4) | Sar(v2, 2)) & 0xFF];
        if c3 != PAD {
          var v3 := DecVal(c3);
          out := out + [(((v2 & 0x3) << 6) | v3) & 0xFF];
        }
      }
      i := i + 4;
    }
    DecodeRest(text, i);
  }

  lemma DecodeRest(text: seq<Word>, i: nat)
    requires i <= |text| < i + 4
    ensures Decode(text[i..]) == []
  {
  }
}
