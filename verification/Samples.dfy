/** Streams byte by byte and bit by bit, and what they expand to. */
module Samples {
  import opened BitMath
  import opened Words
  import opened Huffman
  import opened Deflate
  import opened ZLib
  import opened ZlibFormat
  import opened BitStrings
  import opened MatchCodes
  import opened Tokens
  import opened DeflateWriter
  import opened ZlibWriter
  import Adler32
  import InfTrees

  // ---- A zlib stream with a match ----

  const ABC: seq<byte> := [0x61, 0x62, 0x63]
  const ABCBCB: seq<byte> := [0x61, 0x62, 0x63, 0x62, 0x63, 0x62]

  const SHORT_ZLIB: seq<byte> := [0x78, 0xda, 0x4b, 0x4c, 0x4a, 0x06, 0x42, 0x00, 0x08, 0x10, 0x02, 0x4e]

  /** Three letters, and two of them again and again. */
  const SHORT_TOKENS: seq<Token> := [Literal(0x61), Literal(0x62), Literal(0x63), Match(3, 2)]

  /** A code of the fixed set as it is sent. */
  lemma FixedSymbol(v: nat)
    requires v < 288
    ensures |FixedLit()| == 288
    ensures SymbolBits(FixedLit(), v)
            == if v < 144 then MsbFirst(0x30 + v, 8)
               else if v < 256 then MsbFirst(0x190 + (v - 144), 9)
               else if v < 280 then MsbFirst(v - 256, 7)
               else MsbFirst(0xc0 + (v - 280), 8)
  {
    hide Code, MsbFirst;
    InfTrees.FixedCode(v);
  }

  lemma FixedDistance(v: nat)
    requires v < 30
    ensures |FixedDist()| == 30 && SymbolBits(FixedDist(), v) == MsbFirst(v, 5)
  {
    hide Code, MsbFirst;
    InfTrees.FixedDistanceCode(v);
  }

  /** A length of three and a distance of two have the first and the second symbol and no extra bits. */
  lemma ShortMatch()
    ensures LengthSymbol(3) == 257 && LengthExtraBits(3) == 0
    ensures DistanceSymbol(2) == 1 && DistanceExtraBits(2) == 0
  {
    P2Small();
    NoBits(0);
    NoBits(1);
  }

  lemma NibbleString(v: nat)
    requires v < 16
    ensures MsbFirst(v, 4) == [v / 8 == 1, v / 4 % 2 == 1, v / 2 % 2 == 1, v % 2 == 1]
  {
    assert v / 2 / 2 == v / 4 && v / 4 / 2 == v / 8;
  }

  lemma LetterString(l: nat)
    requires l < 16
    ensures MsbFirst(0x90 + l, 8) == [true, false, false, true] + MsbFirst(l, 4)
  {
    assert Shl(9, 4) == 0x90 && P2(4) == 16;
    hide Shl, MsbFirst, P2;
    MsbParts(9, l, 4, 4);
    NibbleString(9);
  }

  lemma LowStrings()
    ensures MsbFirst(1, 7) == [false, false, false, false, false, false, true]
    ensures MsbFirst(0, 7) == [false, false, false, false, false, false, false]
    ensures MsbFirst(1, 5) == [false, false, false, false, true]
  {
    assert MsbFirst(0, 6) == [false, false, false, false, false, false];
  }

  lemma Letters()
    ensures SymbolBits(FixedLit(), 0x61) == [true, false, false, true, false, false, false, true]
    ensures SymbolBits(FixedLit(), 0x62) == [true, false, false, true, false, false, true, false]
    ensures SymbolBits(FixedLit(), 0x63) == [true, false, false, true, false, false, true, true]
    ensures SymbolBits(FixedLit(), 257) == [false, false, false, false, false, false, true]
    ensures SymbolBits(FixedLit(), 256) == [false, false, false, false, false, false, false]
    ensures SymbolBits(FixedDist(), 1) == [false, false, false, false, true]
  {
    hide SymbolBits, FixedLit, FixedDist, MsbFirst;
    LetterString(1);
    LetterString(2);
    LetterString(3);
    NibbleString(1);
    NibbleString(2);
    NibbleString(3);
    LowStrings();
    FixedSymbol(0x61);
    FixedSymbol(0x62);
    FixedSymbol(0x63);
    FixedSymbol(257);
    FixedSymbol(256);
    FixedDistance(1);
  }

  /** The block of these tokens, bit by bit. */
  const SHORT_BITS: Bitstring :=
    [true, true, false, true, false, false, true, false]
    + ([false, false, true, true, false, false, true, false]
    + ([false, true, false, true, false, false, true, false]
    + ([false, true, true, false, false, false, false, false]
    + ([false, true, false, false, false, false, true, false]
    + [false, false, false, false, false, false]))))

  lemma ShortWritable()
    ensures AllWritable(SHORT_TOKENS, FixedLit(), FixedDist()) && Coded(FixedLit(), END_OF_BLOCK)
    ensures AllPossible(SHORT_TOKENS, [], 0x8000) && ApplyAll(SHORT_TOKENS, [], 0x8000) == ABCBCB
  {
    ShortMatch();
    ShortMeans();
    hide LengthSymbol, DistanceSymbol;
    forall i | 0 <= i < |SHORT_TOKENS|
      ensures Writable(SHORT_TOKENS[i], FixedLit(), FixedDist())
    {
    }
  }

  /** A token in front of others. */
  lemma TokenFirst(t: Token, ts: seq<Token>, out: seq<byte>, w: nat)
    requires Possible(t, out, w) && AllPossible(ts, Apply(t, out, w), w)
    ensures AllPossible([t] + ts, out, w) && ApplyAll([t] + ts, out, w) == ApplyAll(ts, Apply(t, out, w), w)
  {
    assert ([t] + ts)[1..] == ts;
  }

  lemma ShortMeans()
    ensures AllPossible(SHORT_TOKENS, [], 0x8000) && ApplyAll(SHORT_TOKENS, [], 0x8000) == ABCBCB
  {
    assert CopyMatch(ABC, 3, 2) == ABCBCB by {
      var c1: seq<byte>, c2: seq<byte> := ABC + [0x62], ABC + [0x62, 0x63];
      assert c1 + [0x63] == c2 && c2 + [0x62] == ABCBCB;
      assert CopyMatch(ABCBCB, 0, 2) == ABCBCB;
      assert CopyMatch(c2, 1, 2) == ABCBCB;
      assert CopyMatch(c1, 2, 2) == ABCBCB;
    }
    hide CopyMatch, AllPossible, ApplyAll;
    var w := 0x8000;
    NoTokens(ABCBCB, w);
    var t4, t3, t2, t1 := Match(3, 2), Literal(0x63), Literal(0x62), Literal(0x61);
    assert [] + [0x61 as byte] == [0x61] && [0x61 as byte] + [0x62] == [0x61, 0x62];
    assert [0x61 as byte, 0x62] + [0x63] == ABC;
    TokenFirst(t4, [], ABC, w);
    TokenFirst(t3, [t4], [0x61, 0x62], w);
    TokenFirst(t2, [t3, t4], [0x61], w);
    TokenFirst(t1, [t2, t3, t4], [], w);
  }

  lemma NoTokens(out: seq<byte>, w: nat)
    ensures AllPossible([], out, w) && ApplyAll([], out, w) == out
  {
  }

  /** The same, code by code. */
  lemma ShortCodes()
    ensures SHORT_BITS
            == [true, true, false] + ([true, false, false, true, false, false, false, true]
               + ([true, false, false, true, false, false, true, false]
               + ([true, false, false, true, false, false, true, true]
               + (([false, false, false, false, false, false, true] + [false, false, false, false, true])
               + [false, false, false, false, false, false, false]))))
  {
  }

  lemma ShortBits()
    requires AllWritable(SHORT_TOKENS, FixedLit(), FixedDist()) && Coded(FixedLit(), END_OF_BLOCK)
    ensures PartsBits([WithFixed(SHORT_TOKENS)], 16) == SHORT_BITS
  {
    hide FixedLit, FixedDist, SymbolBits, LengthSymbol, LengthExtraBits, DistanceSymbol, DistanceExtraBits, SHORT_BITS;
    ShortCodes();
    Letters();
    ShortMatch();
    var lit, dist := FixedLit(), FixedDist();
    var t1, t2, t3 := SHORT_TOKENS[1..], SHORT_TOKENS[2..], SHORT_TOKENS[3..];
    assert t3 == [Match(3, 2)] && t3[1..] == [] && t2[1..] == t3 && t1[1..] == t2;
    var e := SymbolBits(lit, 256);
    var m := TokenBits(Match(3, 2), lit, dist);
    assert Lsb(Low(0, 0), 0) == [];
    assert m == SymbolBits(lit, 257) + SymbolBits(dist, 1);
    assert TokensBits(t3, lit, dist) == m + e;
    assert TokensBits(t2, lit, dist) == SymbolBits(lit, 0x63) + (m + e);
    assert TokensBits(t1, lit, dist) == SymbolBits(lit, 0x62) + (SymbolBits(lit, 0x63) + (m + e));
    assert HeaderBits(WithFixed(SHORT_TOKENS), true) == [true, true, false];
  }

  function Unit(x: bool): (n: nat) { if x then 1 else 0 }

  lemma ValueAt(b: Bitstring, k: nat)
    requires k < |b|
    ensures Value(b[k..]) == Unit(b[k]) + 2 * Value(b[k + 1..])
  {
    assert b[k..][1..] == b[k + 1..];
  }

  function Eight(b: Bitstring): nat
    requires |b| == 8
  {
    Unit(b[0]) + 2 * Unit(b[1]) + 4 * Unit(b[2]) + 8 * Unit(b[3])
    + 16 * (Unit(b[4]) + 2 * Unit(b[5]) + 4 * Unit(b[6]) + 8 * Unit(b[7]))
  }

  lemma EightValue(b: Bitstring)
    requires |b| == 8
    ensures Value(b) == Eight(b)
  {
    hide Value, Unit;
    ValueAt(b, 0);
    ValueAt(b, 1);
    ValueAt(b, 2);
    ValueAt(b, 3);
    ValueAt(b, 4);
    ValueAt(b, 5);
    ValueAt(b, 6);
    ValueAt(b, 7);
    assert b[0..] == b && b[8..] == [];
    NoValue();
  }

  lemma PackedFirst(v: byte, b: Bitstring, c: Bitstring)
    requires |b| == 8 && v == Eight(b)
    ensures Packed(b + c) == [v] + Packed(c)
  {
    hide Value, Packed, Eight;
    PackedNext(b + c);
    EightValue(b);
    assert (b + c)[..8] == b && (b + c)[8..] == c;
  }

  lemma PackedNext(b: Bitstring)
    requires |b| >= 8
    ensures Value(b[..8]) < 256 && Packed(b) == [Value(b[..8])] + Packed(b[8..])
  {
    ValueBound(b[..8], 8);
  }

  lemma NoValue()
    ensures Value([]) == 0
  {
  }

  lemma LastByte()
    ensures Packed([false, false, false, false, false, false]) == [0]
  {
    assert Value([false, false, false, false, false, false]) == 0;
  }

  lemma ShortPacked()
    ensures Packed(SHORT_BITS) == [0x4b, 0x4c, 0x4a, 0x06, 0x42, 0x00]
  {
    hide Packed;
    LastByte();
    var b5 := [false, false, false, false, false, false];
    var b4 := [false, true, false, false, false, false, true, false] + b5;
    PackedFirst(0x42, [false, true, false, false, false, false, true, false], b5);
    var b3 := [false, true, true, false, false, false, false, false] + b4;
    PackedFirst(0x06, [false, true, true, false, false, false, false, false], b4);
    var b2 := [false, true, false, true, false, false, true, false] + b3;
    PackedFirst(0x4a, [false, true, false, true, false, false, true, false], b3);
    var b1 := [false, false, true, true, false, false, true, false] + b2;
    PackedFirst(0x4c, [false, false, true, true, false, false, true, false], b2);
    var b0 := [true, true, false, true, false, false, true, false] + b1;
    PackedFirst(0x4b, [true, true, false, true, false, false, true, false], b1);
    assert SHORT_BITS == b0;
  }

  lemma ShortSum()
    ensures Adler32.Adler(1, ABCBCB) == 0x0810024e
  {
    var d := ABCBCB;
    assert d[..5] == [0x61, 0x62, 0x63, 0x62, 0x63] && d[..5][..4] == [0x61, 0x62, 0x63, 0x62];
    assert d[..5][..4][..3] == ABC && ABC[..2] == [0x61, 0x62] && ABC[..2][..1] == [0x61];
    hide Adler32.SumA, Adler32.SumB;
    Adler32.NothingSummed(1, 0);
    forall i | 0 <= i < 6
      ensures Adler32.SumA(1, d[..i + 1]) == Adler32.SumA(1, d[..i]) + d[i]
      ensures Adler32.SumB(1, 0, d[..i + 1]) == Adler32.SumB(1, 0, d[..i]) + Adler32.SumA(1, d[..i + 1])
    {
      Adler32.SumStep(1, 0, d, i);
    }
    assert d[..0] == [] && d[..6] == d;
    assert Adler32.SumA(1, d[..1]) == 98 && Adler32.SumA(1, d[..2]) == 196 && Adler32.SumA(1, d[..3]) == 295;
    assert Adler32.SumA(1, d[..4]) == 393 && Adler32.SumA(1, d[..5]) == 492 && Adler32.SumA(1, d[..6]) == 590;
  }

  /** This stream, byte by byte, holds abcbcb. */
  lemma ShortContents(looks: bool)
    ensures Zlib(SHORT_ZLIB, 0, 15, looks) == Done(ABCBCB, 12)
  {
    hide FixedLit, FixedDist, AllWritable, AllPossible, ApplyAll, TokensBits, Adler32.Adler, Zlib;
    P2Small();
    hide P2;
    ShortWritable();
    ShortBits();
    ShortPacked();
    ShortSum();
    var ps := [WithFixed(SHORT_TOKENS)];
    assert ps[1..] == [];
    assert AllFormed(ps) && AllFollow(ps, [], 0x8000) && UnpackedAll(ps, [], 0x8000) == ABCBCB;
    hide PartsBits, Packed, SHORT_BITS, UnpackedAll;
    assert MethodByte(15) == 0x78 && FlagByte(15, 3, false) == 0xda;
    assert Bytes(0x0810024e) == [0x08, 0x10, 0x02, 0x4e];
    ZlibRoundTrip(ps, 15, 3, [], 15, looks);
    assert ZlibFile(ps, 15, 3) + [] == SHORT_ZLIB;
  }
}
