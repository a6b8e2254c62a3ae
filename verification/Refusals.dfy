/** What a decompressor must refuse: blocks that break a rule of RFC 1951, bit by bit. */
module Refusals {
  import opened BitMath
  import opened Huffman
  import opened Deflate
  import opened ZLib
  import opened BitStrings
  import opened Tokens
  import opened Codebooks
  import opened InfTrees
  import Decoding

  /** A block of the reserved type. */
  lemma ReservedType(s: Stream, pos: nat, out: seq<byte>, last: bool)
    requires Written(s, pos, [last] + Lsb(3, 2))
    ensures Block(s, pos, out) == Bad(out, 0)
  {
    var v := 6 + if last then 1 else 0;
    P2Small();
    assert Lsb(v, 3) == [last] + Lsb(3, 2);
    hide Bits, Lsb, P2;
    ReadLsb(s, pos, v, 3);
  }

  /** A stored block whose length is not repeated right. */
  lemma WrongComplement(s: Stream, pos: nat, out: seq<byte>, last: bool, len: nat, nlen: nat)
    requires len <= 0xffff && nlen <= 0xffff && pos % 8 == 0 && Written(s, pos, Lsb(len, 16) + Lsb(nlen, 16))
    ensures nlen != 0xffff - len ==> StoredHeader(s, pos, out, last) == Bad(out, 0)
  {
    hide Written, Lsb, Bits, Stored, P2;
    P2Small();
    WrittenParts(s, pos, Lsb(len, 16), Lsb(nlen, 16));
    ReadLsb(s, pos, len, 16);
    ReadLsb(s, pos + 16, nlen, 16);
    WrittenWithin(s, pos + 16, Lsb(nlen, 16));
  }

  /** More than 286 codes of literals and lengths, or more than 30 of distances. */
  lemma TooManyCodes(s: Stream, pos: nat, out: seq<byte>, last: bool, nl: nat, nd: nat, n: nat)
    requires 257 <= nl <= 288 && 1 <= nd <= 32 && 4 <= n <= 19
    requires Written(s, pos, Lsb(nl - 257, 5) + Lsb(nd - 1, 5) + Lsb(n - 4, 4))
    ensures nl > 286 || nd > 30 ==> Table(s, pos, out, last) == Bad(out, 0)
    ensures nl <= 286 && nd <= 30 ==> Table(s, pos, out, last) == CodeLengthCode(s, pos + 14, out, last, nl, nd, n)
  {
    hide Written, Lsb, Bits, CodeLengthCode, P2;
    P2Small();
    WrittenParts(s, pos, Lsb(nl - 257, 5) + Lsb(nd - 1, 5), Lsb(n - 4, 4));
    WrittenParts(s, pos, Lsb(nl - 257, 5), Lsb(nd - 1, 5));
    ReadLsb(s, pos, nl - 257, 5);
    ReadLsb(s, pos + 5, nd - 1, 5);
    ReadLsb(s, pos + 10, n - 4, 4);
    WrittenWithin(s, pos + 10, Lsb(n - 4, 4));
  }

  /** A code length code that is neither complete nor a single code of one bit. */
  lemma WrongLengthCode(s: Stream, pos: nat, out: seq<byte>, last: bool, nl: nat, nd: nat, n: nat, bl: Lengths)
    requires Sendable(bl, n) && Written(s, pos, OrderBits(bl, 0, n))
    requires exists v :: 0 <= v < |bl| && bl[v] > 0
    ensures Kraft(bl) != P2(MAX_BITS) && !(Count(bl, |bl|, 1) == 1 && Count(bl, |bl|, 0) == |bl| - 1) ==>
              CodeLengthCode(s, pos, out, last, nl, nd, n) == Bad(out, 0)
  {
    hide Written, OrderBits, Kraft, P2, CodeLengthLengths, LengthCodes, Usable, Count;
    CodeLengthsRead(s, pos, bl, n);
    WrittenWithin(s, pos, OrderBits(bl, 0, n));
    UsableByCounts(bl);
    var v :| 0 <= v < |bl| && bl[v] > 0;
    NotEmpty(bl, |bl|, v);
  }

  /** A copy of the length before the first one, and a run beyond the last one. */
  lemma WrongRun(s: Stream, pos: nat, out: seq<byte>, last: bool, nl: nat, nd: nat, bl: Lengths, lens: Lengths,
                 c: Command)
    requires !s.looks && Prefix(bl) && !c.Len? && Proper(c, 1) && Coded(bl, CommandSymbol(c)) && |lens| < nl + nd
    requires Written(s, pos, CommandBits(c, bl))
    ensures (c.CopyPrevious? && lens == []) || |lens| + c.n > nl + nd ==>
              LengthCodes(s, pos, out, last, nl, nd, bl, lens) == Bad(out, 0)
  {
    hide Written, SymbolBits, Prefix, CommandExtra, RepeatCode, LengthCodes;
    WrittenParts(s, pos, SymbolBits(bl, CommandSymbol(c)), CommandExtra(c));
    SymbolSize(bl, CommandSymbol(c));
    LengthSymbolRead(s, pos, out, last, nl, nd, bl, lens, CommandSymbol(c));
    RunRead(s, pos + bl[CommandSymbol(c)], out, last, nl, nd, bl, lens, c);
  }

  lemma RunRead(s: Stream, pos: nat, out: seq<byte>, last: bool, nl: nat, nd: nat, bl: Lengths, lens: Lengths,
                c: Command)
    requires !c.Len? && Proper(c, 1) && Written(s, pos, CommandExtra(c))
    ensures (c.CopyPrevious? && lens == []) || |lens| + c.n > nl + nd ==>
              RepeatCode(s, pos, out, last, nl, nd, bl, lens, CommandSymbol(c)) == Bad(out, 0)
  {
    P2Small();
    hide Bits, LengthCodes, P2, Lsb;
    match c
    case CopyPrevious(n) => ReadLsb(s, pos, n - 3, 2);
    case ZerosShort(n) => ReadLsb(s, pos, n - 3, 3);
    case ZerosLong(n) => ReadLsb(s, pos, n - 11, 7);
  }

  /** Code sets of a block that are neither complete nor a single code of one bit; only distances may have
      none at all. */
  lemma WrongCodes(s: Stream, pos: nat, out: seq<byte>, c: Coding)
    requires !Empty(c.lit)
    ensures Kraft(c.lit) != P2(MAX_BITS) && !(Count(c.lit, |c.lit|, 1) == 1 && Count(c.lit, |c.lit|, 0) == |c.lit| - 1)
            ==> Trees(s, pos, out, c) == Bad(out, 0)
    ensures && Kraft(c.dist) != P2(MAX_BITS) && Count(c.dist, |c.dist|, 0) != |c.dist|
            && !(Count(c.dist, |c.dist|, 1) == 1 && Count(c.dist, |c.dist|, 0) == |c.dist| - 1)
            ==> Trees(s, pos, out, c) == Bad(out, 0)
  {
    hide Codes, Kraft, P2, Usable, Count;
    UsableByCounts(c.lit);
    UsableByCounts(c.dist);
  }

  /** The distance symbols 30 and 31 of a fixed block. */
  lemma WrongDistance(s: Stream, pos: nat, out: seq<byte>, last: bool, len: nat, v: nat)
    requires !s.looks && 30 <= v < 32 && Written(s, pos, MsbFirst(v, 5))
    ensures Distance(s, pos, out, FixedCoding(last), len) == Broken
  {
    hide Written, MsbFirst, At, Need, Decode, FixedLit, Distance, P2;
    P2Small();
    WrittenWithin(s, pos, MsbFirst(v, 5));
    ReadMsb(s, pos, v, 5);
    var c := FixedCoding(last);
    var x := At(s, pos);
    NoDistance(x, v);
    assert !Empty(c.dist) && Count(c.dist, |c.dist|, 0) == 0 by { CountRun(c.dist, 0, 30, 5, 0); }
    Decoding.DistanceAt(s, pos, out, c, len);
    NeedNone(s, c.dist, FIXED_DBITS, x);
  }

  lemma NoDistance(x: nat, v: nat)
    requires Msb(x, 5) == v >= 30
    ensures Decode(FixedDist(), x).NoSymbol? && CodeLength(FixedDist(), x) == 5
  {
    hide Decode, Code, Msb;
    var b := FixedDist();
    var d := Decode(b, x);
    if d.Symbol? {
      FixedDistanceCode(d.value);
      assert false;
    }
    LongestFixed();
  }

  lemma LongestFixed()
    ensures Longest(Counts(FixedDist()), MAX_BITS) == 5
  {
    hide Count, Counts;
    var c := Counts(FixedDist());
    forall k | 0 <= k <= MAX_BITS
      ensures c[k] == if k == 5 then 30 else 0
    {
      FixedDistCounts(k);
    }
  }

  lemma NeedNone(s: Stream, b: Lengths, m: nat, x: nat)
    requires !s.looks
    ensures Need(s, b, m, x) == CodeLength(b, x)
  {
    hide CodeLength;
  }
}
