/** Compressing and expanding again: what an encoder that follows RFC 1951 writes expands to what was
    encoded. */
module RoundTrips {
  import opened BitMath
  import opened Words
  import opened Huffman
  import opened Deflate
  import opened ZLib
  import opened ZlibFormat
  import InfUtil
  import InfTrees
  import Decoding
  import Adler32

  // ---- Huffman codes ----

  /** The bits of symbol s's code, the first one lowest. */
  ghost function CodeBits(lens: Lengths, s: nat): (x: nat)
    requires s < |lens| && lens[s] > 0 && Kraft(lens) <= P2(MAX_BITS)
    ensures x < P2(lens[s]) && Msb(x, lens[s]) == Code(lens, s)
  {
    CodeFits(lens, s);
    assert exists x: nat :: x < P2(lens[s]) && Msb(x, lens[s]) == Code(lens, s) by {
      var x := FromMsb(Code(lens, s), lens[s]);
    }
    var x: nat :| x < P2(lens[s]) && Msb(x, lens[s]) == Code(lens, s);
    x
  }

  /** A code has no more bits than its length says, as long as the Kraft sum is not exceeded. */
  lemma CodeFits(lens: Lengths, s: nat)
    requires s < |lens| && lens[s] > 0 && Kraft(lens) <= P2(MAX_BITS)
    ensures Code(lens, s) < P2(lens[s])
  {
    hide Shl, P2, Start, NextCode, Count;
    var c, k, idx := Counts(lens), lens[s], Count(lens, s, lens[s]);
    CountStrict(lens, s, |lens|);
    LoBelow(c, k, idx);
    StartMono(c, k + 1, MAX_BITS + 1);
    StartIsNextCode(c, k);
    ShlPlus(NextCode(c, k), idx, MAX_BITS - k);
    ShlNext(NextCode(c, k) + idx, MAX_BITS - k);
    ShlP2(k, MAX_BITS - k);
    assert Lo(c, k, idx) == Shl(Code(lens, s), MAX_BITS - k);
    if Code(lens, s) >= P2(k) {
      ShlMono(P2(k), Code(lens, s), MAX_BITS - k);
      assert false;
    }
  }

  predicate Encodable(lens: Lengths, syms: seq<nat>) {
    forall i :: 0 <= i < |syms| ==> syms[i] < |lens| && lens[syms[i]] > 0
  }

  /** The codes of syms one after the other, as a stream, with tail behind them. */
  ghost function Encode(lens: Lengths, syms: seq<nat>, tail: nat): nat
    requires Encodable(lens, syms) && Kraft(lens) <= P2(MAX_BITS)
  {
    if syms == [] then tail else CodeBits(lens, syms[0]) + Shl(Encode(lens, syms[1..], tail), lens[syms[0]])
  }

  /** The next n symbols of a stream, and what is left of it. */
  function DecodeAll(lens: Lengths, x: nat, n: nat): (r: (seq<nat>, nat))
    decreases n
  {
    if n == 0 then ([], x)
    else
      match Decode(lens, x)
      case NoSymbol => ([], x)
      case Symbol(s) =>
        var (syms, rest) := DecodeAll(lens, Shr(x, lens[s]), n - 1);
        ([s] + syms, rest)
  }

  /** Canonical codes can be read back one after the other, whatever follows. */
  lemma {:induction false} CodesRoundTrip(lens: Lengths, syms: seq<nat>, tail: nat)
    requires Encodable(lens, syms) && Kraft(lens) <= P2(MAX_BITS)
    ensures DecodeAll(lens, Encode(lens, syms, tail), |syms|) == (syms, tail)
    decreases |syms|
  {
    hide Shl, Shr, P2, Low, Msb, Kraft, Decode, Code;
    if syms != [] {
      var s, rest := syms[0], Encode(lens, syms[1..], tail);
      var x := Encode(lens, syms, tail);
      ShrLowUnique(x, lens[s], rest, CodeBits(lens, s));
      MsbLow(x, lens[s], lens[s]);
      MsbLow(CodeBits(lens, s), lens[s], lens[s]);
      LowSmall(CodeBits(lens, s), lens[s]);
      DecodeIs(lens, s, x);
      CodesRoundTrip(lens, syms[1..], tail);
      assert [s] + syms[1..] == syms;
    }
  }

  // ---- Stored blocks ----

  const MAX_STORED := 0xffff

  /** A stored block (section 3.2.4) that starts at a byte boundary. */
  function StoredBlock(d: seq<byte>, last: bool): seq<byte>
    requires |d| <= MAX_STORED
  {
    [if last then 1 else 0, |d| % 256, |d| / 256, 255 - |d| % 256, 255 - |d| / 256] + d
  }

  /** Data as stored blocks. */
  function Pack(d: seq<byte>): seq<byte> {
    if |d| <= MAX_STORED then StoredBlock(d, true)
    else StoredBlock(d[..MAX_STORED], false) + Pack(d[MAX_STORED..])
  }

  /** The low bits of a byte of the input, and two bytes of it. */
  lemma ByteBits(st: Stream, p: nat)
    requires p < |st.data|
    ensures Bits(st, 8 * p, 3) == st.data[p] % 8 && Bits(st, 8 * p, 8) == st.data[p]
    ensures p + 1 < |st.data| ==> Bits(st, 8 * p, 16) == st.data[p] + 256 * (st.data[p + 1] as nat)
  {
    hide Shl, Shr, P2, Num, Low;
    var x := Num(st.data);
    InfUtil.ByteAt(st.data, p);
    LowOfLow(Shr(x, 8 * p), 3, 8);
    LowThree(st.data[p]);
    if p + 1 < |st.data| {
      InfUtil.ByteAt(st.data, p + 1);
      CutTwice(x, 8 * p, 8);
      CutTwice(Shr(x, 8 * p), 8, 8);
      ShlEight(st.data[p + 1]);
    }
  }

  lemma LowThree(b: nat)
    ensures Low(b, 3) == b % 8
  {
    LowHalf(b, 3);
    LowHalf(b / 2, 2);
    LowHalf(b / 4, 1);
    NoBits(b / 8);
  }

  lemma ShlEight(b: nat)
    ensures Shl(b, 8) == 256 * b
  {
    ShlDouble(b, 7);
    ShlDouble(2 * b, 6);
    ShlDouble(4 * b, 5);
    ShlDouble(8 * b, 4);
    ShlDouble(16 * b, 3);
    ShlDouble(32 * b, 2);
    ShlDouble(64 * b, 1);
    assert Shl(128 * b, 1) == 256 * b;
  }

  /** One stored block is taken in. */
  lemma StoredBlockReads(st: Stream, p: nat, d: seq<byte>, last: bool, out: seq<byte>)
    requires |d| <= MAX_STORED && p + 5 + |d| <= |st.data| && st.data[p..p + 5 + |d|] == StoredBlock(d, last)
    ensures Block(st, 8 * p, out) == EndBlock(st, 8 * (p + 5 + |d|), out + d, last)
  {
    hide EndBlock, Bits, Codes, Table, Align;
    var b := StoredBlock(d, last);
    assert |b| == 5 + |d|;
    forall k | 0 <= k < 5
      ensures st.data[p + k] == b[k]
    {
      assert st.data[p..p + 5 + |d|][k] == b[k];
    }
    assert st.data[p + 1] == b[1] && st.data[p + 2] == b[2] && st.data[p + 3] == b[3] && st.data[p + 4] == b[4];
    assert (p + 1) + 1 == p + 2 && (p + 3) + 1 == p + 4;
    ByteBits(st, p);
    ByteBits(st, p + 1);
    ByteBits(st, p + 3);
    assert st.data[p + 5..p + 5 + |d|] == st.data[p..p + 5 + |d|][5..] == d;
    NextByteAt(p);
    var q := 8 * (p + 1);
    assert Block(st, 8 * p, out) == StoredHeader(st, q, out, last);
    assert q + 16 == 8 * (p + 3) && BlockData(q) == p + 5;
    assert Bits(st, q, 16) == |d|;
    assert Bits(st, q + 16, 16) == 0xffff - |d|;
    assert StoredHeader(st, q, out, last) == Stored(st, p + 5, |d|, out, last);
  }

  lemma NextByteAt(p: nat)
    ensures Align(8 * p + 3) == 8 * (p + 1)
  {
  }

  /** Packed data expands to the data, whatever comes before and after. */
  lemma {:induction false} PackInflates(pre: seq<byte>, d: seq<byte>, post: seq<byte>, w: nat, looks: bool,
                                        out: seq<byte>)
    ensures Block(Stream(pre + Pack(d) + post, w, looks), 8 * |pre|, out) == Complete(out + d, 8 * (|pre| + |Pack(d)|))
    decreases |d|
  {
    hide Block;
    var st := Stream(pre + Pack(d) + post, w, looks);
    var p := |pre|;
    if |d| <= MAX_STORED {
      assert st.data[p..p + 5 + |d|] == StoredBlock(d, true);
      StoredBlockReads(st, p, d, true, out);
    } else {
      var d0, d1 := d[..MAX_STORED], d[MAX_STORED..];
      var b := StoredBlock(d0, false);
      assert |b| == 5 + MAX_STORED;
      assert st.data == pre + b + Pack(d1) + post;
      assert st.data[p..p + 5 + MAX_STORED] == b;
      StoredBlockReads(st, p, d0, false, out);
      PackInflates(pre + b, d1, post, w, looks, out + d0);
      assert out + d0 + d1 == out + d;
    }
  }

  /** Raw packed data holds the data and ends where the packing ends. */
  lemma PackedContents(d: seq<byte>, post: seq<byte>, wbits: nat, looks: bool)
    ensures Unwrapped(Pack(d) + post, 0, wbits, true, looks) == Done(d, |Pack(d)|)
  {
    hide Block, Pack, P2;
    PackInflates([], d, post, P2(wbits), looks, []);
    assert [] + Pack(d) + post == Pack(d) + post;
    assert [] + d == d;
  }

  /** A stored block, and then one of the reserved type: the data of the stored block, and an error. */
  lemma ReservedAfter(d: seq<byte>, wbits: nat, looks: bool)
    requires |d| <= MAX_STORED
    ensures Unwrapped(StoredBlock(d, false) + [7], 0, wbits, true, looks) == Corrupt(d, 0)
  {
    hide P2, Bits, StoredHeader, Codes, Table, StoredBlock;
    var st := Stream(StoredBlock(d, false) + [7], P2(wbits), looks);
    var p := 5 + |d|;
    BlockSize(d);
    assert st.data[0..p] == StoredBlock(d, false);
    StoredBlockReads(st, 0, d, false, []);
    assert [] + d == d;
    ByteBits(st, p);
    assert st.data[p] == 7;
  }

  lemma BlockSize(d: seq<byte>)
    requires |d| <= MAX_STORED
    ensures |StoredBlock(d, false)| == 5 + |d|
  {
  }

  // ---- A block with codes before an error ----

  /** A fixed block of one literal, and then a block of the reserved type. */
  const HELD: seq<byte> := [0x72, 0x04, 0x1c]

  lemma HeldWord()
    ensures |HELD| == 3 && Num(HELD) == 0x1c0472
  {
    assert HELD[1..] == [0x04, 0x1c] && HELD[1..][1..] == [0x1c] && HELD[1..][1..][1..] == [];
    ShlEight(0x1c);
    ShlEight(0x1c04);
    hide Shl;
    assert Num([]) == 0;
    ShlEight(0);
    assert Num([0x1c]) == 0x1c;
    assert Num([0x04, 0x1c]) == 0x1c04;
  }

  lemma HeldShifts()
    ensures Shr(0x1c0472, 3) == 0x3808e && Shr(0x1c0472, 11) == 0x380 && Shr(0x1c0472, 18) == 7
  {
    assert Shl(0x3808e, 3) == 0x1c0470;
    assert Shl(0x380, 11) == 0x1c0000;
    assert Shl(7, 9) == 0xe00 && Shl(0xe00, 9) == 0x1c0000;
    ShlShl(7, 9, 9);
    P2Small();
    P2Mono(11, 18);
    hide Shl, Shr, P2, Low;
    ShrLowUnique(0x1c0472, 3, 0x3808e, 2);
    ShrLowUnique(0x1c0472, 11, 0x380, 0x472);
    ShrLowUnique(0x1c0472, 18, 7, 0x472);
  }

  lemma HeldReads()
    ensures Msb(0x8e, 8) == 0x71 && Msb(0, 7) == 0
  {
    hide P2, Shl, Low;
    NoBits(0);
    assert Msb(0, 4) == 0;
    assert Msb(0x8e, 4) == 7;
  }

  lemma HeldBits(w: nat)
    ensures var s := Stream(HELD, w, false);
            && End(s) == 24 && Bits(s, 0, 3) == 2 && Bits(s, 18, 3) == 7
            && Msb(At(s, 3), 8) == 0x71 && Msb(At(s, 11), 7) == 0
  {
    hide Num, Shr, Shl, Msb, Low, P2, HELD;
    HeldWord();
    HeldShifts();
    HeldReads();
    LowThree(7);
    NoBits(0x1c0472);
    LowThree(0x1c0472);
    MsbLow(0x3808e, 8, 8);
    MsbLow(0x380, 7, 7);
    P2Small();
    ShlEight(0x380);
    ShrLowUnique(0x3808e, 8, 0x380, 0x8e);
    assert Shl(7, 7) == 0x380 by { ShlSeven(7); }
    ShrLowUnique(0x380, 7, 7, 0);
  }

  lemma ShlSeven(b: nat)
    ensures Shl(b, 7) == 128 * b
  {
    ShlDouble(b, 6);
    ShlDouble(2 * b, 5);
    ShlDouble(4 * b, 4);
    ShlDouble(8 * b, 3);
    ShlDouble(16 * b, 2);
    ShlDouble(32 * b, 1);
    assert Shl(64 * b, 1) == 128 * b;
  }

  lemma NeedPlain(s: Stream, b: Lengths, m: nat, x: nat, v: nat)
    requires !s.looks && v < |b| && Decode(b, x) == Symbol(v)
    ensures Need(s, b, m, x) == b[v]
  {
    hide Decode;
  }

  lemma FixedSize()
    ensures |FixedLit()| == 288
  {
  }

  /** One code, by the format alone. */
  lemma PlainSymbol(s: Stream, pos: nat, out: seq<byte>, c: Coding, v: nat)
    requires !s.looks && v <= 256 && Matches(c.lit, v, At(s, pos)) && pos + c.lit[v] <= End(s)
    ensures v < 256 ==> OneSymbol(s, pos, out, c) == Went(pos + c.lit[v], out + [v])
    ensures v == 256 ==> OneSymbol(s, pos, out, c) == Ended(pos + c.lit[v])
  {
    assert v < |c.lit| && c.lit[v] > 0;
    hide At, Matches, Decode, OneSymbol, LengthExtra, Need, CodeLength;
    DecodeIs(c.lit, v, At(s, pos));
    NeedPlain(s, c.lit, c.lbits, At(s, pos), v);
    Decoding.OneSymbolAt(s, pos, out, c);
  }

  /** One literal, the end of the block, and an error right behind it. */
  lemma HeldContents(wbits: nat)
    ensures Unwrapped(HELD, 0, wbits, true, false) == Corrupt([0x41], 1)
  {
    hide P2, Bits, At, Msb, FixedLit, FixedDist, Code, HELD, StoredHeader, Table, OneSymbol;
    var s := Stream(HELD, P2(wbits), false);
    var c := FixedCoding(false);
    HeldBits(P2(wbits));
    InfTrees.FixedCodes();
    assert |c.lit| == 288 by { FixedSize(); }
    PlainSymbol(s, 3, [], c, 65);
    PlainSymbol(s, 11, [0x41], c, 256);
    assert [] + [65 as byte] == [0x41];
    assert Block(s, 18, [0x41]) == Bad([0x41], 0);
    assert Codes(s, 11, [0x41], c) == Bad([0x41], 1);
    assert Codes(s, 3, [], c) == Bad([0x41], 1);
  }

  /** The end of a wrapped stream is reported only if the sum over all it holds is right. */
  lemma EndMeansChecked(data: seq<byte>, start: nat, wbits: nat, looks: bool)
    requires Zlib(data, start, wbits, looks).Done?
    ensures var c := Zlib(data, start, wbits, looks);
            4 <= c.end <= |data| && Word(data, c.end - 4) == Adler32.Adler(1, c.out)
  {
    hide Block, P2, Adler32.Adler;
  }
}
