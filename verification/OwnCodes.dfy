/** A block that brings its own codes, bit by bit: literals and lengths from 30 on have codes of eight bits,
    and distances none. */
module OwnCodes {
  import opened BitMath
  import opened Huffman
  import opened Deflate
  import opened ZLib
  import opened ZlibFormat
  import opened BitStrings
  import opened Tokens
  import opened Codebooks
  import opened DeflateWriter
  import opened InfTrees
  import opened CodeCounts
  import Lookahead

  /** The code length codes: one bit for 0, two for 8 and for the long run of zeros. */
  const SAMPLE_BL: Lengths := [1, 0, 0, 0, 0, 0, 0, 0, 2, 0, 0, 0, 0, 0, 0, 0, 0, 0, 2]

  function Eights(n: nat): (cs: seq<Command>)
    ensures |cs| == n
  {
    seq(n, _ => Len(8))
  }

  const SAMPLE_COMMANDS: seq<Command> := [ZerosLong(29), Len(0)] + (Eights(256) + [ZerosLong(11)])

  const SAMPLE_BOOK := Codebook(286, 11, 5, SAMPLE_BL, SAMPLE_COMMANDS)

  function SampleLens(): (r: Lengths)
    ensures |r| == 297
  {
    seq(297, i requires 0 <= i < 297 => if 30 <= i < 286 then 8 else 0)
  }

  // ---- The codes ----

  lemma SampleCounts(k: nat)
    requires k <= MAX_BITS
    ensures Counts(SAMPLE_BL)[k] == if k == 0 then 16 else if k == 1 then 1 else if k == 2 then 2 else 0
  {
    var b := SAMPLE_BL;
    CountRun(b, 0, 1, 1, k);
    CountRun(b, 1, 8, 0, k);
    CountRun(b, 8, 9, 2, k);
    CountRun(b, 9, 18, 0, k);
    CountRun(b, 18, 19, 2, k);
  }

  /** One code of one bit and two of two bits. */
  lemma ThreeCodes(c: seq<nat>)
    requires |c| == MAX_BITS + 1 && c[1] == 1 && c[2] == 2 && forall k :: 3 <= k <= MAX_BITS ==> c[k] == 0
    ensures Start(c, MAX_BITS + 1) == P2(MAX_BITS) && NextCode(c, 1) == 0 && NextCode(c, 2) == 2
  {
    P2Small();
    hide Shl, P2, Start;
    ShlOne(14);
    ShlP2(1, 13);
    StartZero(c, 1);
    StartNext(c, 1);
    StartNext(c, 2);
    StartSame(c, 3, MAX_BITS + 1);
  }

  lemma SamplePlaces()
    ensures Count(SAMPLE_BL, 0, 1) == 0 && Count(SAMPLE_BL, 8, 2) == 0 && Count(SAMPLE_BL, 18, 2) == 1
  {
    var b := SAMPLE_BL;
    CountNone(b, 1);
    CountNone(b, 2);
    CountRun(b, 0, 1, 1, 2);
    CountRun(b, 1, 8, 0, 2);
    CountRun(b, 8, 9, 2, 2);
    CountRun(b, 9, 18, 0, 2);
  }

  lemma SampleUsable()
    ensures Usable(SAMPLE_BL) && Code(SAMPLE_BL, 0) == 0 && Code(SAMPLE_BL, 8) == 2 && Code(SAMPLE_BL, 18) == 3
  {
    assert |SAMPLE_BL| == 19 && SAMPLE_BL[0] == 1 && SAMPLE_BL[8] == 2 && SAMPLE_BL[18] == 2;
    hide SAMPLE_BL, Count, Counts, NextCode, Start, P2;
    SamplePlaces();
    forall k | 0 <= k <= MAX_BITS
      ensures Counts(SAMPLE_BL)[k] == if k == 0 then 16 else if k == 1 then 1 else if k == 2 then 2 else 0
    {
      SampleCounts(k);
    }
    ThreeCodes(Counts(SAMPLE_BL));
  }

  lemma LateCounts(b: Lengths, k: nat)
    requires k <= MAX_BITS && |b| == 286 && forall i :: 0 <= i < 286 ==> b[i] == if i < 30 then 0 else 8
    ensures Counts(b)[k] == if k == 0 then 30 else if k == 8 then 256 else 0
  {
    CountNone(b, k);
    CountRun(b, 0, 30, 0, k);
    CountRun(b, 30, 286, 8, k);
  }

  lemma LateCodes(b: Lengths)
    requires |b| == 286 && forall i :: 0 <= i < 286 ==> b[i] == if i < 30 then 0 else 8
    ensures Usable(b) && Code(b, 65) == 35 && Code(b, 256) == 226
  {
    hide Count, Counts, NextCode, Start, P2;
    forall k | 0 <= k <= MAX_BITS
      ensures Counts(b)[k] == if k == 0 then 30 else if k == 8 then 256 else 0
    {
      LateCounts(b, k);
    }
    CountNone(b, 8);
    CountRun(b, 0, 30, 0, 8);
    CountRun(b, 30, 65, 8, 8);
    CountRun(b, 30, 256, 8, 8);
    EightBits(Counts(b));
  }

  lemma EightBits(c: seq<nat>)
    requires |c| == MAX_BITS + 1 && c[8] == 256 && forall k :: 1 <= k <= MAX_BITS && k != 8 ==> c[k] == 0
    ensures Start(c, MAX_BITS + 1) == P2(MAX_BITS) && NextCode(c, 8) == 0
  {
    P2Small();
    hide Shl, P2, Start, NextCode;
    StartZero(c, 8);
    NextCodeZero(c, 8);
    StartNext(c, 8);
    ShlP2(8, 7);
    StartSame(c, 9, MAX_BITS + 1);
  }

  lemma SampleDist()
    ensures Empty(SampleLens()[286..])
  {
    var dist: Lengths := SampleLens()[286..];
    CountNone(dist, 0);
    CountRun(dist, 0, 11, 0, 0);
  }

  // ---- The commands ----

  lemma {:induction false} EightsGive(n: nat, rest: seq<Command>, lens: Lengths)
    requires AllProper(rest, lens + Repeat(n, 8))
    ensures AllProper(Eights(n) + rest, lens) && GivenAll(Eights(n) + rest, lens) == GivenAll(rest, lens + Repeat(n, 8))
  {
    if n == 0 {
      assert lens + Repeat(0, 8) == lens && Eights(0) + rest == rest;
    } else {
      assert lens + [8] + Repeat(n - 1, 8) == lens + Repeat(n, 8);
      EightsGive(n - 1, rest, lens + [8]);
      assert (Eights(n) + rest)[0] == Len(8) && (Eights(n) + rest)[1..] == Eights(n - 1) + rest;
    }
  }

  /** A command in front of others. */
  lemma CommandFirst(c: Command, cs: seq<Command>, lens: Lengths)
    requires Proper(c, |lens|) && AllProper(cs, Given(c, lens))
    ensures AllProper([c] + cs, lens) && GivenAll([c] + cs, lens) == GivenAll(cs, Given(c, lens))
  {
    assert ([c] + cs)[1..] == cs;
  }

  lemma SampleGives()
    ensures AllProper(SAMPLE_COMMANDS, []) && GivenAll(SAMPLE_COMMANDS, []) == SampleLens()
  {
    hide AllProper, GivenAll, Eights;
    var l1: Lengths := [] + Repeat(29, 0);
    var l2 := l1 + [0];
    var l3 := l2 + Repeat(256, 8);
    var l4 := l3 + Repeat(11, 0);
    NoCommands(l4, SAMPLE_BL);
    CommandFirst(ZerosLong(11), [], l3);
    assert [ZerosLong(11)] + [] == [ZerosLong(11)];
    EightsGive(256, [ZerosLong(11)], l2);
    var e := Eights(256) + [ZerosLong(11)];
    CommandFirst(Len(0), e, l1);
    CommandFirst(ZerosLong(29), [Len(0)] + e, []);
    assert [ZerosLong(29)] + ([Len(0)] + e) == SAMPLE_COMMANDS;
    assert l4 == SampleLens();
  }

  // ---- The block ----

  lemma SampleCodebook()
    ensures SAMPLE_BOOK.Valid() && SAMPLE_BOOK.Lit() == SampleLens()[..286] && SAMPLE_BOOK.Dist() == SampleLens()[286..]
  {
    hide Usable, Empty, GivenAll, AllProper, SampleLens;
    SampleGives();
    SampleUsable();
    SampleShape();
    SampleDist();
    var lit: Lengths := SampleLens()[..286];
    LateCodes(lit);
  }

  lemma SampleShape()
    ensures Sendable(SAMPLE_BL, 5) && AllCoded(SAMPLE_COMMANDS, SAMPLE_BL)
    ensures forall i :: 0 <= i < 297 ==> SampleLens()[i] == if 30 <= i < 286 then 8 else 0
  {
    forall i | 0 <= i < |SAMPLE_COMMANDS|
      ensures Proper(SAMPLE_COMMANDS[i], 1) && Coded(SAMPLE_BL, CommandSymbol(SAMPLE_COMMANDS[i]))
    {
    }
  }

  /** The code 10, n times. */
  function TenTimes(n: nat): Bitstring {
    if n == 0 then [] else [true, false] + TenTimes(n - 1)
  }

  function SampleHead(): Bitstring {
    Lsb(29, 5) + Lsb(10, 5) + Lsb(1, 4) + (Lsb(0, 3) + (Lsb(0, 3) + (Lsb(2, 3) + (Lsb(1, 3) + (Lsb(2, 3) + [])))))
  }

  function SampleTail(): Bitstring {
    ([true, true] + Lsb(18, 7)) + ([false] + (TenTimes(256) + ([true, true] + Lsb(0, 7))))
  }

  /** The whole block, the last one: its header, the codes, literal 65 and the end of the block. */
  function SampleBits(): Bitstring {
    [true, false, true] + ((SampleHead() + SampleTail()) + (MsbFirst(35, 8) + MsbFirst(226, 8)))
  }

  lemma {:induction false} EightsBits(n: nat, rest: seq<Command>, bl: Lengths)
    requires AllCoded(rest, bl) && Coded(bl, 8) && SymbolBits(bl, 8) == [true, false]
    ensures AllCoded(Eights(n) + rest, bl)
    ensures CommandsBits(Eights(n) + rest, bl) == TenTimes(n) + CommandsBits(rest, bl)
  {
    hide SymbolBits, CommandsBits, AllCoded, Coded;
    if n == 0 {
      assert Eights(0) + rest == rest;
    } else {
      EightsBits(n - 1, rest, bl);
      assert Eights(n) + rest == [Len(8)] + (Eights(n - 1) + rest);
      CommandsFirst(Len(8), Eights(n - 1) + rest, bl);
      assert CommandBits(Len(8), bl) == [true, false];
    }
  }

  lemma CommandsFirst(c: Command, cs: seq<Command>, bl: Lengths)
    requires Proper(c, 1) && Coded(bl, CommandSymbol(c)) && AllCoded(cs, bl)
    ensures AllCoded([c] + cs, bl) && CommandsBits([c] + cs, bl) == CommandBits(c, bl) + CommandsBits(cs, bl)
  {
    assert ([c] + cs)[1..] == cs;
  }

  lemma SampleSymbols()
    ensures SymbolBits(SAMPLE_BL, 0) == [false] && SymbolBits(SAMPLE_BL, 8) == [true, false]
    ensures SymbolBits(SAMPLE_BL, 18) == [true, true]
  {
    SampleUsable();
    assert SAMPLE_BL[0] == 1 && SAMPLE_BL[8] == 2 && SAMPLE_BL[18] == 2;
    hide Code, MsbFirst, SAMPLE_BL;
    ShortStrings();
  }

  lemma ShortStrings()
    ensures MsbFirst(0, 1) == [false] && MsbFirst(2, 2) == [true, false] && MsbFirst(3, 2) == [true, true]
  {
  }

  lemma SampleCommandBits()
    ensures AllCoded(SAMPLE_COMMANDS, SAMPLE_BL) && CommandsBits(SAMPLE_COMMANDS, SAMPLE_BL) == SampleTail()
  {
    SampleSymbols();
    var bl := SAMPLE_BL;
    assert Coded(bl, 0) && Coded(bl, 8) && Coded(bl, 18);
    hide SymbolBits, CommandsBits, AllCoded, Lsb, Eights, SAMPLE_BL;
    var e := Eights(256) + [ZerosLong(11)];
    assert SAMPLE_COMMANDS == [ZerosLong(29)] + ([Len(0)] + e);
    LastCommand(bl);
    EightsBits(256, [ZerosLong(11)], bl);
    CommandsFirst(Len(0), e, bl);
    CommandsFirst(ZerosLong(29), [Len(0)] + e, bl);
    assert CommandBits(Len(0), bl) == [false] + [] == [false];
  }

  lemma LastCommand(bl: Lengths)
    requires Coded(bl, 18)
    ensures AllCoded([ZerosLong(11)], bl)
    ensures CommandsBits([ZerosLong(11)], bl) == SymbolBits(bl, 18) + Lsb(0, 7)
  {
    assert CommandsBits([], bl) == [];
  }

  lemma SampleBookBits()
    requires SAMPLE_BOOK.Valid()
    ensures CodebookBits(SAMPLE_BOOK) == SampleHead() + SampleTail()
  {
    SampleCommandBits();
    hide CommandsBits, Lsb, Usable, Empty, GivenAll, AllProper;
    var bl := SAMPLE_BL;
    assert bl[16] == 0 && bl[17] == 0 && bl[18] == 2 && bl[0] == 1 && bl[8] == 2;
    assert OrderBits(bl, 5, 5) == [];
    assert OrderBits(bl, 4, 5) == Lsb(2, 3) + [];
    assert OrderBits(bl, 3, 5) == Lsb(1, 3) + (Lsb(2, 3) + []);
    assert OrderBits(bl, 2, 5) == Lsb(2, 3) + (Lsb(1, 3) + (Lsb(2, 3) + []));
  }

  const SAMPLE_TOKENS: seq<Token> := [Literal(0x41)]

  lemma SampleTokens(lit: Lengths, dist: Lengths, out: seq<byte>, w: nat)
    requires |lit| == 286 && lit[65] == lit[256] == 8 && Code(lit, 65) == 35 && Code(lit, 256) == 226
    ensures AllWritable(SAMPLE_TOKENS, lit, dist) && AllPossible(SAMPLE_TOKENS, out, w)
    ensures ApplyAll(SAMPLE_TOKENS, out, w) == out + [0x41]
    ensures TokensBits(SAMPLE_TOKENS, lit, dist) == MsbFirst(35, 8) + MsbFirst(226, 8)
  {
    hide Code, MsbFirst;
    assert SAMPLE_TOKENS[1..] == [];
    assert ApplyAll([], out + [0x41], w) == out + [0x41];
    assert TokensBits([], lit, dist) == MsbFirst(226, 8);
  }

  lemma SampleBookTokens(out: seq<byte>, w: nat)
    ensures SAMPLE_BOOK.Valid()
    ensures AllWritable(SAMPLE_TOKENS, SAMPLE_BOOK.Lit(), SAMPLE_BOOK.Dist())
    ensures AllPossible(SAMPLE_TOKENS, out, w) && ApplyAll(SAMPLE_TOKENS, out, w) == out + [0x41]
    ensures Coded(SAMPLE_BOOK.Lit(), END_OF_BLOCK)
    ensures TokensBits(SAMPLE_TOKENS, SAMPLE_BOOK.Lit(), SAMPLE_BOOK.Dist()) == MsbFirst(35, 8) + MsbFirst(226, 8)
  {
    SampleCodebook();
    SampleShape();
    hide SampleLens, SAMPLE_BOOK, MsbFirst, Usable, TokensBits, AllPossible, ApplyAll, GivenAll, AllProper, AllWritable,
      SAMPLE_TOKENS, Codebook.Valid, Codebook.Lit, Codebook.Dist;
    LateCodes(SampleLens()[..286]);
    SampleTokens(SampleLens()[..286], SampleLens()[286..], out, w);
  }

  lemma OwnWritten(h: Codebook, ts: seq<Token>, pos: nat)
    requires Formed(WithOwn(h, ts))
    ensures h.Valid() && AllWritable(ts, h.Lit(), h.Dist())
    ensures PartBits(WithOwn(h, ts), true, pos)
            == [true, false, true] + (CodebookBits(h) + TokensBits(ts, h.Lit(), h.Dist()))
  {
    hide HeaderBits, CodebookBits, TokensBits, Codebook.Valid, AllWritable;
    OwnHeader(h, ts);
  }

  lemma OwnHeader(h: Codebook, ts: seq<Token>)
    ensures HeaderBits(WithOwn(h, ts), true) == [true, false, true]
  {
    assert Lsb(2, 2) == [false, true];
    hide Lsb;
  }

  lemma OwnContents(s: Stream, pos: nat, out: seq<byte>, h: Codebook, ts: seq<Token>, bits: Bitstring)
    requires !s.looks && h.Valid() && AllWritable(ts, h.Lit(), h.Dist()) && AllPossible(ts, out, s.wsize)
    requires bits == [true, false, true] + (CodebookBits(h) + TokensBits(ts, h.Lit(), h.Dist()))
    requires Written(s, pos, bits)
    ensures Block(s, pos, out) == Complete(ApplyAll(ts, out, s.wsize), pos + |bits|)
  {
    hide Written, Block, CodebookBits, TokensBits, Codebook.Valid, Codebook.Lit, Codebook.Dist, PartBits, ApplyAll,
      AllPossible, AllWritable;
    OwnWritten(h, ts, pos);
    PartRead(s, pos, out, WithOwn(h, ts), true);
  }

  /** This block, bit by bit, holds one byte. */
  lemma SampleContents(s: Stream, pos: nat, out: seq<byte>)
    requires !s.looks && Written(s, pos, SampleBits())
    ensures Block(s, pos, out) == Complete(out + [0x41], pos + |SampleBits()|)
  {
    hide SAMPLE_BOOK, SAMPLE_TOKENS, Written, Block, CodebookBits, TokensBits, Codebook.Valid, Codebook.Lit,
      Codebook.Dist, ApplyAll, AllPossible, AllWritable, SampleHead, SampleTail, MsbFirst;
    SampleBookTokens(out, s.wsize);
    SampleBookBits();
    OwnContents(s, pos, out, SAMPLE_BOOK, SAMPLE_TOKENS, SampleBits());
  }

  /** Packed into bytes, and with another byte behind it for a decoder that looks up tables, it is a whole
      stream. */
  lemma SampleStream(post: seq<byte>, wbits: nat, looks: bool)
    requires looks ==> post != []
    ensures Unwrapped(Packed(SampleBits()) + post, 0, wbits, true, looks) == Done([0x41], |Packed(SampleBits())|)
  {
    hide Block, P2, SampleBits, Packed, Written;
    var data := Packed(SampleBits()) + post;
    var s := Stream(data, P2(wbits), false);
    assert data == [] + Packed(SampleBits()) + post;
    PackedWritten(s, [], SampleBits(), post);
    SampleContents(s, 0, []);
    assert [] + [0x41 as byte] == [0x41];
    if looks {
      Lookahead.EndSeen(data, 0, wbits, true);
    }
  }
}
