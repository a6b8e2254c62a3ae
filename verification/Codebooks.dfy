/** How a compressor sends the codes of a block (section 3.2.7 of RFC 1951), and that they are read back. */
module Codebooks {
  import opened BitMath
  import opened Huffman
  import opened Deflate
  import opened ZLib
  import opened BitStrings
  import opened Tokens
  import opened InfTrees

  // ---- The lengths of the code length codes ----

  const CODE_LENGTHS := 19
  const LENGTH_WIDTH := 3

  /** The symbol whose length is sent in place j: the repeat symbols, no code, and the lengths from 8 up and
      from 7 down in turn. */
  function SendOrder(j: nat): (v: nat)
    requires j < CODE_LENGTHS
    ensures v < CODE_LENGTHS
  {
    if j < 3 then 16 + j else if j == 3 then 0 else if j % 2 == 0 then 8 + (j - 4) / 2 else 7 - (j - 5) / 2
  }

  /** Where the length of symbol v is sent. */
  function SendPlace(v: nat): (j: nat)
    requires v < CODE_LENGTHS
    ensures j < CODE_LENGTHS
  {
    if v >= 16 then v - 16 else if v == 0 then 3 else if v >= 8 then 2 * v - 12 else 19 - 2 * v
  }

  /** The place in the order of zlib/infblock.c is that of the RFC. */
  lemma OrderLaw(v: nat)
    requires v < CODE_LENGTHS
    ensures OrderOf(v, 0) == SendPlace(v) && SendOrder(SendPlace(v)) == v
  {
    OrderFound(v, 0, SendPlace(v));
  }

  lemma OrderAt(j: nat)
    requires j < CODE_LENGTHS
    ensures BORDER[j] == SendOrder(j) && SendPlace(SendOrder(j)) == j
  {
  }

  lemma {:induction false} OrderFound(v: nat, j: nat, k: nat)
    requires v < CODE_LENGTHS && j <= k == SendPlace(v)
    ensures OrderOf(v, j) == k
    decreases k - j
  {
    hide BORDER;
    assert |BORDER| == 19 by { OrderSize(); }
    OrderAt(j);
    OrderAt(k);
    if j < k {
      OrderFound(v, j + 1, k);
    }
  }

  lemma OrderSize()
    ensures |BORDER| == 19
  {
  }

  /** The lengths of the code length codes from place j on, n places in all. */
  function OrderBits(bl: Lengths, j: nat, n: nat): (b: Bitstring)
    requires |bl| == CODE_LENGTHS && j <= n <= CODE_LENGTHS
    ensures |b| == LENGTH_WIDTH * (n - j)
    decreases n - j
  {
    if j == n then [] else Lsb(bl[SendOrder(j)], LENGTH_WIDTH) + OrderBits(bl, j + 1, n)
  }

  lemma {:induction false} OrderRead(s: Stream, pos: nat, bl: Lengths, j: nat, n: nat, k: nat)
    requires |bl| == CODE_LENGTHS && j <= k < n <= CODE_LENGTHS && bl[SendOrder(k)] < 8
    requires Written(s, pos + LENGTH_WIDTH * j, OrderBits(bl, j, n))
    ensures Bits(s, pos + LENGTH_WIDTH * k, LENGTH_WIDTH) == bl[SendOrder(k)]
    decreases k - j
  {
    hide Bits, Written;
    P2Small();
    WrittenParts(s, pos + LENGTH_WIDTH * j, Lsb(bl[SendOrder(j)], LENGTH_WIDTH), OrderBits(bl, j + 1, n));
    if j == k {
      ReadLsb(s, pos + LENGTH_WIDTH * k, bl[SendOrder(k)], LENGTH_WIDTH);
    } else {
      assert pos + LENGTH_WIDTH * j + LENGTH_WIDTH == pos + LENGTH_WIDTH * (j + 1);
      OrderRead(s, pos, bl, j + 1, n, k);
    }
  }

  /** n places suffice: the lengths are small, and those not sent are 0. */
  predicate Sendable(bl: Lengths, n: nat) {
    && |bl| == CODE_LENGTHS && 4 <= n <= CODE_LENGTHS
    && forall v :: 0 <= v < CODE_LENGTHS ==> bl[v] < 8 && (SendPlace(v) >= n ==> bl[v] == 0)
  }

  lemma LengthPlace(s: Stream, pos: nat, n: nat, v: nat)
    requires v < CODE_LENGTHS
    ensures CodeLengthLengths(s, pos, n)[v]
            == if SendPlace(v) < n then Bits(s, pos + LENGTH_WIDTH * SendPlace(v), LENGTH_WIDTH) else 0
  {
    OrderLaw(v);
    hide Bits, OrderOf, SendPlace, SendOrder;
  }

  /** The lengths of the code length codes are read. */
  lemma CodeLengthsRead(s: Stream, pos: nat, bl: Lengths, n: nat)
    requires Sendable(bl, n) && Written(s, pos, OrderBits(bl, 0, n))
    ensures CodeLengthLengths(s, pos, n) == bl
  {
    hide Bits, OrderOf, Written, CodeLengthLengths, OrderBits, SendPlace, SendOrder;
    forall v | 0 <= v < CODE_LENGTHS
      ensures CodeLengthLengths(s, pos, n)[v] == bl[v]
    {
      LengthPlace(s, pos, n, v);
      OrderLaw(v);
      if SendPlace(v) < n {
        OrderRead(s, pos, bl, 0, n, SendPlace(v));
      }
    }
  }

  // ---- Code lengths ----

  /** What a code length symbol says: one length; the previous one n times; or n zeros, few or many. */
  datatype Command = Len(n: nat) | CopyPrevious(n: nat) | ZerosShort(n: nat) | ZerosLong(n: nat)

  predicate Proper(c: Command, before: nat) {
    match c
    case Len(n) => n <= MAX_BITS
    case CopyPrevious(n) => 3 <= n <= 6 && before > 0
    case ZerosShort(n) => 3 <= n <= 10
    case ZerosLong(n) => 11 <= n <= 138
  }

  /** The code length symbol, and how many extra bits with what value. */
  function CommandSymbol(c: Command): nat {
    match c
    case Len(n) => n
    case CopyPrevious(_) => 16
    case ZerosShort(_) => 17
    case ZerosLong(_) => 18
  }

  function CommandExtra(c: Command): Bitstring
    requires !c.ZerosLong? ==> c.Len? || c.n >= 3
    requires c.ZerosLong? ==> c.n >= 11
  {
    match c
    case Len(_) => []
    case CopyPrevious(n) => Lsb(n - 3, 2)
    case ZerosShort(n) => Lsb(n - 3, 3)
    case ZerosLong(n) => Lsb(n - 11, 7)
  }

  function CommandBits(c: Command, bl: Lengths): Bitstring
    requires Proper(c, 1) && Coded(bl, CommandSymbol(c))
  {
    SymbolBits(bl, CommandSymbol(c)) + CommandExtra(c)
  }

  /** The lengths c stands for. */
  function Given(c: Command, lens: Lengths): (r: Lengths)
    requires Proper(c, |lens|)
    ensures |r| > |lens|
  {
    match c
    case Len(n) => lens + [n]
    case CopyPrevious(n) => lens + Repeat(n, lens[|lens| - 1])
    case ZerosShort(n) => lens + Repeat(n, 0)
    case ZerosLong(n) => lens + Repeat(n, 0)
  }

  predicate AllProper(cs: seq<Command>, lens: Lengths)
    decreases |cs|
  {
    cs != [] ==> Proper(cs[0], |lens|) && AllProper(cs[1..], Given(cs[0], lens))
  }

  function GivenAll(cs: seq<Command>, lens: Lengths): (r: Lengths)
    requires AllProper(cs, lens)
    ensures |r| >= |lens| + |cs|
    decreases |cs|
  {
    if cs == [] then lens else GivenAll(cs[1..], Given(cs[0], lens))
  }

  predicate AllCoded(cs: seq<Command>, bl: Lengths) {
    forall i :: 0 <= i < |cs| ==> Proper(cs[i], 1) && Coded(bl, CommandSymbol(cs[i]))
  }

  function CommandsBits(cs: seq<Command>, bl: Lengths): Bitstring
    requires AllCoded(cs, bl)
  {
    if cs == [] then [] else CommandBits(cs[0], bl) + CommandsBits(cs[1..], bl)
  }

  /** The code of a code length symbol is read. */
  lemma LengthSymbolRead(s: Stream, pos: nat, out: seq<byte>, last: bool, nl: nat, nd: nat, bl: Lengths, lens: Lengths,
                         v: nat)
    requires !s.looks && |lens| < nl + nd && Coded(bl, v) && Prefix(bl) && Written(s, pos, SymbolBits(bl, v))
    ensures LengthCodes(s, pos, out, last, nl, nd, bl, lens)
            == if v < 16 then LengthCodes(s, pos + bl[v], out, last, nl, nd, bl, lens + [v])
               else RepeatCode(s, pos + bl[v], out, last, nl, nd, bl, lens, v)
  {
    hide At, Decode, Need, Written, SymbolBits, RepeatCode, Trees, Prefix;
    NeedOne(s, bl, LENGTH_BITS, pos, v);
  }

  /** The extra bits of a repeat are read. */
  lemma RepeatRead(s: Stream, pos: nat, out: seq<byte>, last: bool, nl: nat, nd: nat, bl: Lengths, lens: Lengths,
                   c: Command)
    requires !c.Len? && Proper(c, |lens|) && |Given(c, lens)| <= nl + nd
    requires Written(s, pos, CommandExtra(c))
    ensures RepeatCode(s, pos, out, last, nl, nd, bl, lens, CommandSymbol(c))
            == LengthCodes(s, pos + |CommandExtra(c)|, out, last, nl, nd, bl, Given(c, lens))
  {
    P2Small();
    hide Bits, LengthCodes, P2, Lsb;
    match c
    case CopyPrevious(n) => ReadLsb(s, pos, n - 3, 2);
    case ZerosShort(n) => ReadLsb(s, pos, n - 3, 3);
    case ZerosLong(n) => ReadLsb(s, pos, n - 11, 7);
  }

  /** One command is read. */
  lemma CommandRead(s: Stream, pos: nat, out: seq<byte>, last: bool, nl: nat, nd: nat, bl: Lengths, lens: Lengths,
                    c: Command)
    requires !s.looks && Prefix(bl) && Proper(c, |lens|) && Coded(bl, CommandSymbol(c))
    requires |lens| < nl + nd && |Given(c, lens)| <= nl + nd && Written(s, pos, CommandBits(c, bl))
    ensures LengthCodes(s, pos, out, last, nl, nd, bl, lens)
            == LengthCodes(s, pos + |CommandBits(c, bl)|, out, last, nl, nd, bl, Given(c, lens))
  {
    hide Written, SymbolBits, RepeatCode, LengthCodes, Prefix, CommandExtra;
    var v := CommandSymbol(c);
    WrittenParts(s, pos, SymbolBits(bl, v), CommandExtra(c));
    SymbolSize(bl, v);
    LengthSymbolRead(s, pos, out, last, nl, nd, bl, lens, v);
    if c.Len? {
      LenExtra(c);
    } else {
      RepeatRead(s, pos + bl[v], out, last, nl, nd, bl, lens, c);
    }
  }

  /** All commands are read. */
  lemma {:induction false} CommandsRead(s: Stream, pos: nat, out: seq<byte>, last: bool, nl: nat, nd: nat, bl: Lengths,
                                        lens: Lengths, cs: seq<Command>)
    requires !s.looks && Prefix(bl) && AllCoded(cs, bl) && AllProper(cs, lens) && |GivenAll(cs, lens)| == nl + nd
    requires Written(s, pos, CommandsBits(cs, bl))
    ensures LengthCodes(s, pos, out, last, nl, nd, bl, lens)
            == Trees(s, pos + |CommandsBits(cs, bl)|, out, DynamicCoding(last, GivenAll(cs, lens), nl))
    decreases |cs|
  {
    hide Written, CommandBits, CommandsBits, LengthCodes, Trees, Prefix, Given, GivenAll, AllProper, AllCoded, Coded;
    if cs == [] {
      NoCommands(lens, bl);
      AllLengths(s, pos, out, last, nl, nd, bl, lens);
    } else {
      var c, rest := cs[0], cs[1..];
      NextCommand(cs, lens, bl);
      WrittenParts(s, pos, CommandBits(c, bl), CommandsBits(rest, bl));
      CommandRead(s, pos, out, last, nl, nd, bl, lens, c);
      CommandsRead(s, pos + |CommandBits(c, bl)|, out, last, nl, nd, bl, Given(c, lens), rest);
    }
  }

  lemma NextCommand(cs: seq<Command>, lens: Lengths, bl: Lengths)
    requires cs != [] && AllProper(cs, lens) && AllCoded(cs, bl)
    ensures Proper(cs[0], |lens|) && Coded(bl, CommandSymbol(cs[0]))
    ensures AllProper(cs[1..], Given(cs[0], lens)) && AllCoded(cs[1..], bl)
    ensures GivenAll(cs, lens) == GivenAll(cs[1..], Given(cs[0], lens))
    ensures CommandsBits(cs, bl) == CommandBits(cs[0], bl) + CommandsBits(cs[1..], bl)
    ensures |lens| < |Given(cs[0], lens)| <= |GivenAll(cs, lens)|
  {
    hide Given, CommandBits;
  }

  lemma NoCommands(lens: Lengths, bl: Lengths)
    ensures AllProper([], lens) && GivenAll([], lens) == lens
    ensures AllCoded([], bl) && CommandsBits([], bl) == []
  {
  }

  lemma AllLengths(s: Stream, pos: nat, out: seq<byte>, last: bool, nl: nat, nd: nat, bl: Lengths, lens: Lengths)
    requires |lens| == nl + nd
    ensures LengthCodes(s, pos, out, last, nl, nd, bl, lens) == Trees(s, pos, out, DynamicCoding(last, lens, nl))
  {
    hide Trees, Decode, Need, RepeatCode;
  }

  lemma LenExtra(c: Command)
    requires c.Len?
    ensures CommandExtra(c) == []
  {
  }

  // ---- Blocks ----

  /** The header of a block that brings its codes: how many lengths there are of literals and lengths, of
      distances and of code lengths, the lengths of the code length codes, and the commands. */
  datatype Codebook = Codebook(nl: nat, nd: nat, n: nat, bl: Lengths, cs: seq<Command>) {
    predicate Valid() {
      && 257 <= nl <= 286 && 1 <= nd <= 30 && Sendable(bl, n) && Usable(bl) && AllCoded(cs, bl)
      && AllProper(cs, []) && |GivenAll(cs, [])| == nl + nd
      && Usable(Lit()) && (Empty(Dist()) || Usable(Dist())) && Coded(Lit(), END_OF_BLOCK)
    }

    function Lit(): Lengths
      requires AllProper(cs, []) && |GivenAll(cs, [])| == nl + nd
    {
      GivenAll(cs, [])[..nl]
    }

    function Dist(): Lengths
      requires AllProper(cs, []) && |GivenAll(cs, [])| == nl + nd
    {
      GivenAll(cs, [])[nl..]
    }
  }

  function CodebookBits(h: Codebook): Bitstring
    requires h.Valid()
  {
    Lsb(h.nl - 257, 5) + Lsb(h.nd - 1, 5) + Lsb(h.n - 4, 4) + OrderBits(h.bl, 0, h.n) + CommandsBits(h.cs, h.bl)
  }

  lemma UsablePrefix(b: Lengths)
    ensures Usable(b) ==> Prefix(b)
  {
    hide P2, Kraft, Longest;
  }

  lemma EmptyPrefix(b: Lengths)
    ensures Empty(b) ==> Prefix(b)
  {
    hide P2, Kraft, Count;
    EmptyKraft(b);
  }

  /** The codes of a block are read. */
  lemma CodebookRead(s: Stream, pos: nat, out: seq<byte>, last: bool, h: Codebook)
    requires !s.looks && h.Valid() && Written(s, pos, CodebookBits(h))
    ensures Table(s, pos, out, last)
            == Codes(s, pos + |CodebookBits(h)|, out, DynamicCoding(last, GivenAll(h.cs, []), h.nl))
  {
    hide Bits, Codes, Written, Usable, Empty, Lsb, OrderBits, CommandsBits, LengthCodes, Prefix, Sendable, P2,
      CodeLengthLengths, GivenAll, AllProper, AllCoded;
    FieldBounds(h);
    var a, b, c, d := Lsb(h.nl - 257, 5), Lsb(h.nd - 1, 5), Lsb(h.n - 4, 4), OrderBits(h.bl, 0, h.n);
    var e := CommandsBits(h.cs, h.bl);
    WrittenParts(s, pos, a + b + c + d, e);
    WrittenParts(s, pos, a + b + c, d);
    WrittenParts(s, pos, a + b, c);
    WrittenParts(s, pos, a, b);
    ReadLsb(s, pos, h.nl - 257, 5);
    ReadLsb(s, pos + 5, h.nd - 1, 5);
    ReadLsb(s, pos + 10, h.n - 4, 4);
    CodeLengthsRead(s, pos + 14, h.bl, h.n);
    WrittenWithin(s, pos + 14, d);
    WrittenWithin(s, pos + 10, c);
    UsablePrefix(h.bl);
    CommandsRead(s, pos + 14 + 3 * h.n, out, last, h.nl, h.nd, h.bl, [], h.cs);
    UsableNotEmpty(h.bl);
    UsableNotEmpty(h.Lit());
  }

  lemma FieldBounds(h: Codebook)
    requires h.Valid()
    ensures h.nl - 257 < P2(5) && h.nd - 1 < P2(5) && h.n - 4 < P2(4) && 4 <= h.n <= 19 && |h.bl| == 19
  {
    P2Small();
    hide P2;
  }

  lemma UsableNotEmpty(b: Lengths)
    requires Usable(b)
    ensures !Empty(b)
  {
    hide P2, Kraft, Count, Longest;
    EmptyKraft(b);
    UsableByCounts(b);
  }
}
