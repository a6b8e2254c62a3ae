/** RFC 1951: what a compressed byte sequence expands to.  Each function says how decompression goes
    on from some point of the format, given the position in bits and the output so far.

    Data that end too soon are cut short for a decoder that looks up tables (looks) a little before
    the format itself runs out of them, because a look may take more bits than the code found; on
    data that suffice both agree (Lookahead). */
module Deflate {
  import opened BitMath
  import opened Words
  import opened Huffman
  import opened CodeCounts
  import opened ZLib

  /** The input, the size of the history window that distances may reach back into, and whether the
      codes are decoded by looking up tables. */
  datatype Stream = Stream(data: seq<byte>, wsize: nat, looks: bool)

  /** Complete: the last block ended at bit position end.  Bad: the data violates the format; held bytes
      of the output had come when a block with codes ended last, which the decompressor may want to have
      delivered before it goes on.
      Truncated: the data ends too soon.  Undefined: the data makes the decompressor rely on
      something it does not check (see README). */
  datatype Outcome =
    | Complete(out: seq<byte>, end: nat)
    | Bad(out: seq<byte>, held: nat)
    | Truncated(out: seq<byte>)
    | Undefined

  /** The codes of the current block, the widths asked for of their tables, and whether it is the last
      block. */
  datatype Coding = Coding(last: bool, lit: Lengths, dist: Lengths, lbits: nat, dbits: nat)

  // The widths asked for: zlib/infblock.c:309-310, zlib/inftrees.c:438-444, zlib/infblock.c:247.
  const DYNAMIC_LBITS := 9
  const DYNAMIC_DBITS := 6
  const FIXED_LBITS := 7
  const FIXED_DBITS := 5
  const LENGTH_BITS := 7

  /** The outcome o of what follows the end of a block with codes, where there are n bytes of output. */
  function Held(o: Outcome, n: nat): Outcome {
    match o
    case Bad(out, held) => Bad(out, if n > held then n else held)
    case _ => o
  }

  // ---- Bits of the input ----

  /** The input from bit position pos on; zero bits follow the last byte. */
  function At(s: Stream, pos: nat): nat {
    Shr(Num(s.data), pos)
  }

  /** The n bits at pos, the first one lowest. */
  function Bits(s: Stream, pos: nat, n: nat): nat {
    Low(At(s, pos), n)
  }

  function End(s: Stream): nat { 8 * |s.data| }

  function Left(s: Stream, pos: nat): nat {
    if pos <= End(s) then End(s) - pos else 0
  }

  /** How many bits of x decide which code it begins with. */
  function CodeLength(b: Lengths, x: nat): nat {
    match Decode(b, x)
    case Symbol(v) =>
      assert Matches(b, v, x);
      b[v]
    case NoSymbol => Longest(Counts(b), MAX_BITS)
  }

  /** How many bits must be there for the code at the front of x to be decoded, m being the table width
      asked for. */
  function Need(s: Stream, b: Lengths, m: nat, x: nat): (r: nat)
    ensures r >= CodeLength(b, x)
  {
    var n, looks := CodeLength(b, x), Looks(b, Width(b, m), x);
    if s.looks && looks > n then looks else n
  }

  // ---- Tables of sections 3.2.5 and 3.2.7 ----

  const LENGTH_BASE: seq<nat> :=
    [3, 4, 5, 6, 7, 8, 9, 10, 11, 13, 15, 17, 19, 23, 27, 31,
     35, 43, 51, 59, 67, 83, 99, 115, 131, 163, 195, 227, 258]
  const LENGTH_EXTRA: seq<nat> :=
    [0, 0, 0, 0, 0, 0, 0, 0, 1, 1, 1, 1, 2, 2, 2, 2, 3, 3, 3, 3, 4, 4, 4, 4, 5, 5, 5, 5, 0]
  const DIST_BASE: seq<nat> :=
    [1, 2, 3, 4, 5, 7, 9, 13, 17, 25, 33, 49, 65, 97, 129, 193,
     257, 385, 513, 769, 1025, 1537, 2049, 3073, 4097, 6145, 8193, 12289, 16385, 24577]
  const DIST_EXTRA: seq<nat> :=
    [0, 0, 0, 0, 1, 1, 2, 2, 3, 3, 4, 4, 5, 5, 6, 6, 7, 7, 8, 8, 9, 9, 10, 10, 11, 11, 12, 12, 13, 13]

  /** The order in which the lengths of the code length codes are sent. */
  const BORDER: seq<nat> := [16, 17, 18, 0, 8, 7, 9, 6, 10, 5, 11, 4, 12, 3, 13, 2, 14, 1, 15]

  /** Where symbol i comes in that order. */
  function OrderOf(i: nat, j: nat): nat
    requires j <= 19
    decreases 19 - j
  {
    if j == 19 || BORDER[j] == i then j else OrderOf(i, j + 1)
  }

  function FixedLit(): Lengths {
    seq(288, i requires 0 <= i < 288 => if i < 144 then 8 else if i < 256 then 9 else if i < 280 then 7 else 8)
  }

  function FixedDist(): Lengths {
    seq(30, _ => 5)
  }

  function FixedCoding(last: bool): Coding {
    Coding(last, FixedLit(), FixedDist(), FIXED_LBITS, FIXED_DBITS)
  }

  /** The codes of a dynamic block whose code lengths are lens, nl of them of literals and lengths. */
  function DynamicCoding(last: bool, lens: Lengths, nl: nat): Coding
    requires nl <= |lens|
  {
    Coding(last, lens[..nl], lens[nl..], DYNAMIC_LBITS, DYNAMIC_DBITS)
  }

  // ---- LZ77 ----

  /** Append len bytes, each the one dist bytes back. */
  function CopyMatch(out: seq<byte>, len: nat, dist: nat): seq<byte>
    requires 1 <= dist <= |out|
    decreases len
  {
    if len == 0 then out else CopyMatch(out + [out[|out| - dist]], len - 1, dist)
  }

  // ---- One symbol of a block with codes ----

  /** What one literal or match comes to.  Went: decoding has come to bit position pos with the output
      out.  Ended: the end of the block is at pos.  Broken, Cut and Unclear: bad, truncated and
      undefined data. */
  datatype Step = Went(pos: nat, out: seq<byte>) | Ended(pos: nat) | Broken | Cut | Unclear

  /** At a literal/length code. */
  function OneSymbol(s: Stream, pos: nat, out: seq<byte>, c: Coding): (r: Step)
    ensures r.Went? || r.Ended? ==> pos < r.pos <= End(s)
  {
    if pos >= End(s) then Cut
    else
      match Decode(c.lit, At(s, pos))
      case NoSymbol =>
        if Count(c.lit, |c.lit|, 0) > 0 then Unclear
        else if pos + Need(s, c.lit, c.lbits, At(s, pos)) > End(s) then Cut
        else Broken
      case Symbol(v) =>
        assert Matches(c.lit, v, At(s, pos));
        var pos' := pos + c.lit[v];
        if pos + Need(s, c.lit, c.lbits, At(s, pos)) > End(s) then Cut
        else if v < 256 then Went(pos', out + [v])
        else if v == 256 then Ended(pos')
        else if v > 285 then Unclear
        else LengthExtra(s, pos', out, c, LENGTH_BASE[v - 257], LENGTH_EXTRA[v - 257])
  }

  /** At the extra bits of a length. */
  function LengthExtra(s: Stream, pos: nat, out: seq<byte>, c: Coding, base: nat, extra: nat): (r: Step)
    ensures r.Went? || r.Ended? ==> pos < r.pos <= End(s)
  {
    if pos + extra > End(s) then Cut else Distance(s, pos + extra, out, c, base + Bits(s, pos, extra))
  }

  /** At a distance code. */
  function Distance(s: Stream, pos: nat, out: seq<byte>, c: Coding, len: nat): (r: Step)
    ensures r.Went? || r.Ended? ==> pos < r.pos <= End(s)
  {
    if Empty(c.dist) then Unclear
    else if pos >= End(s) then Cut
    else
      match Decode(c.dist, At(s, pos))
      case NoSymbol =>
        if Count(c.dist, |c.dist|, 0) > 0 then Unclear
        else if pos + Need(s, c.dist, c.dbits, At(s, pos)) > End(s) then Cut
        else Broken
      case Symbol(v) =>
        assert Matches(c.dist, v, At(s, pos));
        var pos' := pos + c.dist[v];
        if pos + Need(s, c.dist, c.dbits, At(s, pos)) > End(s) then Cut
        else if v > 29 then Unclear
        else DistanceExtra(s, pos', out, len, DIST_BASE[v], DIST_EXTRA[v])
  }

  /** At the extra bits of a distance. */
  function DistanceExtra(s: Stream, pos: nat, out: seq<byte>, len: nat, base: nat, extra: nat): (r: Step)
    ensures r.Went? || r.Ended? ==> pos <= r.pos <= End(s)
  {
    if pos + extra > End(s) then Cut
    else
      var dist := base + Bits(s, pos, extra);
      if dist < 1 || dist > |out| || dist > s.wsize then Unclear
      else Went(pos + extra, CopyMatch(out, len, dist))
  }

  // ---- Blocks ----

  /** At the header of a block (section 3.2.3). */
  function Block(s: Stream, pos: nat, out: seq<byte>): Outcome
    decreases Left(s, pos), 0
  {
    if pos + 3 > End(s) then Truncated(out)
    else
      var t := Bits(s, pos, 3);
      var last := t % 2 == 1;
      if t / 2 == 0 then StoredHeader(s, Align(pos + 3), out, last)
      else if t / 2 == 1 then Codes(s, pos + 3, out, FixedCoding(last))
      else if t / 2 == 2 then Table(s, pos + 3, out, last)
      else Bad(out, 0)
  }

  /** The next byte boundary. */
  function Align(pos: nat): (r: nat)
    ensures pos <= r < pos + 8 && r % 8 == 0
  {
    pos + (8 - pos % 8) % 8
  }

  /** At the end of a block. */
  function EndBlock(s: Stream, pos: nat, out: seq<byte>, last: bool): Outcome
    decreases Left(s, pos), 1
  {
    if last then Complete(out, pos) else Block(s, pos, out)
  }

  /** At the length fields of a stored block (section 3.2.4). */
  function StoredHeader(s: Stream, pos: nat, out: seq<byte>, last: bool): Outcome
    requires pos % 8 == 0
    decreases Left(s, pos), 0
  {
    if pos + 32 > End(s) then Truncated(out)
    else
      if Bits(s, pos, 16) + Bits(s, pos + 16, 16) != 0xffff then Bad(out, 0)
      else Stored(s, BlockData(pos), Bits(s, pos, 16), out, last)
  }

  /** The byte behind the length fields at pos. */
  function BlockData(pos: nat): (p: nat)
    requires pos % 8 == 0
    ensures 8 * p == pos + 32
  {
    (pos + 32) / 8
  }

  /** At byte p of a stored block with left bytes to go. */
  function Stored(s: Stream, p: nat, left: nat, out: seq<byte>, last: bool): Outcome
    decreases Left(s, 8 * p), 2
  {
    if p + left > |s.data| then Truncated(out + (if p <= |s.data| then s.data[p..] else []))
    else EndBlock(s, 8 * (p + left), out + s.data[p..p + left], last)
  }

  /** In a block with codes (section 3.2.3): one symbol after the other. */
  function Codes(s: Stream, pos: nat, out: seq<byte>, c: Coding): Outcome
    decreases Left(s, pos), 3
  {
    match OneSymbol(s, pos, out, c)
    case Went(p, o) => Codes(s, p, o, c)
    case Ended(p) => Held(EndBlock(s, p, out, c.last), |out|)
    case Broken => Bad(out, 0)
    case Cut => Truncated(out)
    case Unclear => Undefined
  }

  /** At the table sizes of a dynamic block (section 3.2.7). */
  function Table(s: Stream, pos: nat, out: seq<byte>, last: bool): Outcome
    decreases Left(s, pos), 0
  {
    if pos + 14 > End(s) then Truncated(out)
    else
      var hlit, hdist, hclen := Bits(s, pos, 5), Bits(s, pos + 5, 5), Bits(s, pos + 10, 4);
      if hlit > 29 || hdist > 29 then Bad(out, 0)
      else CodeLengthCode(s, pos + 14, out, last, 257 + hlit, 1 + hdist, 4 + hclen)
  }

  /** The lengths of the code length codes, the first n of them sent at pos. */
  function CodeLengthLengths(s: Stream, pos: nat, n: nat): (r: Lengths)
    ensures |r| == 19
  {
    seq(19, i requires 0 <= i < 19 =>
      if OrderOf(i, 0) < n then
        assert P2(3) == 8;
        Bits(s, pos + 3 * OrderOf(i, 0), 3)
      else 0)
  }

  /** At the n lengths of the code length codes. */
  function CodeLengthCode(s: Stream, pos: nat, out: seq<byte>, last: bool, nl: nat, nd: nat, n: nat): Outcome
    decreases Left(s, pos), 6
  {
    if pos + 3 * n > End(s) then Truncated(out)
    else
      hide Usable, Empty, CodeLengthLengths;
      var bl := CodeLengthLengths(s, pos, n);
      if Empty(bl) then Undefined
      else if !Usable(bl) then Bad(out, 0)
      else LengthCodes(s, pos + 3 * n, out, last, nl, nd, bl, [])
  }

  /** At the code lengths, lens of which are known. */
  function LengthCodes(s: Stream, pos: nat, out: seq<byte>, last: bool, nl: nat, nd: nat, bl: Lengths,
                       lens: Lengths): Outcome
    decreases Left(s, pos), 5
  {
    if |lens| >= nl + nd then Trees(s, pos, out, DynamicCoding(last, lens, nl))
    else if pos >= End(s) then Truncated(out)
    else
      match Decode(bl, At(s, pos))
      case NoSymbol => Undefined
      case Symbol(v) =>
        var pos' := pos + bl[v];
        if pos + Need(s, bl, LENGTH_BITS, At(s, pos)) > End(s) then Truncated(out)
        else if v < 16 then LengthCodes(s, pos', out, last, nl, nd, bl, lens + [v])
        else RepeatCode(s, pos', out, last, nl, nd, bl, lens, v)
  }

  /** How many extra bits code length symbol v has, and the least count it stands for. */
  function RepeatExtra(v: nat): nat
    requires v >= 16
  {
    if v == 18 then 7 else v - 14
  }

  function RepeatBase(v: nat): nat { if v == 18 then 11 else 3 }

  /** At the extra bits of code length symbol v: copy the previous length (16) or zeros (17, 18). */
  function RepeatCode(s: Stream, pos: nat, out: seq<byte>, last: bool, nl: nat, nd: nat, bl: Lengths, lens: Lengths,
                      v: nat): Outcome
    requires v >= 16
    decreases Left(s, pos), 6
  {
    var extra := RepeatExtra(v);
    if pos + extra > End(s) then Truncated(out)
    else
      var n := RepeatBase(v) + Bits(s, pos, extra);
      if |lens| + n > nl + nd || (v == 16 && |lens| == 0) then Bad(out, 0)
      else
        LengthCodes(s, pos + extra, out, last, nl, nd, bl, lens + Repeat(n, if v == 16 then lens[|lens| - 1] else 0))
  }

  function Repeat(n: nat, v: nat): (r: Lengths)
    requires v <= MAX_BITS
    ensures |r| == n
  {
    seq(n, _ => v)
  }

  /** With both code sets known. */
  function Trees(s: Stream, pos: nat, out: seq<byte>, c: Coding): Outcome
    decreases Left(s, pos), 4
  {
    if Empty(c.lit) then Undefined
    else if !Usable(c.lit) then Bad(out, 0)
    else if !Empty(c.dist) && !Usable(c.dist) then Bad(out, 0)
    else Codes(s, pos, out, c)
  }
}
