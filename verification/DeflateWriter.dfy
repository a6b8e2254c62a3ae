/** What a compressor writes (sections 3.2.3 to 3.2.7 of RFC 1951): stored blocks, blocks with the fixed codes
    and blocks that bring their own; and that decompression makes of them what went in. */
module DeflateWriter {
  import opened BitMath
  import opened Huffman
  import opened Deflate
  import opened ZLib
  import opened BitStrings
  import opened RoundTrips
  import opened Tokens
  import opened Codebooks
  import opened InfTrees
  import opened ZlibFormat
  import Lookahead
  import DeflateFacts

  /** A block: bytes as they are, or tokens with the fixed codes or with codes of its own. */
  datatype Part = Plain(data: seq<byte>) | WithFixed(ts: seq<Token>) | WithOwn(book: Codebook, ts: seq<Token>)

  /** What a block can hold. */
  predicate Formed(p: Part) {
    match p
    case Plain(d) => |d| <= MAX_STORED
    case WithFixed(ts) => AllWritable(ts, FixedLit(), FixedDist())
    case WithOwn(h, ts) => h.Valid() && AllWritable(ts, h.Lit(), h.Dist())
  }

  /** p can follow the output out, with a window of w bytes. */
  predicate Follows(p: Part, out: seq<byte>, w: nat) {
    p.Plain? || AllPossible(p.ts, out, w)
  }

  function Unpacked(p: Part, out: seq<byte>, w: nat): seq<byte>
    requires Follows(p, out, w)
  {
    match p
    case Plain(d) => out + d
    case WithFixed(ts) => ApplyAll(ts, out, w)
    case WithOwn(_, ts) => ApplyAll(ts, out, w)
  }

  function BytesBits(d: seq<byte>): (b: Bitstring)
    ensures |b| == 8 * |d|
  {
    if d == [] then [] else Lsb(d[0], 8) + BytesBits(d[1..])
  }

  function Zeros(n: nat): (b: Bitstring)
    ensures |b| == n
  {
    seq(n, _ => false)
  }

  /** A stored block behind its header, which ends at bit position pos. */
  function PlainBits(d: seq<byte>, pos: nat): Bitstring
    requires |d| <= MAX_STORED
  {
    Zeros((8 - pos % 8) % 8) + (Lsb(|d|, 16) + (Lsb(MAX_STORED - |d|, 16) + BytesBits(d)))
  }

  function PartType(p: Part): nat {
    match p
    case Plain(_) => 0
    case WithFixed(_) => 1
    case WithOwn(_, _) => 2
  }

  function BodyBits(p: Part, pos: nat): Bitstring
    requires Formed(p)
  {
    match p
    case Plain(d) => PlainBits(d, pos)
    case WithFixed(ts) => assert Coded(FixedLit(), END_OF_BLOCK); TokensBits(ts, FixedLit(), FixedDist())
    case WithOwn(h, ts) => CodebookBits(h) + TokensBits(ts, h.Lit(), h.Dist())
  }

  function HeaderBits(p: Part, last: bool): Bitstring {
    [last] + Lsb(PartType(p), 2)
  }

  /** The block p at bit position pos. */
  function PartBits(p: Part, last: bool, pos: nat): Bitstring
    requires Formed(p)
  {
    HeaderBits(p, last) + BodyBits(p, pos + 3)
  }

  // ---- Reading ----

  lemma {:induction false} BytesRead(s: Stream, p: nat, d: seq<byte>)
    requires Written(s, 8 * p, BytesBits(d))
    ensures p + |d| <= |s.data| && s.data[p..p + |d|] == d
    decreases |d|
  {
    hide Written, Lsb;
    WrittenWithin(s, 8 * p, BytesBits(d));
    if d != [] {
      P2Small();
      WrittenParts(s, 8 * p, Lsb(d[0], 8), BytesBits(d[1..]));
      ReadLsb(s, 8 * p, d[0], 8);
      ByteBits(s, p);
      BytesRead(s, p + 1, d[1..]);
      assert s.data[p..p + |d|] == [s.data[p]] + s.data[p + 1..p + 1 + |d[1..]|];
    }
  }

  lemma PlainRead(s: Stream, pos: nat, out: seq<byte>, last: bool, d: seq<byte>)
    requires |d| <= MAX_STORED && Written(s, pos, PlainBits(d, pos))
    ensures StoredHeader(s, Align(pos), out, last) == EndBlock(s, pos + |PlainBits(d, pos)|, out + d, last)
  {
    hide Written, Lsb, BytesBits, Bits, EndBlock, P2;
    var q := Align(pos);
    var z, a, b, c := Zeros((8 - pos % 8) % 8), Lsb(|d|, 16), Lsb(MAX_STORED - |d|, 16), BytesBits(d);
    assert q == pos + |z|;
    WrittenParts(s, pos, z, a + (b + c));
    WrittenParts(s, q, a, b + c);
    WrittenParts(s, q + 16, b, c);
    P2Small();
    ReadLsb(s, q, |d|, 16);
    ReadLsb(s, q + 16, MAX_STORED - |d|, 16);
    WrittenWithin(s, q + 32, c);
    var p := BlockData(q);
    BytesRead(s, p, d);
    assert StoredHeader(s, q, out, last) == Stored(s, p, |d|, out, last);
  }

  lemma FixedPrefix()
    ensures Prefix(FixedLit()) && Prefix(FixedDist()) && Coded(FixedLit(), END_OF_BLOCK)
  {
    hide Kraft, P2;
    FixedLitShape();
    FixedDistShape();
  }

  lemma HeaderRead(s: Stream, pos: nat, p: Part, last: bool)
    requires Written(s, pos, HeaderBits(p, last))
    ensures pos + 3 <= End(s) && Bits(s, pos, 3) == 2 * PartType(p) + if last then 1 else 0
  {
    var v := 2 * PartType(p) + if last then 1 else 0;
    P2Small();
    assert Lsb(v, 3) == [last] + Lsb(PartType(p), 2) by {
      assert v / 2 == PartType(p);
      assert (v % 2 == 1) == last;
    }
    hide Bits, Lsb, P2;
    ReadLsb(s, pos, v, 3);
  }

  /** What is written for a block is read as that block. */
  lemma PartRead(s: Stream, pos: nat, out: seq<byte>, p: Part, last: bool)
    requires !s.looks && Formed(p) && Follows(p, out, s.wsize) && Written(s, pos, PartBits(p, last, pos))
    ensures var e, after := pos + |PartBits(p, last, pos)|, Unpacked(p, out, s.wsize);
            Block(s, pos, out) == if p.Plain? then EndBlock(s, e, after, last) else AfterCodes(s, e, after, last)
  {
    hide Written, Bits, EndBlock, PlainBits, TokensBits, CodebookBits, Align, StoredHeader, Codes, Table, FixedLit,
      FixedDist, AllPossible, ApplyAll, AfterCodes, Prefix, Usable, Empty, AllWritable, AllCoded, AllProper, Sendable,
      GivenAll;
    WrittenParts(s, pos, HeaderBits(p, last), BodyBits(p, pos + 3));
    HeaderRead(s, pos, p, last);
    match p
    case Plain(d) => PlainRead(s, pos + 3, out, last, d);
    case WithFixed(ts) =>
      FixedPrefix();
      TokensRead(s, pos + 3, out, FixedCoding(last), ts);
    case WithOwn(h, ts) =>
      var c := DynamicCoding(last, GivenAll(h.cs, []), h.nl);
      UsablePrefix(c.lit);
      UsablePrefix(c.dist);
      EmptyPrefix(c.dist);
      WrittenParts(s, pos + 3, CodebookBits(h), TokensBits(ts, h.Lit(), h.Dist()));
      CodebookRead(s, pos + 3, out, last, h);
      TokensRead(s, pos + 3 + |CodebookBits(h)|, out, c, ts);
  }

  // ---- Whole streams ----

  predicate AllFormed(ps: seq<Part>) {
    ps != [] && forall i :: 0 <= i < |ps| ==> Formed(ps[i])
  }

  predicate AllFollow(ps: seq<Part>, out: seq<byte>, w: nat)
    decreases |ps|
  {
    ps != [] ==> Follows(ps[0], out, w) && AllFollow(ps[1..], Unpacked(ps[0], out, w), w)
  }

  function UnpackedAll(ps: seq<Part>, out: seq<byte>, w: nat): seq<byte>
    requires AllFollow(ps, out, w)
    decreases |ps|
  {
    if ps == [] then out else UnpackedAll(ps[1..], Unpacked(ps[0], out, w), w)
  }

  /** Blocks one after the other from bit position pos on. */
  function PartsBits(ps: seq<Part>, pos: nat): Bitstring
    requires AllFormed(ps)
  {
    var b := PartBits(ps[0], |ps| == 1, pos);
    if |ps| == 1 then b else b + PartsBits(ps[1..], pos + |b|)
  }

  /** What is written for blocks is read as those blocks. */
  lemma {:induction false} PartsRead(s: Stream, pos: nat, out: seq<byte>, ps: seq<Part>)
    requires !s.looks && AllFormed(ps) && AllFollow(ps, out, s.wsize) && Written(s, pos, PartsBits(ps, pos))
    ensures Block(s, pos, out) == Complete(UnpackedAll(ps, out, s.wsize), pos + |PartsBits(ps, pos)|)
    decreases |ps|
  {
    hide Written, Block, PartBits, Follows, Unpacked, Formed;
    var b := PartBits(ps[0], |ps| == 1, pos);
    var after := Unpacked(ps[0], out, s.wsize);
    if |ps| > 1 {
      WrittenParts(s, pos, b, PartsBits(ps[1..], pos + |b|));
      PartsRead(s, pos + |b|, after, ps[1..]);
    } else {
      assert ps[1..] == [];
    }
    PartRead(s, pos, out, ps[0], |ps| == 1);
  }

  /** Raw data with these blocks. */
  function RawFile(ps: seq<Part>): seq<byte>
    requires AllFormed(ps)
  {
    Packed(PartsBits(ps, 0))
  }

  /** What is compressed into blocks is what a decoder makes of them, whatever follows; one that looks up
      tables may want to see another byte. */
  lemma RawRoundTrip(ps: seq<Part>, post: seq<byte>, wbits: nat, looks: bool)
    requires AllFormed(ps) && AllFollow(ps, [], P2(wbits)) && (looks ==> post != [])
    ensures Unwrapped(RawFile(ps) + post, 0, wbits, true, looks)
            == Done(UnpackedAll(ps, [], P2(wbits)), |RawFile(ps)|)
  {
    hide Block, P2, AllFormed, AllFollow, PartsBits, UnpackedAll, Packed;
    var b := PartsBits(ps, 0);
    var data := RawFile(ps) + post;
    var s := Stream(data, P2(wbits), false);
    assert data == [] + Packed(b) + post;
    PackedWritten(s, [], b, post);
    PartsRead(s, 0, [], ps);
    if looks {
      Lookahead.EndSeen(data, 0, wbits, true);
    }
  }

  /** Of a file that is cut off a part is expanded, and more is asked for. */
  lemma RawCut(ps: seq<Part>, n: nat, wbits: nat)
    requires AllFormed(ps) && AllFollow(ps, [], P2(wbits)) && n < |RawFile(ps)|
    ensures var c := Unwrapped(RawFile(ps)[..n], 0, wbits, true, false);
            c.Short? && c.out <= UnpackedAll(ps, [], P2(wbits))
  {
    hide Block, P2, AllFormed, AllFollow, PartsBits, UnpackedAll, Packed;
    var b := PartsBits(ps, 0);
    var data := RawFile(ps);
    var s, t := Stream(data[..n], P2(wbits), false), Stream(data, P2(wbits), false);
    assert data == [] + Packed(b) + [];
    PackedWritten(t, [], b, []);
    PartsRead(t, 0, [], ps);
    Lookahead.BlockAgrees(s, t, 0, []);
    DeflateFacts.BlockAhead(s, 0, []);
  }
}
