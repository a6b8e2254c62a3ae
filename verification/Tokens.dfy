/** What a compressor writes for one literal or match, and that it is read back (sections 3.2.5 and 3.2.6 of
    RFC 1951). */
module Tokens {
  import opened BitMath
  import opened Huffman
  import opened Deflate
  import opened ZLib
  import opened BitStrings
  import opened MatchCodes
  import opened RoundTrips
  import Decoding

  /** len bytes like those dist bytes back, or one byte of its own. */
  datatype Token = Literal(b: byte) | Match(len: nat, dist: nat)

  const MAX_MATCH := 258
  const MAX_DIST := 32768

  const END_OF_BLOCK := 256

  // ---- Codes ----

  /** The code of symbol v as it is sent. */
  function SymbolBits(b: Lengths, v: nat): Bitstring
    requires v < |b|
  {
    MsbFirst(Code(b, v), b[v])
  }

  /** Symbol v has a code. */
  predicate Coded(b: Lengths, v: nat) {
    v < |b| && b[v] > 0
  }

  /** A code set in which no code is the beginning of another. */
  predicate Prefix(b: Lengths) {
    Kraft(b) <= P2(MAX_BITS)
  }

  lemma SymbolRead(s: Stream, pos: nat, b: Lengths, v: nat)
    requires Coded(b, v) && Prefix(b) && Written(s, pos, SymbolBits(b, v))
    ensures Matches(b, v, At(s, pos)) && Decode(b, At(s, pos)) == Symbol(v)
    ensures pos + b[v] <= End(s) && pos < End(s)
  {
    hide At, Code, Msb, Kraft, Decode;
    CodeFits(b, v);
    ReadMsb(s, pos, Code(b, v), b[v]);
    DecodeIs(b, v, At(s, pos));
  }

  lemma {:induction false} NotEmpty(b: Lengths, n: nat, v: nat)
    requires v < n <= |b| && b[v] > 0
    ensures Count(b, n, 0) < n
  {
    if v < n - 1 {
      NotEmpty(b, n - 1, v);
    } else {
      CountBound(b, n - 1, 0);
    }
  }

  lemma {:induction false} CountBound(b: Lengths, n: nat, k: nat)
    requires n <= |b|
    ensures Count(b, n, k) <= n
  {
    if n > 0 {
      CountBound(b, n - 1, k);
    }
  }

  // ---- Tokens ----

  /** t can follow the output out, with a window of w bytes. */
  predicate Possible(t: Token, out: seq<byte>, w: nat) {
    match t
    case Literal(_) => true
    case Match(len, dist) => 3 <= len <= MAX_MATCH && 1 <= dist <= MAX_DIST && dist <= |out| && dist <= w
  }

  function Apply(t: Token, out: seq<byte>, w: nat): seq<byte>
    requires Possible(t, out, w)
  {
    match t
    case Literal(b) => out + [b]
    case Match(len, dist) => CopyMatch(out, len, dist)
  }

  /** The codes have what it takes to write t. */
  predicate Writable(t: Token, lit: Lengths, dist: Lengths) {
    match t
    case Literal(b) => Coded(lit, b)
    case Match(len, d) =>
      3 <= len <= MAX_MATCH && 1 <= d <= MAX_DIST && Coded(lit, LengthSymbol(len)) && Coded(dist, DistanceSymbol(d))
  }

  function LengthBits(len: nat, lit: Lengths): Bitstring
    requires 3 <= len && Coded(lit, LengthSymbol(len))
  {
    var e := LengthExtraBits(len);
    SymbolBits(lit, LengthSymbol(len)) + Lsb(Low(len - 3, e), e)
  }

  function DistanceBits(d: nat, dist: Lengths): Bitstring
    requires 1 <= d && Coded(dist, DistanceSymbol(d))
  {
    var e := DistanceExtraBits(d);
    SymbolBits(dist, DistanceSymbol(d)) + Lsb(Low(d - 1, e), e)
  }

  function TokenBits(t: Token, lit: Lengths, dist: Lengths): Bitstring
    requires Writable(t, lit, dist)
  {
    match t
    case Literal(b) => SymbolBits(lit, b)
    case Match(len, d) => LengthBits(len, lit) + DistanceBits(d, dist)
  }

  lemma NeedOne(s: Stream, b: Lengths, m: nat, pos: nat, v: nat)
    requires !s.looks && Coded(b, v) && Prefix(b) && Written(s, pos, SymbolBits(b, v))
    ensures pos < End(s) && Decode(b, At(s, pos)) == Symbol(v) && Need(s, b, m, At(s, pos)) == b[v]
    ensures pos + b[v] <= End(s)
  {
    hide At, Decode, Prefix, SymbolBits;
    SymbolRead(s, pos, b, v);
    NeedPlain(s, b, m, At(s, pos), v);
  }

  lemma MatchSymbolRead(s: Stream, pos: nat, out: seq<byte>, c: Coding, v: nat)
    requires !s.looks && 257 <= v <= 285 && Coded(c.lit, v) && Prefix(c.lit) && Written(s, pos, SymbolBits(c.lit, v))
    ensures |LENGTH_BASE| == |LENGTH_EXTRA| == 29
    ensures OneSymbol(s, pos, out, c)
            == LengthExtra(s, pos + c.lit[v], out, c, LENGTH_BASE[v - 257], LENGTH_EXTRA[v - 257])
  {
    LengthLaw();
    hide At, LengthExtra, OneSymbol, LENGTH_BASE, LENGTH_EXTRA, Prefix, Decode, Need, SymbolBits, Written, P2;
    NeedOne(s, c.lit, c.lbits, pos, v);
    Decoding.OneSymbolAt(s, pos, out, c);
  }

  /** A length is read up to the distance that belongs to it. */
  lemma LengthRead(s: Stream, pos: nat, out: seq<byte>, c: Coding, len: nat)
    requires !s.looks && 3 <= len <= MAX_MATCH && Coded(c.lit, LengthSymbol(len)) && Prefix(c.lit)
    requires Written(s, pos, LengthBits(len, c.lit))
    ensures OneSymbol(s, pos, out, c) == Distance(s, pos + |LengthBits(len, c.lit)|, out, c, len)
  {
    hide At, Bits, Distance, OneSymbol, LengthSymbol, LengthExtraBits, LENGTH_BASE, LENGTH_EXTRA, Prefix, Low, P2,
      SymbolBits, Written, Lsb;
    var v, e := LengthSymbol(len), LengthExtraBits(len);
    var extra := Low(len - 3, e);
    LengthCoded(len);
    WrittenParts(s, pos, SymbolBits(c.lit, v), Lsb(extra, e));
    SymbolSize(c.lit, v);
    MatchSymbolRead(s, pos, out, c, v);
    ReadLsb(s, pos + c.lit[v], extra, e);
    WrittenWithin(s, pos + c.lit[v], Lsb(extra, e));
    NoBits(len - 3);
  }

  lemma SymbolSize(b: Lengths, v: nat)
    requires v < |b|
    ensures |SymbolBits(b, v)| == b[v]
  {
  }

  lemma WrittenWithin(s: Stream, pos: nat, b: Bitstring)
    requires Written(s, pos, b)
    ensures pos + |b| <= End(s)
  {
  }

  lemma DistanceSymbolRead(s: Stream, pos: nat, out: seq<byte>, c: Coding, len: nat, v: nat)
    requires !s.looks && v <= 29 && Coded(c.dist, v) && Prefix(c.dist) && Written(s, pos, SymbolBits(c.dist, v))
    ensures |DIST_BASE| == |DIST_EXTRA| == 30
    ensures Distance(s, pos, out, c, len)
            == DistanceExtra(s, pos + c.dist[v], out, len, DIST_BASE[v], DIST_EXTRA[v])
  {
    DistanceLaw();
    hide At, DistanceExtra, Distance, DIST_BASE, DIST_EXTRA, Prefix, Decode, Need, SymbolBits, Written, P2;
    NotEmpty(c.dist, |c.dist|, v);
    NeedOne(s, c.dist, c.dbits, pos, v);
    Decoding.DistanceAt(s, pos, out, c, len);
  }

  /** A distance is read. */
  lemma DistanceRead(s: Stream, pos: nat, out: seq<byte>, c: Coding, len: nat, d: nat)
    requires !s.looks && 1 <= d <= MAX_DIST && d <= |out| && d <= s.wsize
    requires Coded(c.dist, DistanceSymbol(d)) && Prefix(c.dist)
    requires Written(s, pos, DistanceBits(d, c.dist))
    ensures Distance(s, pos, out, c, len) == Went(pos + |DistanceBits(d, c.dist)|, CopyMatch(out, len, d))
  {
    hide At, Bits, Distance, CopyMatch, DistanceSymbol, DistanceExtraBits, DIST_BASE, DIST_EXTRA, Prefix, Low, P2,
      SymbolBits, Written, Lsb;
    var v, e := DistanceSymbol(d), DistanceExtraBits(d);
    var extra := Low(d - 1, e);
    DistanceCoded(d);
    WrittenParts(s, pos, SymbolBits(c.dist, v), Lsb(extra, e));
    SymbolSize(c.dist, v);
    DistanceSymbolRead(s, pos, out, c, len, v);
    ReadLsb(s, pos + c.dist[v], extra, e);
    WrittenWithin(s, pos + c.dist[v], Lsb(extra, e));
  }

  /** What is written for a token is read as that token. */
  lemma TokenRead(s: Stream, pos: nat, out: seq<byte>, c: Coding, t: Token)
    requires !s.looks && Writable(t, c.lit, c.dist) && Possible(t, out, s.wsize) && Prefix(c.lit) && Prefix(c.dist)
    requires Written(s, pos, TokenBits(t, c.lit, c.dist))
    ensures OneSymbol(s, pos, out, c) == Went(pos + |TokenBits(t, c.lit, c.dist)|, Apply(t, out, s.wsize))
  {
    hide At, Prefix, Written, LengthBits, DistanceBits, OneSymbol, Distance, Decode, LengthSymbol, DistanceSymbol;
    match t
    case Literal(b) =>
      SymbolSize(c.lit, b);
      SymbolRead(s, pos, c.lit, b);
      PlainSymbol(s, pos, out, c, b);
    case Match(len, d) =>
      WrittenParts(s, pos, LengthBits(len, c.lit), DistanceBits(d, c.dist));
      LengthRead(s, pos, out, c, len);
      DistanceRead(s, pos + |LengthBits(len, c.lit)|, out, c, len, d);
  }

  // ---- Token after token ----

  /** The tokens can follow the output out one after the other. */
  predicate AllPossible(ts: seq<Token>, out: seq<byte>, w: nat)
    decreases |ts|
  {
    ts != [] ==> Possible(ts[0], out, w) && AllPossible(ts[1..], Apply(ts[0], out, w), w)
  }

  function ApplyAll(ts: seq<Token>, out: seq<byte>, w: nat): seq<byte>
    requires AllPossible(ts, out, w)
    decreases |ts|
  {
    if ts == [] then out else ApplyAll(ts[1..], Apply(ts[0], out, w), w)
  }

  predicate AllWritable(ts: seq<Token>, lit: Lengths, dist: Lengths) {
    forall i :: 0 <= i < |ts| ==> Writable(ts[i], lit, dist)
  }

  /** Tokens and the end of the block. */
  function TokensBits(ts: seq<Token>, lit: Lengths, dist: Lengths): Bitstring
    requires AllWritable(ts, lit, dist) && Coded(lit, END_OF_BLOCK)
  {
    if ts == [] then SymbolBits(lit, END_OF_BLOCK)
    else TokenBits(ts[0], lit, dist) + TokensBits(ts[1..], lit, dist)
  }

  /** The outcome once the block has ended. */
  function AfterCodes(s: Stream, pos: nat, out: seq<byte>, last: bool): Outcome {
    Held(EndBlock(s, pos, out, last), |out|)
  }

  lemma {:induction false} TokensRead(s: Stream, pos: nat, out: seq<byte>, c: Coding, ts: seq<Token>)
    requires !s.looks && Prefix(c.lit) && Prefix(c.dist) && Coded(c.lit, END_OF_BLOCK)
    requires AllWritable(ts, c.lit, c.dist) && AllPossible(ts, out, s.wsize)
    requires Written(s, pos, TokensBits(ts, c.lit, c.dist))
    ensures Codes(s, pos, out, c)
            == AfterCodes(s, pos + |TokensBits(ts, c.lit, c.dist)|, ApplyAll(ts, out, s.wsize), c.last)
    decreases |ts|
  {
    hide At, Prefix, Written, OneSymbol, EndBlock, TokenBits, Apply, Possible, Decode, Writable;
    if ts == [] {
      SymbolSize(c.lit, END_OF_BLOCK);
      SymbolRead(s, pos, c.lit, END_OF_BLOCK);
      PlainSymbol(s, pos, out, c, END_OF_BLOCK);
    } else {
      var t := ts[0];
      WrittenParts(s, pos, TokenBits(t, c.lit, c.dist), TokensBits(ts[1..], c.lit, c.dist));
      TokenRead(s, pos, out, c, t);
      TokensRead(s, pos + |TokenBits(t, c.lit, c.dist)|, Apply(t, out, s.wsize), c, ts[1..]);
    }
  }
}
