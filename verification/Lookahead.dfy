/** A decoder that looks up tables and the format itself: as long as the data suffice they agree, and
    the decoder never needs more than one byte beyond what the format needs. */
module Lookahead {
  import opened BitMath
  import opened Words
  import opened Huffman
  import opened CodeCounts
  import opened InfTrees
  import opened Deflate
  import opened DeflateFacts
  import opened ZlibFormat
  import opened ZLib
  import Adler32

  /** t has the data that s has, and at least one byte more if it is t that looks ahead. */
  predicate Within(s: Stream, t: Stream) {
    s.data <= t.data && s.wsize == t.wsize && (t.looks ==> !s.looks && |s.data| < |t.data|)
  }

  /** A code set that decoding may come to, with tables of at most nine bits. */
  predicate Legal(b: Lengths, m: nat) {
    !Empty(b) && (Usable(b) || b == FixedDist()) && Width(b, m) <= 9
  }

  // ---- The bits that both have ----

  /** s has the first bits of t from pos on. */
  lemma AtWithin(s: Stream, t: Stream, pos: nat)
    requires s.data <= t.data && pos <= End(s)
    ensures At(s, pos) == Low(At(t, pos), End(s) - pos)
  {
    hide Shl, Shr, Low, P2, Num;
    var rest := t.data[|s.data|..];
    assert t.data == s.data + rest;
    NumConcat(s.data, rest);
    NumBound(s.data);
    ShrLowUnique(Num(t.data), End(s), Num(rest), Num(s.data));
    LowOfLow(Num(t.data), pos, End(s));
  }

  lemma BitsWithin(s: Stream, t: Stream, pos: nat, n: nat)
    requires s.data <= t.data && pos + n <= End(s)
    ensures Bits(s, pos, n) == Bits(t, pos, n)
  {
    hide At, Low;
    AtWithin(s, t, pos);
    LowOfLow(At(t, pos), n, End(s) - pos);
  }

  // ---- Codes ----

  /** A code that lies within the first n bits is found whatever follows. */
  lemma DecodeWithin(b: Lengths, x: nat, y: nat, n: nat)
    requires x == Low(y, n) && (CodeLength(b, x) <= n || CodeLength(b, y) <= n)
    ensures Decode(b, x) == Decode(b, y)
  {
    hide Low, Msb, Decode, Code, Count, Counts, Longest;
    forall v: nat | v < |b|
      ensures b[v] <= n ==> (Matches(b, v, x) <==> Matches(b, v, y))
      ensures b[v] <= Longest(Counts(b), MAX_BITS)
    {
      if b[v] <= n {
        MsbLow(y, b[v], n);
      }
      LongestIs(b, v);
    }
    var dx, dy := Decode(b, x), Decode(b, y);
    if dx.Symbol? && b[dx.value] <= n {
      DecodeIs(b, dx.value, y);
    } else if dy.Symbol? && b[dy.value] <= n {
      DecodeIs(b, dy.value, x);
    }
  }

  lemma LongestIs(b: Lengths, v: nat)
    requires v < |b|
    ensures b[v] <= Longest(Counts(b), MAX_BITS)
  {
    if b[v] > 0 {
      LengthUsed(b, v, Longest(Counts(b), MAX_BITS));
    }
  }

  // ---- How far a decoder looks ahead ----

  /** A look begins before the code ends, and takes at most l bits. */
  lemma {:induction false} LooksBound(c: seq<nat>, l: nat, y: nat, w: nat, k: nat)
    requires |c| == MAX_BITS + 1 && l >= 1 && w < k <= MAX_BITS
    requires Start(c, w + 1) <= y < Start(c, k + 1)
    ensures LooksFrom(c, l, y, w) < k + l
    decreases MAX_BITS - w
  {
    hide Start, ClassEnd;
    if w + l < MAX_BITS && y >= Start(c, w + l + 1) {
      if k <= w + l {
        StartMono(c, k + 1, w + l + 1);
      }
      LooksBound(c, l, y, w + l, k);
    }
  }

  /** The dummy codes complete the set. */
  lemma FullStart(b: Lengths)
    requires !Empty(b) && Kraft(b) <= P2(MAX_BITS)
    ensures var g := Longest(Counts(b), MAX_BITS); g >= 1 && Start(FullCounts(b), g + 1) == P2(MAX_BITS)
  {
    hide Start, Shl, P2, Count, Counts, Longest, NextCode, Missing, Shr, Low;
    var c, g := Counts(b), Longest(Counts(b), MAX_BITS);
    LongestPositive(b);
    StartSame(c, g + 1, MAX_BITS + 1);
    StartNext(c, g);
    StartIsNextCode(c, g);
    var u := NextCode(c, g) + c[g];
    ShlPlus(NextCode(c, g), c[g], MAX_BITS - g);
    ShlP2(g, MAX_BITS - g);
    if u > P2(g) {
      ShlStrict(P2(g), u, MAX_BITS - g);
    }
    var y := P2(g) - u;
    ShlPlus(u, y, MAX_BITS - g);
    LeftoverMissing(b, g, y);
    var c' := Completed(c, g, y);
    StartAgrees(c, c', g);
    StartNext(c', g);
    ShlPlus(c[g], y, MAX_BITS - g);
  }

  lemma {:induction false} StartGrows(c: seq<nat>, c': seq<nat>, k: nat)
    requires |c| == |c'| == MAX_BITS + 1 && k <= MAX_BITS + 1 && forall j :: 0 <= j <= MAX_BITS ==> c[j] <= c'[j]
    ensures Start(c, k) <= Start(c', k)
  {
    if k > 1 {
      StartGrows(c, c', k - 1);
      ShlMono(c[k - 1], c'[k - 1], MAX_BITS - (k - 1));
    }
  }

  /** The code that x begins with ends where its length says. */
  lemma CodeBefore(b: Lengths, x: nat)
    requires !Empty(b) && Kraft(b) <= P2(MAX_BITS)
    ensures 1 <= CodeLength(b, x) <= MAX_BITS && Msb(x, MAX_BITS) < Start(FullCounts(b), CodeLength(b, x) + 1)
  {
    hide Start, Shl, P2, Count, Counts, Longest, Missing, Msb, Lo, Decode, Kraft;
    FullStart(b);
    MsbBound(x, MAX_BITS);
    var d := Decode(b, x);
    if d.Symbol? {
      var v := d.value;
      MatchesInterval(b, v, x);
      LoBelow(Counts(b), b[v], Count(b, v, b[v]));
      StartGrows(Counts(b), FullCounts(b), b[v] + 1);
    }
  }

  /** Decoding a code takes at most eight bits more than the code has. */
  lemma NeedBound(s: Stream, b: Lengths, m: nat, x: nat)
    requires Legal(b, m)
    ensures Need(s, b, m, x) <= CodeLength(b, x) + 8
  {
    hide Start, Shl, P2, Count, Counts, Longest, Missing, Msb, Decode, Kraft, Width, CodeLength, FullCounts, LooksFrom;
    if Kraft(b) <= P2(MAX_BITS) && Width(b, m) >= 1 {
      CodeBefore(b, x);
      NoCodes(FullCounts(b));
      LooksBound(FullCounts(b), Width(b, m), Msb(x, MAX_BITS), 0, CodeLength(b, x));
    }
  }

  lemma NoCodes(c: seq<nat>)
    requires |c| == MAX_BITS + 1
    ensures Start(c, 1) == 0
  {
  }

  /** When the data of s suffice for the code at pos, s and t decode the same; else the code ends less
      than a byte before the end of s, or beyond it. */
  lemma CodeWithin(s: Stream, t: Stream, b: Lengths, m: nat, pos: nat)
    requires Within(s, t) && Legal(b, m) && pos < End(s)
    ensures var x, y := At(s, pos), At(t, pos);
            && (pos + Need(s, b, m, x) <= End(s) ==> Decode(b, x) == Decode(b, y) && pos + Need(t, b, m, y) <= End(t))
            && (pos + Need(s, b, m, x) > End(s) ==> pos + CodeLength(b, y) + 8 > End(s))
            && (Decode(b, x).NoSymbol? && (Usable(b) || Count(b, |b|, 0) > 0) ==> Decode(b, x) == Decode(b, y))
  {
    hide Start, Shl, P2, Count, Counts, Longest, Missing, Msb, Kraft, Width, FullCounts, LooksFrom, At, Low, FixedDist;
    var x, y, n := At(s, pos), At(t, pos), End(s) - pos;
    AtWithin(s, t, pos);
    NeedBound(s, b, m, x);
    NeedBound(t, b, m, y);
    if Decode(b, x).NoSymbol? {
      Unfound(b, x);
    }
    if CodeLength(b, x) <= n || CodeLength(b, y) <= n {
      DecodeWithin(b, x, y, n);
    }
  }

  /** A stream that begins with no code shows it at its first bit, or by the longest code. */
  lemma Unfound(b: Lengths, x: nat)
    requires (Usable(b) || b == FixedDist()) && Decode(b, x).NoSymbol?
    ensures Usable(b) || Count(b, |b|, 0) > 0 ==> Longest(Counts(b), MAX_BITS) == 1
  {
    hide Start, Shl, P2, Counts, Longest, Msb, Kraft, Decode;
    CompleteDecodes(b);
    if b == FixedDist() {
      CountRun(b, 0, 30, 5, 0);
    }
  }

  // ---- One symbol ----

  /** x, seen with the data of s, is y, seen with those of t; or s is cut off, less than a byte after
      the end of the symbol. */
  predicate StepAgrees(s: Stream, x: Step, y: Step) {
    x == y || (x.Cut? && (y.Went? || y.Ended? ==> y.pos + 8 > End(s)))
  }

  lemma DistanceExtraAgrees(s: Stream, t: Stream, pos: nat, out: seq<byte>, len: nat, base: nat, extra: nat)
    requires Within(s, t)
    ensures StepAgrees(s, DistanceExtra(s, pos, out, len, base, extra), DistanceExtra(t, pos, out, len, base, extra))
  {
    hide Bits, CopyMatch;
    DistanceExtraAhead(t, pos, out, len, base, extra);
    if pos + extra <= End(s) {
      BitsWithin(s, t, pos, extra);
    }
  }

  lemma DistanceAgrees(s: Stream, t: Stream, pos: nat, out: seq<byte>, c: Coding, len: nat)
    requires Within(s, t) && (!Empty(c.dist) ==> Legal(c.dist, c.dbits))
    ensures StepAgrees(s, Distance(s, pos, out, c, len), Distance(t, pos, out, c, len))
  {
    hide At, DistanceExtra, Decode, Count, Need, Legal, DIST_BASE, DIST_EXTRA, Empty;
    if !Empty(c.dist) && pos < End(s) {
      CodeWithin(s, t, c.dist, c.dbits, pos);
      DistanceLong(t, pos, out, c, len);
      var d := Decode(c.dist, At(s, pos));
      if d.Symbol? && pos + Need(s, c.dist, c.dbits, At(s, pos)) <= End(s) && d.value <= 29 {
        TableSizes();
        DistanceExtraAgrees(s, t, pos + c.dist[d.value], out, len, DIST_BASE[d.value], DIST_EXTRA[d.value]);
      }
    } else {
      DistanceAhead(t, pos, out, c, len);
    }
  }

  /** A symbol goes on at least to the end of its first code. */
  lemma DistanceLong(t: Stream, pos: nat, out: seq<byte>, c: Coding, len: nat)
    requires !Empty(c.dist)
    ensures StepAhead(t, Distance(t, pos, out, c, len), pos + CodeLength(c.dist, At(t, pos)), out)
  {
    hide At, DistanceExtra, Decode, Count, DIST_BASE, DIST_EXTRA, Empty, Looks, Width, Longest;
    var d := Decode(c.dist, At(t, pos));
    if pos < End(t) && d.Symbol? && d.value <= 29 {
      TableSizes();
      DistanceExtraAhead(t, pos + c.dist[d.value], out, len, DIST_BASE[d.value], DIST_EXTRA[d.value]);
    }
  }

  lemma LengthExtraAgrees(s: Stream, t: Stream, pos: nat, out: seq<byte>, c: Coding, base: nat, extra: nat)
    requires Within(s, t) && (!Empty(c.dist) ==> Legal(c.dist, c.dbits))
    ensures StepAgrees(s, LengthExtra(s, pos, out, c, base, extra), LengthExtra(t, pos, out, c, base, extra))
  {
    hide Bits, Distance, Empty, Legal;
    LengthExtraAhead(t, pos, out, c, base, extra);
    if pos + extra <= End(s) {
      BitsWithin(s, t, pos, extra);
      DistanceAgrees(s, t, pos + extra, out, c, base + Bits(s, pos, extra));
    }
  }

  lemma OneSymbolLong(t: Stream, pos: nat, out: seq<byte>, c: Coding)
    ensures StepAhead(t, OneSymbol(t, pos, out, c), pos + CodeLength(c.lit, At(t, pos)), out)
  {
    hide At, LengthExtra, Decode, Count, LENGTH_BASE, LENGTH_EXTRA, Looks, Width, Longest;
    var d := Decode(c.lit, At(t, pos));
    if pos < End(t) && d.Symbol? && 257 <= d.value <= 285 {
      TableSizes();
      LengthExtraAhead(t, pos + c.lit[d.value], out, c, LENGTH_BASE[d.value - 257], LENGTH_EXTRA[d.value - 257]);
    }
  }

  lemma OneSymbolAgrees(s: Stream, t: Stream, pos: nat, out: seq<byte>, c: Coding)
    requires Within(s, t) && Legal(c.lit, c.lbits) && (!Empty(c.dist) ==> Legal(c.dist, c.dbits))
    ensures StepAgrees(s, OneSymbol(s, pos, out, c), OneSymbol(t, pos, out, c))
  {
    hide At, LengthExtra, Decode, Count, Need, Legal, LENGTH_BASE, LENGTH_EXTRA, Empty;
    if pos < End(s) {
      CodeWithin(s, t, c.lit, c.lbits, pos);
      OneSymbolLong(t, pos, out, c);
      var d := Decode(c.lit, At(s, pos));
      if d.Symbol? && pos + Need(s, c.lit, c.lbits, At(s, pos)) <= End(s) && 257 <= d.value <= 285 {
        TableSizes();
        LengthExtraAgrees(s, t, pos + c.lit[d.value], out, c, LENGTH_BASE[d.value - 257], LENGTH_EXTRA[d.value - 257]);
      }
    } else {
      OneSymbolAhead(t, pos, out, c);
    }
  }

  // ---- Blocks ----

  /** x, seen with the data of s, is y, seen with those of t; or s is cut short, with a part of the
      output, and ends less than a byte after the end of what t holds. */
  predicate Agrees(s: Stream, x: Outcome, y: Outcome) {
    x == y || (x.Truncated? && match y
                               case Complete(o, e) => x.out <= o && e + 8 > End(s)
                               case Bad(o, _) => x.out <= o
                               case Truncated(o) => x.out <= o
                               case Undefined => true)
  }

  lemma {:induction false} CodesAgree(s: Stream, t: Stream, pos: nat, out: seq<byte>, c: Coding)
    requires Within(s, t) && Legal(c.lit, c.lbits) && (!Empty(c.dist) ==> Legal(c.dist, c.dbits))
    ensures Agrees(s, Codes(s, pos, out, c), Codes(t, pos, out, c))
    decreases Left(s, pos), 3
  {
    hide OneSymbol, EndBlock, Legal, Empty;
    OneSymbolAgrees(s, t, pos, out, c);
    OneSymbolAhead(t, pos, out, c);
    match OneSymbol(s, pos, out, c)
    case Went(p, o) => CodesAgree(s, t, p, o, c);
    case Ended(p) => EndBlockAgrees(s, t, p, out, c.last);
    case Cut =>
      match OneSymbol(t, pos, out, c) {
        case Went(p, o) => CodesAhead(t, p, o, c);
        case Ended(p) => EndBlockAhead(t, p, out, c.last);
        case _ =>
      }
    case _ =>
  }

  lemma {:induction false} EndBlockAgrees(s: Stream, t: Stream, pos: nat, out: seq<byte>, last: bool)
    requires Within(s, t)
    ensures Agrees(s, EndBlock(s, pos, out, last), EndBlock(t, pos, out, last))
    decreases Left(s, pos), 1
  {
    hide Block;
    if !last {
      BlockAgrees(s, t, pos, out);
    }
  }

  lemma {:induction false} BlockAgrees(s: Stream, t: Stream, pos: nat, out: seq<byte>)
    requires Within(s, t)
    ensures Agrees(s, Block(s, pos, out), Block(t, pos, out))
    decreases Left(s, pos), 0
  {
    hide Bits, Codes, StoredHeader, Table, FixedCoding, Empty, Legal, Align;
    BlockAhead(t, pos, out);
    if pos + 3 <= End(s) {
      BitsWithin(s, t, pos, 3);
      var last := Bits(s, pos, 3) % 2 == 1;
      StoredHeaderAgrees(s, t, Align(pos + 3), out, last);
      FixedLegal(last);
      CodesAgree(s, t, pos + 3, out, FixedCoding(last));
      TableAgrees(s, t, pos + 3, out, last);
    }
  }

  lemma FixedLegal(last: bool)
    ensures var c := FixedCoding(last); Legal(c.lit, c.lbits) && Legal(c.dist, c.dbits)
  {
    hide FixedLit, FixedDist, Kraft, Width;
    FixedLitShape();
    FixedDistShape();
  }

  lemma {:induction false} StoredHeaderAgrees(s: Stream, t: Stream, pos: nat, out: seq<byte>, last: bool)
    requires Within(s, t) && pos % 8 == 0
    ensures Agrees(s, StoredHeader(s, pos, out, last), StoredHeader(t, pos, out, last))
    decreases Left(s, pos), 0
  {
    hide Bits, Stored;
    StoredHeaderAhead(t, pos, out, last);
    if pos + 32 <= End(s) {
      BitsWithin(s, t, pos, 16);
      BitsWithin(s, t, pos + 16, 16);
      StoredAgrees(s, t, BlockData(pos), Bits(s, pos, 16), out, last);
    }
  }

  lemma {:induction false} StoredAgrees(s: Stream, t: Stream, p: nat, left: nat, out: seq<byte>, last: bool)
    requires Within(s, t)
    ensures Agrees(s, Stored(s, p, left, out, last), Stored(t, p, left, out, last))
    decreases Left(s, 8 * p), 2
  {
    hide EndBlock;
    if p + left <= |s.data| {
      assert s.data[p..p + left] == t.data[p..p + left];
      EndBlockAgrees(s, t, 8 * (p + left), out + s.data[p..p + left], last);
    } else {
      if p + left <= |t.data| {
        EndBlockAhead(t, 8 * (p + left), out + t.data[p..p + left], last);
      }
      assert p <= |s.data| ==> s.data[p..] <= t.data[p..];
      assert p <= |s.data| && p + left <= |t.data| ==> s.data[p..] <= t.data[p..p + left];
    }
  }

  lemma {:induction false} TableAgrees(s: Stream, t: Stream, pos: nat, out: seq<byte>, last: bool)
    requires Within(s, t)
    ensures Agrees(s, Table(s, pos, out, last), Table(t, pos, out, last))
    decreases Left(s, pos), 0
  {
    hide Bits, CodeLengthCode;
    TableAhead(t, pos, out, last);
    if pos + 14 <= End(s) {
      BitsWithin(s, t, pos, 5);
      BitsWithin(s, t, pos + 5, 5);
      BitsWithin(s, t, pos + 10, 4);
      if Bits(s, pos, 5) <= 29 && Bits(s, pos + 5, 5) <= 29 {
        CodeLengthCodeAgrees(s, t, pos + 14, out, last,
                             257 + Bits(s, pos, 5), 1 + Bits(s, pos + 5, 5), 4 + Bits(s, pos + 10, 4));
      }
    }
  }

  lemma LengthsWithin(s: Stream, t: Stream, pos: nat, n: nat)
    requires Within(s, t) && pos + 3 * n <= End(s)
    ensures CodeLengthLengths(s, pos, n) == CodeLengthLengths(t, pos, n)
  {
    hide Bits, OrderOf;
    forall i | 0 <= i < 19 && OrderOf(i, 0) < n
      ensures Bits(s, pos + 3 * OrderOf(i, 0), 3) == Bits(t, pos + 3 * OrderOf(i, 0), 3)
    {
      BitsWithin(s, t, pos + 3 * OrderOf(i, 0), 3);
    }
  }

  /** A usable set of fewer than 2^m codes is decoded with a table of at most m bits. */
  lemma UsableLegal(b: Lengths, m: nat)
    requires !Empty(b) && Usable(b) && 1 <= m <= 9 && |b| < P2(m)
    ensures Legal(b, m)
  {
    hide Empty, Usable, Width, P2;
    UsableRoomy(b, m);
  }

  lemma {:induction false} CodeLengthCodeAgrees(s: Stream, t: Stream, pos: nat, out: seq<byte>, last: bool, nl: nat,
                                                nd: nat, n: nat)
    requires Within(s, t) && nl <= 286 && nd <= 30
    ensures Agrees(s, CodeLengthCode(s, pos, out, last, nl, nd, n), CodeLengthCode(t, pos, out, last, nl, nd, n))
    decreases Left(s, pos), 6
  {
    hide Bits, LengthCodes, CodeLengthLengths, Usable, Empty, Legal;
    CodeLengthCodeAhead(t, pos, out, last, nl, nd, n);
    if pos + 3 * n <= End(s) {
      LengthsWithin(s, t, pos, n);
      var bl := CodeLengthLengths(s, pos, n);
      if !Empty(bl) && Usable(bl) {
        P2Small();
        UsableLegal(bl, LENGTH_BITS);
        LengthCodesAgree(s, t, pos + 3 * n, out, last, nl, nd, bl, []);
      }
    }
  }

  lemma {:induction false} LengthCodesAgree(s: Stream, t: Stream, pos: nat, out: seq<byte>, last: bool, nl: nat,
                                            nd: nat, bl: Lengths, lens: Lengths)
    requires Within(s, t) && nl <= 286 && nd <= 30 && Usable(bl) && Legal(bl, LENGTH_BITS) && |lens| <= nl + nd
    ensures Agrees(s, LengthCodes(s, pos, out, last, nl, nd, bl, lens),
                   LengthCodes(t, pos, out, last, nl, nd, bl, lens))
    decreases Left(s, pos), 5
  {
    hide Bits, At, Trees, Decode, RepeatCode, Need, Legal, Usable, DynamicCoding;
    if |lens| >= nl + nd {
      TreesAgree(s, t, pos, out, last, lens, nl, nd);
    } else if pos >= End(s) {
      LengthCodesAhead(t, pos, out, last, nl, nd, bl, lens);
    } else {
      CodeWithin(s, t, bl, LENGTH_BITS, pos);
      LengthCodesLong(t, pos, out, last, nl, nd, bl, lens);
      var d := Decode(bl, At(s, pos));
      if d.Symbol? && pos + Need(s, bl, LENGTH_BITS, At(s, pos)) <= End(s) {
        assert bl[d.value] > 0 by { assert Matches(bl, d.value, At(s, pos)); }
        if d.value < 16 {
          LengthCodesAgree(s, t, pos + bl[d.value], out, last, nl, nd, bl, lens + [d.value]);
        } else {
          RepeatCodeAgrees(s, t, pos + bl[d.value], out, last, nl, nd, bl, lens, d.value);
        }
      }
    }
  }

  /** The code lengths go on at least to the end of the code at pos. */
  lemma LengthCodesLong(t: Stream, pos: nat, out: seq<byte>, last: bool, nl: nat, nd: nat, bl: Lengths, lens: Lengths)
    requires |lens| < nl + nd
    ensures Ahead(t, LengthCodes(t, pos, out, last, nl, nd, bl, lens), pos + CodeLength(bl, At(t, pos)), out)
  {
    hide Bits, At, Decode, RepeatCode, Looks, Width, Longest;
    var d := Decode(bl, At(t, pos));
    if pos < End(t) && d.Symbol? {
      if d.value < 16 {
        LengthCodesAhead(t, pos + bl[d.value], out, last, nl, nd, bl, lens + [d.value]);
      } else {
        RepeatCodeAhead(t, pos + bl[d.value], out, last, nl, nd, bl, lens, d.value);
      }
    }
  }

  lemma {:induction false} RepeatCodeAgrees(s: Stream, t: Stream, pos: nat, out: seq<byte>, last: bool, nl: nat,
                                            nd: nat, bl: Lengths, lens: Lengths, v: nat)
    requires Within(s, t) && nl <= 286 && nd <= 30 && Usable(bl) && Legal(bl, LENGTH_BITS) && |lens| <= nl + nd
    requires v >= 16
    ensures Agrees(s, RepeatCode(s, pos, out, last, nl, nd, bl, lens, v),
                   RepeatCode(t, pos, out, last, nl, nd, bl, lens, v))
    decreases Left(s, pos), 6
  {
    hide Bits, LengthCodes, Repeat, Legal, Usable;
    RepeatCodeAhead(t, pos, out, last, nl, nd, bl, lens, v);
    var extra := RepeatExtra(v);
    if pos + extra <= End(s) {
      BitsWithin(s, t, pos, extra);
      var n := RepeatBase(v) + Bits(s, pos, extra);
      if |lens| + n <= nl + nd && (v != 16 || |lens| > 0) {
        LengthCodesAgree(s, t, pos + extra, out, last, nl, nd, bl,
                         lens + Repeat(n, if v == 16 then lens[|lens| - 1] else 0));
      }
    }
  }

  lemma {:induction false} TreesAgree(s: Stream, t: Stream, pos: nat, out: seq<byte>, last: bool, lens: Lengths,
                                      nl: nat, nd: nat)
    requires Within(s, t) && nl <= 286 && nd <= 30 && |lens| == nl + nd
    ensures Agrees(s, Trees(s, pos, out, DynamicCoding(last, lens, nl)),
                   Trees(t, pos, out, DynamicCoding(last, lens, nl)))
    decreases Left(s, pos), 4
  {
    hide Codes, Usable, Empty, Legal;
    var c := DynamicCoding(last, lens, nl);
    P2Small();
    if !Empty(c.lit) && Usable(c.lit) && (Empty(c.dist) || Usable(c.dist)) {
      UsableLegal(c.lit, c.lbits);
      if !Empty(c.dist) {
        UsableLegal(c.dist, c.dbits);
      }
      CodesAgree(s, t, pos, out, c);
    }
  }

  // ---- Whole streams ----

  /** What a decoder that looks ahead makes of a stream is what the stream holds, or a part of it with
      more input wanted. */
  lemma NeverAhead(data: seq<byte>, start: nat, wbits: nat, nowrap: bool)
    ensures var u, v := Unwrapped(data, start, wbits, nowrap, true), Unwrapped(data, start, wbits, nowrap, false);
            u == v || (u.Short? && (v.Unspecified? || u.out <= Output(v)))
  {
    hide Block, P2, Adler32.Adler, Word;
    var s, t := Stream(data, P2(wbits), true), Stream(data, P2(wbits), false);
    BlockAgrees(s, t, if nowrap then 8 * start else 8 * (start + 2), []);
  }

  /** A byte more than what settles the case of a stream settles it for a decoder that looks ahead. */
  lemma OneByteMore(data: seq<byte>, more: seq<byte>, start: nat, wbits: nat, nowrap: bool)
    requires |more| > 0 && !Unwrapped(data, start, wbits, nowrap, false).Short?
    ensures Unwrapped(data + more, start, wbits, nowrap, true) == Unwrapped(data, start, wbits, nowrap, false)
  {
    hide Block, P2, Adler32.Adler, Word;
    var s, t := Stream(data, P2(wbits), false), Stream(data + more, P2(wbits), true);
    var pos := if nowrap then 8 * start else 8 * (start + 2);
    BlockAgrees(s, t, pos, []);
    BlockAhead(s, pos, []);
    if !nowrap {
      CheckedMore(data, more, Block(s, pos, []));
    }
  }

  lemma CheckedMore(data: seq<byte>, more: seq<byte>, o: Outcome)
    ensures !Checked(data, o).Short? ==> Checked(data + more, o) == Checked(data, o)
  {
    hide Adler32.Adler;
  }

  /** The end of a stream is seen at once, if a check value or another byte follows. */
  lemma EndSeen(data: seq<byte>, start: nat, wbits: nat, nowrap: bool)
    requires var v := Unwrapped(data, start, wbits, nowrap, false); v.Done? && (nowrap ==> v.end < |data|)
    ensures Unwrapped(data, start, wbits, nowrap, true) == Unwrapped(data, start, wbits, nowrap, false)
  {
    hide Block, P2, Adler32.Adler, Word;
    var s, t := Stream(data, P2(wbits), true), Stream(data, P2(wbits), false);
    BlockAgrees(s, t, if nowrap then 8 * start else 8 * (start + 2), []);
  }
}
