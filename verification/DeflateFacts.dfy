/** Facts about the format itself: output only grows, the end lies ahead, and a match repeats what
    stands dist bytes back. */
module DeflateFacts {
  import opened BitMath
  import opened Huffman
  import opened Deflate
  import opened ZLib

  /** The outcome extends out, and if the data is complete it ends at pos or later, within the data. */
  predicate Ahead(st: Stream, o: Outcome, pos: nat, out: seq<byte>) {
    match o
    case Complete(x, e) => pos <= e <= End(st) && out <= x
    case Bad(x, _) => out <= x
    case Truncated(x) => out <= x
    case Undefined => true
  }

  lemma TableSizes()
    ensures |LENGTH_BASE| == |LENGTH_EXTRA| == 29 && |DIST_BASE| == |DIST_EXTRA| == 30
  {
  }

  lemma BitsBound(st: Stream, pos: nat, n: nat)
    ensures Bits(st, pos, n) < P2(n)
  {
    hide At, P2;
  }

  lemma {:induction false} CopyExtends(out: seq<byte>, len: nat, dist: nat)
    requires 1 <= dist <= |out|
    ensures |CopyMatch(out, len, dist)| == |out| + len && out <= CopyMatch(out, len, dist)
    decreases len
  {
    if len > 0 {
      CopyExtends(out + [out[|out| - dist]], len - 1, dist);
    }
  }

  /** Byte i of the result of a match is the byte dist before it, overlapping or not. */
  lemma {:induction false} CopyRepeats(out: seq<byte>, len: nat, dist: nat, i: nat)
    requires 1 <= dist <= |out| <= i < |out| + len
    ensures |CopyMatch(out, len, dist)| == |out| + len
    ensures CopyMatch(out, len, dist)[i] == CopyMatch(out, len, dist)[i - dist]
    decreases len
  {
    var out2 := out + [out[|out| - dist]];
    CopyExtends(out, len, dist);
    CopyExtends(out2, len - 1, dist);
    if i == |out| {
      assert CopyMatch(out, len, dist)[i] == out2[i];
    } else {
      CopyRepeats(out2, len - 1, dist, i);
    }
  }

  // ---- One symbol ----

  /** A symbol extends out, and takes the decoder to pos or beyond, within the data. */
  predicate StepAhead(st: Stream, x: Step, pos: nat, out: seq<byte>) {
    match x
    case Went(p, o) => pos <= p <= End(st) && out <= o
    case Ended(p) => pos <= p <= End(st)
    case _ => true
  }

  lemma OneSymbolAhead(st: Stream, pos: nat, out: seq<byte>, c: Coding)
    ensures StepAhead(st, OneSymbol(st, pos, out, c), pos + 1, out)
  {
    hide Bits, At, LengthExtra, Decode, Count, Need;
    if pos < End(st) {
      var d := Decode(c.lit, At(st, pos));
      if d.Symbol? && pos + c.lit[d.value] <= End(st) && 257 <= d.value <= 285 {
        assert Matches(c.lit, d.value, At(st, pos));
        LengthExtraAhead(st, pos + c.lit[d.value], out, c, LENGTH_BASE[d.value - 257], LENGTH_EXTRA[d.value - 257]);
      }
    }
  }

  lemma LengthExtraAhead(st: Stream, pos: nat, out: seq<byte>, c: Coding, base: nat, extra: nat)
    ensures StepAhead(st, LengthExtra(st, pos, out, c, base, extra), pos + extra, out)
  {
    hide Bits, At, Distance;
    if pos + extra <= End(st) {
      DistanceAhead(st, pos + extra, out, c, base + Bits(st, pos, extra));
    }
  }

  lemma DistanceAhead(st: Stream, pos: nat, out: seq<byte>, c: Coding, len: nat)
    ensures StepAhead(st, Distance(st, pos, out, c, len), pos + 1, out)
  {
    hide Bits, At, DistanceExtra, Decode, Count, Need;
    if !Empty(c.dist) && pos < End(st) {
      var d := Decode(c.dist, At(st, pos));
      if d.Symbol? && pos + c.dist[d.value] <= End(st) && d.value <= 29 {
        assert Matches(c.dist, d.value, At(st, pos));
        DistanceExtraAhead(st, pos + c.dist[d.value], out, len, DIST_BASE[d.value], DIST_EXTRA[d.value]);
      }
    }
  }

  lemma DistanceExtraAhead(st: Stream, pos: nat, out: seq<byte>, len: nat, base: nat, extra: nat)
    ensures StepAhead(st, DistanceExtra(st, pos, out, len, base, extra), pos + extra, out)
  {
    hide Bits, At;
    if pos + extra <= End(st) {
      var dist := base + Bits(st, pos, extra);
      if 1 <= dist <= |out| && dist <= st.wsize {
        CopyExtends(out, len, dist);
      }
    }
  }

  // ---- Blocks ----

  lemma {:induction false} BlockAhead(st: Stream, pos: nat, out: seq<byte>)
    ensures Ahead(st, Block(st, pos, out), pos + 3, out)
    decreases Left(st, pos), 0
  {
    hide Bits, At, Codes, StoredHeader, Table, FixedLit, FixedDist;
    if pos + 3 <= End(st) {
      var t := Bits(st, pos, 3);
      StoredHeaderAhead(st, Align(pos + 3), out, t % 2 == 1);
      CodesAhead(st, pos + 3, out, FixedCoding(t % 2 == 1));
      TableAhead(st, pos + 3, out, t % 2 == 1);
    }
  }

  lemma {:induction false} EndBlockAhead(st: Stream, pos: nat, out: seq<byte>, last: bool)
    requires pos <= End(st)
    ensures Ahead(st, EndBlock(st, pos, out, last), pos, out)
    decreases Left(st, pos), 1
  {
    hide Block;
    if !last {
      BlockAhead(st, pos, out);
    }
  }

  lemma {:induction false} StoredHeaderAhead(st: Stream, pos: nat, out: seq<byte>, last: bool)
    requires pos % 8 == 0
    ensures Ahead(st, StoredHeader(st, pos, out, last), pos + 32, out)
    decreases Left(st, pos), 0
  {
    hide Bits, At, Stored;
    if pos + 32 <= End(st) {
      StoredAhead(st, BlockData(pos), Bits(st, pos, 16), out, last);
    }
  }

  lemma {:induction false} StoredAhead(st: Stream, p: nat, left: nat, out: seq<byte>, last: bool)
    ensures Ahead(st, Stored(st, p, left, out, last), 8 * (p + left), out)
    decreases Left(st, 8 * p), 2
  {
    hide EndBlock;
    if p + left <= |st.data| {
      EndBlockAhead(st, 8 * (p + left), out + st.data[p..p + left], last);
    }
  }

  lemma {:induction false} CodesAhead(st: Stream, pos: nat, out: seq<byte>, c: Coding)
    ensures Ahead(st, Codes(st, pos, out, c), pos + 1, out)
    decreases Left(st, pos), 3
  {
    hide OneSymbol, EndBlock;
    OneSymbolAhead(st, pos, out, c);
    match OneSymbol(st, pos, out, c)
    case Went(p, o) => CodesAhead(st, p, o, c);
    case Ended(p) => EndBlockAhead(st, p, out, c.last);
    case _ =>
  }

  lemma {:induction false} TableAhead(st: Stream, pos: nat, out: seq<byte>, last: bool)
    ensures Ahead(st, Table(st, pos, out, last), pos + 14, out)
    decreases Left(st, pos), 0
  {
    hide Bits, At, CodeLengthCode;
    if pos + 14 <= End(st) {
      CodeLengthCodeAhead(st, pos + 14, out, last,
                          257 + Bits(st, pos, 5), 1 + Bits(st, pos + 5, 5), 4 + Bits(st, pos + 10, 4));
    }
  }

  lemma {:induction false} CodeLengthCodeAhead(st: Stream, pos: nat, out: seq<byte>, last: bool, nl: nat, nd: nat,
                                               n: nat)
    ensures Ahead(st, CodeLengthCode(st, pos, out, last, nl, nd, n), pos + 3 * n, out)
    decreases Left(st, pos), 6
  {
    hide Bits, At, LengthCodes, CodeLengthLengths, Usable, Empty;
    if pos + 3 * n <= End(st) {
      LengthCodesAhead(st, pos + 3 * n, out, last, nl, nd, CodeLengthLengths(st, pos, n), []);
    }
  }

  lemma {:induction false} LengthCodesAhead(st: Stream, pos: nat, out: seq<byte>, last: bool, nl: nat, nd: nat,
                                            bl: Lengths, lens: Lengths)
    ensures Ahead(st, LengthCodes(st, pos, out, last, nl, nd, bl, lens), pos + 1, out)
    decreases Left(st, pos), 5
  {
    hide Bits, At, Trees, Decode, RepeatCode, Need;
    if |lens| >= nl + nd {
      TreesAhead(st, pos, out, DynamicCoding(last, lens, nl));
    } else if pos < End(st) {
      var d := Decode(bl, At(st, pos));
      if d.Symbol? && pos + bl[d.value] <= End(st) {
        assert bl[d.value] > 0 by { assert Matches(bl, d.value, At(st, pos)); }
        var p := pos + bl[d.value];
        if d.value < 16 {
          LengthCodesAhead(st, p, out, last, nl, nd, bl, lens + [d.value]);
        } else {
          RepeatCodeAhead(st, p, out, last, nl, nd, bl, lens, d.value);
        }
      }
    }
  }

  lemma {:induction false} RepeatCodeAhead(st: Stream, pos: nat, out: seq<byte>, last: bool, nl: nat, nd: nat,
                                           bl: Lengths, lens: Lengths, v: nat)
    requires v >= 16
    ensures Ahead(st, RepeatCode(st, pos, out, last, nl, nd, bl, lens, v), pos + RepeatExtra(v), out)
    decreases Left(st, pos), 6
  {
    hide Bits, At, LengthCodes, Repeat;
    var extra := RepeatExtra(v);
    if pos + extra <= End(st) {
      var n := RepeatBase(v) + Bits(st, pos, extra);
      if |lens| + n <= nl + nd && (v != 16 || |lens| > 0) {
        LengthCodesAhead(st, pos + extra, out, last, nl, nd, bl,
                         lens + Repeat(n, if v == 16 then lens[|lens| - 1] else 0));
      }
    }
  }

  lemma {:induction false} TreesAhead(st: Stream, pos: nat, out: seq<byte>, c: Coding)
    ensures Ahead(st, Trees(st, pos, out, c), pos + 1, out)
    decreases Left(st, pos), 4
  {
    hide Codes, Usable, Empty;
    CodesAhead(st, pos, out, c);
  }
}
