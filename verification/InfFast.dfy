/** zlib/inffast.c: decoding without checks for input and output, while plenty of both is left.
    Bits are taken up in advance and given back at the end. */
module InfFast {
  import opened BitMath
  import opened Words
  import opened Huffman
  import opened HuftTables
  import opened Deflate
  import opened DeflateFacts
  import opened Decoding
  import opened InfUtil
  import opened InfState
  import opened InfCodesSteps
  import opened ZLib

  /** The mode in which inflate_codes goes on after inflate_fast returned r. */
  function ModeAfter(r: int): CodesMode {
    if r == Z_OK then START else if r == Z_STREAM_END then WASH else BADCODE
  }

  /** The decoder as a whole is as if inflate_codes were in mode m. */
  ghost predicate FastOK(s: State, m: CodesMode)
    reads s, s.window
  {
    && BitsOK(s) && WindowOK(s) && s.mode == CODES && Pos(s) >= 0
    && TreesOK(s.coding, s.last, s.ltree, s.dtree)
    && s.symbol == Partial(Str(s), m, s.mark, Pos(s), s.hist, s.coding)
    && Due(s) && Go(Str(s), s.symbol, s.hist, s.coding) == s.rest
  }

  /** GRABBITS(j): NEEDBITS with no checking. */
  method GrabBits(s: State, j: nat)
    requires BitsOK(s) && !Misses(s) && j <= 25 && 8 * s.avail_in + s.bitk >= j + 7
    modifies s`next_in, s`avail_in, s`bitb, s`bitk, s`kk
    ensures BitsOK(s) && !Misses(s) && Pos(s) == old(Pos(s)) && Limit(s) == old(Limit(s))
    ensures s.bitk >= j && (s.bitk == old(s.bitk) || s.bitk < j + 8)
    ensures s.bitk >= old(s.bitk) && 8 * s.avail_in + s.bitk == 8 * old(s.avail_in) + old(s.bitk)
  {
    while s.bitk < j
      invariant BitsOK(s) && !Misses(s) && Pos(s) == old(Pos(s)) && Limit(s) == old(Limit(s))
      invariant s.bitk == old(s.bitk) || s.bitk < j + 8
      invariant s.bitk >= old(s.bitk) && 8 * s.avail_in + s.bitk == 8 * old(s.avail_in) + old(s.bitk)
      decreases j - s.bitk
    {
      NextByte(s);
    }
  }

  /** UNGRAB: give back whole bytes.  bitb is left as it is; its upper bits repeat the bytes given back. */
  method UnGrab(s: State)
    requires BitsOK(s) && 8 * s.first < Pos(s) + 16
    modifies s`next_in, s`avail_in, s`bitk
    ensures BitsOK(s) && Pos(s) == old(Pos(s)) && Limit(s) == old(Limit(s)) && s.bitk < 8
    ensures s.next_in < s.first <==> Pos(s) + 8 <= 8 * s.first
  {
    var c := s.bitk / 8;
    s.avail_in := s.avail_in + c;
    s.next_in := s.next_in - c;
    s.bitk := s.bitk % 8;
  }

  /** Follow the tables to the end of a code whose bits are all in the buffer. */
  method WalkAll(s: State, tree: Tree, ghost f: Found) returns (e: Huft)
    requires BitsOK(s) && s.bitk >= MAX_BITS && Pos(s) == s.mark
    requires Walking(Str(s), tree, s.mark, tree.root, tree.bits, s.mark, f)
    modifies s`bitb, s`bitk, s`kk
    ensures BitsOK(s) && e == f.entry && Pos(s) == old(Pos(s)) + f.used && s.bitk == old(s.bitk) - f.used
  {
    hide Low, Shr, P2, Num, Lookup, Find, Bits, At;
    RoomLeft(Str(s), tree, s.mark, tree.root, tree.bits, s.mark, f);
    e := TakeEntry(s, tree, tree.root, tree.bits, f);
    while IsLink(e)
      invariant BitsOK(s) && Pos(s) >= 0 && Pos(s) + s.bitk == old(Pos(s)) + old(s.bitk)
      invariant IsLink(e) ==> Walking(Str(s), tree, s.mark, e.more, e.exop, Pos(s), f)
      invariant !IsLink(e) ==> e == f.entry && Pos(s) == s.mark + f.used
      decreases s.bitk
    {
      RoomLeft(Str(s), tree, s.mark, e.more, e.exop, Pos(s), f);
      e := TakeEntry(s, tree, e.more, e.exop, f);
    }
  }

  /** The next look of a walk needs no more bits than are left of the longest code. */
  lemma RoomLeft(st: Stream, tree: Tree, mark: nat, t: nat, need: nat, pos: nat, f: Found)
    requires Walking(st, tree, mark, t, need, pos, f)
    ensures need <= MAX_BITS - (pos - mark) && 1 <= f.used <= MAX_BITS
  {
    hide Low, Shr, P2, Num, Bits, At;
  }

  /** What copying one byte leaves of a match. */
  lemma CopyOnce(out: seq<byte>, len: nat, dist: nat)
    requires 1 <= dist <= |out| && len > 0
    ensures CopyMatch(out, len, dist) == CopyMatch(out + [out[|out| - dist]], len - 1, dist)
  {
  }

  /** do { *q++ = *r++; } while (--c), where the source does not run past the end of the window. */
  method CopyRun(s: State, r0: nat, c0: nat, ghost dist: nat, ghost len: nat) returns (r: nat)
    requires WindowOK(s) && 1 <= dist <= |s.hist| && dist <= s.window.Length && s.write <= s.window.Length
    requires c0 <= len && r0 == Source(s.write, s.window.Length, dist) && c0 <= WAvail(s)
    requires r0 + c0 <= s.window.Length && s.read < s.window.Length
    modifies s`write, s`hist, s.window
    ensures WindowOK(s) && s.write <= s.window.Length && old(s.hist) <= s.hist
    ensures s.write == old(s.write) + c0 && WAvail(s) == old(WAvail(s)) - c0
    ensures CopyMatch(s.hist, len - c0, dist) == old(CopyMatch(s.hist, len, dist))
    ensures r == r0 + c0 && Source(s.write, s.window.Length, dist) == if r == s.window.Length then 0 else r
  {
    hide WindowOK, CopyMatch, Adler32.Adler;
    var c := c0;
    r := r0;
    while c > 0
      invariant 0 <= c <= c0 && WindowOK(s) && s.write <= s.window.Length && old(s.hist) <= s.hist
      invariant s.write == old(s.write) + (c0 - c) && WAvail(s) == old(WAvail(s)) - (c0 - c)
      invariant r == r0 + (c0 - c) && Source(s.write, s.window.Length, dist) == if r == s.window.Length then 0 else r
      invariant CopyMatch(s.hist, len - (c0 - c), dist) == old(CopyMatch(s.hist, len, dist))
    {
      CopyOnce(s.hist, len - (c0 - c), dist);
      CopyByte(s, r, dist);
      r := r + 1;
      c := c - 1;
    }
  }

  /** do the copy (zlib/inffast.c:96-119). */
  method FastCopy(s: State, c0: nat, d: nat)
    requires WindowOK(s) && 1 <= d <= |s.hist| && d <= s.window.Length && s.write <= s.window.Length
    requires 3 <= c0 <= WAvail(s) && s.read < s.window.Length
    modifies s`write, s`hist, s.window
    ensures WindowOK(s) && s.write <= s.window.Length && WAvail(s) == old(WAvail(s)) - c0
    ensures s.hist == old(CopyMatch(s.hist, c0, d)) && old(s.hist) <= s.hist
  {
    hide WindowOK, Adler32.Adler;
    var c, r := c0, 0;
    if s.write >= d {
      r := s.write - d;
      r := CopyRun(s, r, 1, d, c);
      c := c - 1;
      r := CopyRun(s, r, 1, d, c);
      c := c - 1;
    } else {
      var e := d - s.write;
      r := s.window.Length - e;
      if c > e {
        r := CopyRun(s, r, e, d, c);
        c := c - e;
        r := 0;
      }
    }
    r := CopyRun(s, r, c, d, c);
  }

  // ---- One iteration ----

  lemma LengthMeans(st: Stream, pos: nat, hist: seq<byte>, c: Coding, base: nat, extra: nat)
    requires pos + extra <= End(st)
    ensures LengthExtra(st, pos, hist, c, base, extra)
         == Distance(st, pos + extra, hist, c, base + Bits(st, pos, extra))
  {
    hide Distance;
  }

  lemma DistanceMeans(st: Stream, pos: nat, hist: seq<byte>, len: nat, base: nat, extra: nat)
    requires pos + extra <= End(st) && DistanceExtra(st, pos, hist, len, base, extra) != Unclear
    ensures var d := base + Bits(st, pos, extra);
            && 1 <= d <= |hist| && d <= st.wsize
            && DistanceExtra(st, pos, hist, len, base, extra) == Went(pos + extra, CopyMatch(hist, len, d))
  {
    hide CopyMatch;
  }

  /** Within an iteration x is what the symbol in progress comes to, told from where its decoding stands. */
  ghost predicate FastAt(s: State, x: Step)
    reads s, s.window
  {
    && BitsOK(s) && WindowOK(s) && s.mode == CODES && Pos(s) >= 0
    && TreesOK(s.coding, s.last, s.ltree, s.dtree)
    && s.symbol == x && Due(s) && Go(Str(s), x, s.hist, s.coding) == s.rest
  }

  /** Between iterations. */
  ghost predicate FastStart(s: State)
    reads s, s.window
  {
    Pos(s) >= 0 && FastAt(s, OneSymbol(Str(s), Pos(s), s.hist, s.coding))
  }

  lemma Clear(s: State, x: Step)
    requires FastAt(s, x)
    ensures x != Unclear && Pos(s) + s.bitk <= End(Str(s))
  {
    hide WindowOK, TreesOK, Bits;
  }

  /** Decode a whole code. */
  method FastLit(s: State) returns (e: Huft)
    requires FastStart(s) && s.bitk >= 20
    modifies s`bitb, s`bitk, s`kk, s`mark
    ensures BitsOK(s) && Pos(s) > old(Pos(s)) && s.bitk >= 5 && s.bitk + Pos(s) == old(s.bitk) + old(Pos(s))
    ensures e.exop == 0 ==> e.more < 256 && FastAt(s, Went(Pos(s), s.hist + [e.more]))
    ensures IsLength(e.exop) ==>
              && e.exop % 16 <= 5 && 3 <= e.more && e.more + P2(e.exop % 16) <= 259
              && FastAt(s, LengthExtra(Str(s), Pos(s), s.hist, s.coding, e.more, e.exop % 16))
    ensures e.exop != 0 && !IsLength(e.exop) ==> FastAt(s, if IsEnd(e.exop) then Ended(Pos(s)) else Broken)
  {
    hide Low, Shr, P2, Num, OneSymbol, Lookup, Find, Bits, At, Decodes, LengthExtra, WindowOK, Go;
    Clear(s, s.symbol);
    s.mark := Pos(s);
    ghost var f := CodesWalk(Str(s), s.mark, s.hist, s.coding, s.ltree);
    e := WalkAll(s, s.ltree, f);
    CodesEntry(Str(s), s.mark, s.hist, s.coding, s.ltree, f);
  }

  method FastDist(s: State, ghost len: nat) returns (e: Huft)
    requires Pos(s) >= 0 && FastAt(s, Distance(Str(s), Pos(s), s.hist, s.coding, len)) && s.bitk >= 15
    modifies s`bitb, s`bitk, s`kk, s`mark
    ensures BitsOK(s) && Pos(s) > old(Pos(s)) && s.bitk + Pos(s) == old(s.bitk) + old(Pos(s))
    ensures IsLength(e.exop) ==>
              e.exop % 16 <= 13 && FastAt(s, DistanceExtra(Str(s), Pos(s), s.hist, len, e.more, e.exop % 16))
    ensures !IsLength(e.exop) ==> FastAt(s, Broken)
  {
    hide Low, Shr, P2, Num, Distance, Lookup, Find, Bits, At, Decodes, DistanceExtra, WindowOK, Go;
    Clear(s, s.symbol);
    s.mark := Pos(s);
    DistanceDefined(Str(s), s.mark, s.hist, s.coding, len);
    ghost var f := DistanceWalk(Str(s), s.mark, s.hist, s.coding, s.dtree, len);
    e := WalkAll(s, s.dtree, f);
    DistanceEntry(Str(s), s.mark, s.hist, s.coding, s.dtree, len, f);
  }

  /** The extra bits of a length (zlib/inffast.c:76-79). */
  method FastLen(s: State, base: nat, e: nat) returns (c: nat)
    requires Pos(s) >= 0 && FastAt(s, LengthExtra(Str(s), Pos(s), s.hist, s.coding, base, e))
    requires e <= s.bitk && 3 <= base && base + P2(e) <= 259
    modifies s`bitb, s`bitk, s`kk
    ensures BitsOK(s) && Pos(s) == old(Pos(s)) + e && s.bitk == old(s.bitk) - e && 3 <= c <= 258
    ensures FastAt(s, Distance(Str(s), Pos(s), s.hist, s.coding, c))
  {
    hide Low, Shr, P2, Num, Distance, LengthExtra, Bits, At, WindowOK, TreesOK, Go;
    LengthMeans(Str(s), Pos(s), s.hist, s.coding, base, e);
    var v := TakeBits(s, e);
    BitsBound(Str(s), Pos(s) - e, e);
    c := base + v;
  }

  /** A match whose distance is known. */
  method FastCopyOut(s: State, c: nat, d: nat)
    requires 1 <= d <= |s.hist| && d <= s.window.Length && s.write <= s.window.Length && 3 <= c <= WAvail(s)
    requires Pos(s) >= 0 && FastAt(s, Went(Pos(s), CopyMatch(s.hist, c, d)))
    modifies s`write, s`hist, s.window
    ensures FastAt(s, Went(Pos(s), s.hist)) && old(s.hist) <= s.hist
    ensures s.write <= s.window.Length && WAvail(s) == old(WAvail(s)) - c
  {
    hide Low, Shr, P2, Num, Bits, At, WindowOK, TreesOK, CopyMatch, Go, BitsOK;
    WindowBounds(s);
    ghost var h := s.hist;
    FastCopy(s, c, d);
    GoWent(Str(s), s.symbol, h, s.hist, s.coding);
  }

  /** The extra bits of a distance, and the copy (zlib/inffast.c:86-119). */
  method FastDistCopy(s: State, c: nat, base: nat, e: nat)
    requires Pos(s) >= 0 && FastAt(s, DistanceExtra(Str(s), Pos(s), s.hist, c, base, e))
    requires e <= s.bitk && s.write <= s.window.Length && 3 <= c <= WAvail(s)
    modifies s`bitb, s`bitk, s`kk, s`write, s`hist, s.window
    ensures BitsOK(s) && Pos(s) == old(Pos(s)) + e && s.bitk == old(s.bitk) - e && old(s.hist) <= s.hist
    ensures s.write <= s.window.Length && WAvail(s) == old(WAvail(s)) - c
    ensures FastAt(s, Went(Pos(s), s.hist))
  {
    hide Low, Shr, P2, Num, DistanceExtra, Bits, At, WindowOK, TreesOK, CopyMatch, Go, BitsOK;
    Clear(s, s.symbol);
    DistanceMeans(Str(s), Pos(s), s.hist, c, base, e);
    var v := TakeBits(s, e);
    FastCopyOut(s, c, base + v);
  }

  /** GRABBITS within an iteration. */
  method FastGrab(s: State, j: nat, ghost x: Step)
    requires Pos(s) >= 0 && FastAt(s, x) && !Misses(s) && j <= 25 && 8 * s.avail_in + s.bitk >= j + 7
    modifies s`next_in, s`avail_in, s`bitb, s`bitk, s`kk
    ensures FastAt(s, x) && !Misses(s) && Pos(s) == old(Pos(s)) >= 0 && Limit(s) == old(Limit(s))
    ensures s.bitk >= j && (s.bitk == old(s.bitk) || s.bitk < j + 8)
    ensures s.bitk >= old(s.bitk) && 8 * s.avail_in + s.bitk == 8 * old(s.avail_in) + old(s.bitk)
  {
    hide WindowOK, TreesOK, Go;
    GrabBits(s, j);
  }

  /** A match: its length's extra bits, the distance, and the copy.  At most 258 bytes are written. */
  method FastMatch(s: State, base: nat, e: nat) returns (r: int)
    requires Pos(s) >= 0 && FastAt(s, LengthExtra(Str(s), Pos(s), s.hist, s.coding, base, e))
    requires 5 <= s.bitk <= 27 && e <= 5 && 3 <= base && base + P2(e) <= 259
    requires s.write <= s.window.Length && WAvail(s) >= 258 && s.avail_in >= 7 && !Misses(s)
    modifies s`next_in, s`avail_in, s`bitb, s`bitk, s`kk, s`mark, s`write, s`hist, s.window
    ensures BitsOK(s) && Pos(s) > old(Pos(s)) && Limit(s) == old(Limit(s)) && old(s.hist) <= s.hist && !Misses(s)
    ensures s.write <= s.window.Length && old(WAvail(s)) - WAvail(s) <= 258 && s.bitk <= 27
    ensures r == Z_OK ==> FastAt(s, Went(Pos(s), s.hist))
    ensures r == Z_OK || (r == Z_DATA_ERROR && FastAt(s, Broken))
  {
    hide Low, Shr, P2, Num, Distance, LengthExtra, DistanceExtra, Bits, At, WindowOK, TreesOK, CopyMatch, Go, FastAt,
      BitsOK, Misses;
    var c := FastLen(s, base, e);
    FastGrab(s, 15, Distance(Str(s), Pos(s), s.hist, s.coding, c));
    var t := FastDist(s, c);
    if IsLength(t.exop) {
      FastGrab(s, t.exop % 16, DistanceExtra(Str(s), Pos(s), s.hist, c, t.more, t.exop % 16));
      FastDistCopy(s, c, t.more, t.exop % 16);
      r := Z_OK;
    } else {
      r := Z_DATA_ERROR;
    }
  }

  /** continue: on to the next symbol. */
  ghost method FastNext(s: State)
    requires Pos(s) >= 0 && FastAt(s, Went(Pos(s), s.hist))
    modifies s`symbol
    ensures FastStart(s)
  {
    hide OneSymbol, Codes, WindowOK, TreesOK, Bits, At, Num, Low, Shr;
    CodesIsGo(Str(s), Pos(s), s.hist, s.coding);
    s.symbol := OneSymbol(Str(s), Pos(s), s.hist, s.coding);
  }

  /** A literal (zlib/inffast.c:62-71). */
  method FastByte(s: State, b: byte)
    requires Pos(s) >= 0 && FastAt(s, Went(Pos(s), s.hist + [b])) && s.write <= s.window.Length && WAvail(s) > 0
    modifies s`write, s`hist, s.window
    ensures FastAt(s, Went(Pos(s), s.hist)) && old(s.hist) <= s.hist
    ensures s.write <= s.window.Length && WAvail(s) == old(WAvail(s)) - 1
  {
    hide WindowOK, TreesOK, Go, Bits, At, Num, Low, Shr;
    GoWent(Str(s), s.symbol, s.hist, s.hist + [b], s.coding);
    OutByte(s, b);
    WindowBounds(s);
  }

  lemma SymbolIs(s: State, x: Step)
    requires FastAt(s, x)
    ensures s.symbol == x
  {
    hide WindowOK, BitsOK, TreesOK, Go;
  }

  /** One pass of the outer loop (zlib/inffast.c:59-160), entered with room for the longest match and
      ten bytes of input.  It decodes exactly one symbol, as the slow path would: the position and the
      history go to where OneSymbol says. */
  method FastOne(s: State) returns (r: int)
    requires FastStart(s) && s.bitk <= 27 && s.write <= s.window.Length && WAvail(s) >= 258 && s.avail_in >= 10
    requires !Misses(s)
    modifies s`next_in, s`avail_in, s`bitb, s`bitk, s`kk, s`mark, s`write, s`hist, s`symbol, s.window
    ensures BitsOK(s) && Pos(s) > old(Pos(s)) >= 0 && Limit(s) == old(Limit(s)) && old(s.hist) <= s.hist && !Misses(s)
    ensures s.write <= s.window.Length && old(WAvail(s)) - WAvail(s) <= 258
    ensures r == Z_OK || r == Z_STREAM_END || r == Z_DATA_ERROR
    ensures r == Z_OK ==> old(s.symbol) == Went(Pos(s), s.hist) && FastStart(s) && s.bitk <= 27
    ensures r == Z_STREAM_END ==> old(s.symbol) == Ended(Pos(s)) && s.hist == old(s.hist) && FastAt(s, Ended(Pos(s)))
    ensures r == Z_DATA_ERROR ==> old(s.symbol) == Broken && FastAt(s, Broken)
  {
    hide Low, Shr, P2, Num, OneSymbol, LengthExtra, Bits, At, WindowOK, TreesOK, CopyMatch, Go, FastAt, BitsOK, Misses;
    FastGrab(s, 20, OneSymbol(Str(s), Pos(s), s.hist, s.coding));
    var t := FastLit(s);
    if t.exop == 0 {
      FastByte(s, t.more);
      r := Z_OK;
    } else if IsLength(t.exop) {
      r := FastMatch(s, t.more, t.exop % 16);
    } else if IsEnd(t.exop) {
      r := Z_STREAM_END;
    } else {
      r := Z_DATA_ERROR;
    }
    if r == Z_OK {
      SymbolIs(s, Went(Pos(s), s.hist));
      FastNext(s);
    } else {
      SymbolIs(s, if r == Z_STREAM_END then Ended(Pos(s)) else Broken);
    }
  }

  lemma FastBegins(s: State)
    requires CodesValid(s) && s.cmode == START
    ensures FastStart(s) && s.bitk < 16 && Pos(s) >= 0 && 8 * s.first < Pos(s) + 16
  {
    hide WindowOK, TreesOK, OneSymbol, Go, Bits, At, Num, Low, Shr;
  }

  /** UNGRAB, UPDATE: the slow path goes on from here. */
  method FastEnd(s: State, ghost r: int)
    requires BitsOK(s) && (r == Z_OK ==> FastStart(s))
    requires (r == Z_STREAM_END ==> Pos(s) >= 0 && FastAt(s, Ended(Pos(s))))
    requires r == Z_OK || r == Z_STREAM_END || (r == Z_DATA_ERROR && FastAt(s, Broken))
    requires 8 * s.first < Pos(s) + 16
    modifies s`next_in, s`avail_in, s`bitk
    ensures FastOK(s, ModeAfter(r)) && s.bitk < 8 && Pos(s) == old(Pos(s)) && Limit(s) == old(Limit(s))
    ensures s.next_in <= old(s.next_in) && 8 * s.next_in - s.bitk == 8 * old(s.next_in) - old(s.bitk)
    ensures s.next_in < s.first <==> Pos(s) + 8 <= 8 * s.first
  {
    hide WindowOK, TreesOK, OneSymbol, Go, Bits, At, Num, Low, Shr;
    UnGrab(s);
  }

  /** inflate_fast: run until too little input or output space is left, or the block ends.  It gives back
      at most one byte that it did not take up itself; if the buffer was new, that byte lies in front of
      it just when eight or more of the bits that were pending are still left. */
  method InflateFast(s: State) returns (r: int)
    requires CodesValid(s) && s.cmode == START && s.write <= s.window.Length && WAvail(s) >= 258 && s.avail_in >= 10
    requires !Misses(s)
    modifies s`next_in, s`avail_in, s`bitb, s`bitk, s`kk, s`mark, s`write, s`hist, s`symbol, s.window
    ensures FastOK(s, ModeAfter(r)) && s.bitk < 8
    ensures Pos(s) > old(Pos(s)) && Limit(s) == old(Limit(s)) && old(s.hist) <= s.hist
    ensures r == Z_OK || r == Z_STREAM_END || r == Z_DATA_ERROR
    ensures s.next_in >= old(s.next_in) - 1 && (s.next_in < s.first <==> Pos(s) + 8 <= 8 * s.first)
  {
    hide FastStart, FastAt, FastOK, CodesValid, CodesCore, BitsOK;
    FastBegins(s);
    r := FastOne(s);
    while r == Z_OK && WAvail(s) >= 258 && s.avail_in >= 10
      invariant BitsOK(s) && Pos(s) > old(Pos(s)) >= 0 && Limit(s) == old(Limit(s)) && old(s.hist) <= s.hist
      invariant s.write <= s.window.Length && !Misses(s)
      invariant r == Z_OK ==> FastStart(s) && s.bitk <= 27
      invariant r == Z_STREAM_END ==> FastAt(s, Ended(Pos(s)))
      invariant r == Z_OK || r == Z_STREAM_END || (r == Z_DATA_ERROR && FastAt(s, Broken))
      decreases 8 * Limit(s) - Pos(s)
    {
      FastSupplied(s);
      r := FastOne(s);
    }
    FastEnd(s, r);
  }

  lemma FastSupplied(s: State)
    requires BitsOK(s)
    ensures 8 * Limit(s) - Pos(s) >= 0
  {
  }
}
