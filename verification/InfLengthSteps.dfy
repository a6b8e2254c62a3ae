/** zlib/infblock.c: decoding the code lengths of a dynamic block and building its trees. */
module InfLengthSteps {
  import opened BitMath
  import opened Words
  import opened Huffman
  import opened HuftTables
  import opened Deflate
  import opened Decoding
  import opened CodeCounts
  import opened InfTrees
  import opened InfUtil
  import opened InfState
  import opened InfCodesSteps
  import opened InfBlockSteps
  import opened ZLib

  // ---- What the format says ----

  /** One unfolding of LengthCodes. */
  lemma LengthCodesAt(st: Stream, pos: nat, out: seq<byte>, last: bool, nl: nat, nd: nat, bl: Lengths, lens: Lengths)
    requires |lens| < nl + nd && pos < End(st) && LengthCodes(st, pos, out, last, nl, nd, bl, lens) != Undefined
    ensures var d := Decode(bl, At(st, pos));
            && d.Symbol? && d.value < |bl| && bl[d.value] > 0
            && LengthCodes(st, pos, out, last, nl, nd, bl, lens)
            == if pos + Need(st, bl, LENGTH_BITS, At(st, pos)) > End(st) then Truncated(out)
               else if d.value < 16 then LengthCodes(st, pos + bl[d.value], out, last, nl, nd, bl, lens + [d.value])
               else RepeatCode(st, pos + bl[d.value], out, last, nl, nd, bl, lens, d.value)
  {
    hide Bits, At, Trees, Decode, RepeatCode, Need;
    var d := Decode(bl, At(st, pos));
    if d.Symbol? {
      assert Matches(bl, d.value, At(st, pos));
    }
  }

  /** The bits tree takes one look: its entry is the symbol that comes next. */
  lemma LookLength(st: Stream, pos: nat, bl: Lengths, tb: Tree)
    requires |bl| == 19 && TreeFor(BitSet(bl), tb, 7) && Decode(bl, At(st, pos)).Symbol? && st.looks
    requires forall i :: 0 <= i < 19 ==> bl[i] <= tb.bits
    ensures var v, i := Decode(bl, At(st, pos)).value, tb.root + Bits(st, pos, tb.bits);
            v < 19 && i < |tb.pool| && tb.pool[i].more == v && tb.pool[i].bits == bl[v]
    ensures Need(st, bl, LENGTH_BITS, At(st, pos)) == tb.bits
  {
    hide Low, Shr, Num, Decode, Lookup, Need, Looks;
    var x := At(st, pos);
    assert DecodesAt(BitSet(bl), tb, x);
    assert Matches(bl, Decode(bl, x).value, x);
    OneLook(tb.pool, tb.root, tb.bits, MAX_BITS, x);
    NeedIs(st, BitSet(bl), LENGTH_BITS, tb, x);
  }

  /** A walk that uses no more bits than the first look takes ends there. */
  lemma OneLook(pool: seq<Huft>, t: nat, bits: nat, room: nat, x: nat)
    requires Lookup(pool, t, bits, room, x).Found? && Lookup(pool, t, bits, room, x).used <= bits
    ensures var i := t + Low(x, bits);
            i < |pool| && Lookup(pool, t, bits, room, x) == Found(pool[i], pool[i].bits, bits)
  {
    hide Low, Shr;
  }

  lemma TreeSmall(cs: CodeSet, t: Tree, m: nat)
    requires TreeFor(cs, t, m)
    ensures 1 <= t.bits <= m
  {
    hide Decodes;
  }

  // ---- DTREE ----

  lemma KnownNext(a: seq<nat>, n: nat, c: nat)
    requires LengthsTo(a, n) && n < |a| && c <= MAX_BITS
    ensures LengthsTo(a[n := c], n + 1) && Known(a[n := c], n + 1) == Known(a, n) + [c]
  {
  }

  /** The next code length code symbol, once the bits for a look are there. */
  lemma NextLength(s: State) returns (e: Huft)
    requires Valid(s) && s.mode.DTREE? && s.mode.index < |s.blens| && s.bitk >= s.mode.tb.bits
    ensures var tb := s.mode.tb; var i := tb.root + Low(s.bitb, tb.bits);
            1 <= tb.bits <= 7 && i < |tb.pool| && e == tb.pool[i] && 1 <= e.bits <= tb.bits && e.more < 19
    ensures Pos(s) >= 0 && Pos(s) + s.bitk <= End(Str(s)) && LengthsTo(s.blens, s.mode.index)
    ensures var table := s.mode.table; var lens := Known(s.blens, s.mode.index);
            s.rest == if e.more < 16
                      then LengthCodes(Str(s), Pos(s) + e.bits, s.hist, s.last, Nl(table), Nd(table), s.bl,
                                       lens + [e.more])
                      else RepeatCode(Str(s), Pos(s) + e.bits, s.hist, s.last, Nl(table), Nd(table), s.bl, lens, e.more)
    ensures RepeatBits(Str(s), s.bl, Pos(s)) == if e.more < 16 then 0 else e.bits + RepeatExtra(e.more)
  {
    hide Low, Shr, Num, P2, Bits, At, Valid, Nl, Nd, LengthCodes, RepeatCode, WindowOK, TreeFor, Decode;
    DTreeIs(s);
    var tb := s.mode.tb;
    TreeSmall(BitSet(s.bl), tb, 7);
    Peek(s, tb.bits);
    LengthCodesAt(Str(s), Pos(s), s.hist, s.last, Nl(s.mode.table), Nd(s.mode.table), s.bl,
                  Known(s.blens, s.mode.index));
    LookLength(Str(s), Pos(s), s.bl, tb);
    e := tb.pool[tb.root + Low(s.bitb, tb.bits)];
  }

  /** A symbol below 16 is a length (zlib/infblock.c:272-276). */
  method KeepLength(s: State, bits: nat, c: nat)
    requires Sound(s) && s.mode.DTREE? && s.mode.index < |s.blens| && c < 16 && bits <= s.bitk < 16 && bits > 0
    requires DTreeOK(s.mode.table, s.mode.index, s.mode.tb, s.blens, s.bl)
    requires LengthCodes(Str(s), Pos(s) + bits, s.hist, s.last, Nl(s.mode.table), Nd(s.mode.table), s.bl,
                         Known(s.blens, s.mode.index) + [c]) == s.rest
    modifies s`bitb, s`bitk, s`kk, s`mode, s`blens
    ensures Valid(s) && s.mode == DTREE(old(s.mode.table), old(s.mode.index) + 1, old(s.mode.tb))
    ensures |s.blens| == |old(s.blens)| && Pos(s) == old(Pos(s)) + bits
  {
    hide Low, Shr, Num, P2, Bits, At, Valid, Nl, Nd, LengthCodes, WindowOK, TreeFor, Known, LengthsTo;
    KnownNext(s.blens, s.mode.index, c);
    DumpBits(s, bits);
    s.blens := s.blens[s.mode.index := c];
    s.mode := DTREE(s.mode.table, s.mode.index + 1, s.mode.tb);
    DTreeIs(s);
  }

  /** The do-while loop that stores a run of lengths (zlib/infblock.c:296-298). */
  method StoreRun(blens0: seq<nat>, i0: nat, j0: nat, c: nat) returns (blens: seq<nat>)
    requires LengthsTo(blens0, i0) && 0 < j0 && i0 + j0 <= |blens0| && c <= MAX_BITS
    ensures |blens| == |blens0| && LengthsTo(blens, i0 + j0)
    ensures Known(blens, i0 + j0) == Known(blens0, i0) + Repeat(j0, c)
  {
    blens := blens0;
    var i, j := i0, j0;
    while j > 0
      invariant j <= j0 && i == i0 + (j0 - j) && |blens| == |blens0|
      invariant blens == blens0[..i0] + seq(i - i0, _ => c) + blens0[i..]
    {
      blens := blens[i := c];
      i, j := i + 1, j - 1;
    }
    assert blens[..i] == blens0[..i0] + Repeat(j0, c);
    forall k | 0 <= k < i
      ensures blens[k] <= MAX_BITS
    {
      assert k >= i0 ==> blens[k] == c;
    }
  }

  /** One unfolding of RepeatCode. */
  lemma RepeatMeans(st: Stream, pos: nat, out: seq<byte>, last: bool, nl: nat, nd: nat, bl: Lengths, lens: Lengths,
                    v: nat)
    requires v >= 16 && pos + RepeatExtra(v) <= End(st)
    ensures var n := RepeatBase(v) + Bits(st, pos, RepeatExtra(v));
            RepeatCode(st, pos, out, last, nl, nd, bl, lens, v)
            == if |lens| + n > nl + nd || (v == 16 && |lens| == 0) then Bad(out, 0)
               else LengthCodes(st, pos + RepeatExtra(v), out, last, nl, nd, bl,
                                lens + Repeat(n, if v == 16 then lens[|lens| - 1] else 0))
  {
    hide Bits, LengthCodes, Repeat;
  }

  /** Symbol c, whose extra bits are at pos, repeats a length beyond the last one of the block, or has none
      to repeat; index lengths are known. */
  predicate Refused(st: Stream, pos: int, table: nat, index: nat, c: nat)
    requires c >= 16
  {
    && pos >= 0
    && (index + RepeatBase(c) + Bits(st, pos, RepeatExtra(c)) > Nl(table) + Nd(table) || (c == 16 && index == 0))
  }

  /** The extra bits of code length symbol c are at pos, and what is to come is rest. */
  ghost predicate RepeatDue(st: Stream, pos: int, hist: seq<byte>, last: bool, table: nat, index: nat,
                            blens: seq<nat>, bl: Lengths, c: nat, rest: Outcome)
  {
    && pos >= 0 && c >= 16 && LengthsTo(blens, index)
    && RepeatCode(st, pos, hist, last, Nl(table), Nd(table), bl, Known(blens, index), c) == rest
  }

  /** The repeat count has come in (zlib/infblock.c:282-299). */
  method TakeRepeat(s: State, bits: nat, c: nat, r0: int) returns (leave: bool, r: int)
    requires Sound(s) && s.mode.DTREE? && 16 <= c <= 18 && bits + RepeatExtra(c) <= s.bitk
    requires s.bitk < bits + RepeatExtra(c) + 16
    requires DTreeOK(s.mode.table, s.mode.index, s.mode.tb, s.blens, s.bl)
    requires RepeatDue(Str(s), Pos(s) + bits, s.hist, s.last, s.mode.table, s.mode.index, s.blens, s.bl, c, s.rest)
    modifies s`bitb, s`bitk, s`kk, s`mode, s`blens
    ensures Valid(s) && |s.blens| == |old(s.blens)| && Pos(s) == old(Pos(s)) + bits + RepeatExtra(c)
    ensures leave <==> Refused(Str(s), old(Pos(s)) + bits, old(s.mode.table), old(s.mode.index), c)
    ensures if leave then r == Z_DATA_ERROR && s.mode == BAD
            else r == r0 && s.mode.DTREE? && s.mode.table == old(s.mode.table) && s.mode.index > old(s.mode.index)
  {
    hide Low, Shr, Num, P2, Bits, At, Valid, Nl, Nd, LengthCodes, RepeatCode, WindowOK, TreeFor, Repeat;
    var table, index, tb := s.mode.table, s.mode.index, s.mode.tb;
    ghost var lens := Known(s.blens, index);
    RepeatMeans(Str(s), Pos(s) + bits, s.hist, s.last, Nl(table), Nd(table), s.bl, lens, c);
    var i, j := if c == 18 then 7 else c - 14, if c == 18 then 11 else 3;
    DumpBits(s, bits);
    var v := TakeBits(s, i);
    j := j + v;
    if index + j > Nl(table) + Nd(table) || (c == 16 && index < 1) {
      r := EnterBad(s);
      return true, r;
    }
    var len := if c == 16 then s.blens[index - 1] else 0;
    var blens := StoreRun(s.blens, index, j, len);
    EnterLengths(s, table, index + j, tb, blens);
    return false, r0;
  }

  method EnterLengths(s: State, table: nat, index: nat, tb: Tree, blens: seq<nat>)
    requires Sound(s) && s.bitk < 16 && DTreeOK(table, index, tb, blens, s.bl)
    requires LengthCodes(Str(s), Pos(s), s.hist, s.last, Nl(table), Nd(table), s.bl, Known(blens, index)) == s.rest
    modifies s`mode, s`blens
    ensures Valid(s) && s.mode == DTREE(table, index, tb) && s.blens == blens
  {
    hide Valid, Nl, Nd, LengthCodes, Sound, TreeFor, Known, LengthsTo;
    s.blens := blens;
    s.mode := DTREE(table, index, tb);
    DTreeIs(s);
  }

  lemma RepeatCut(st: Stream, pos: int, hist: seq<byte>, last: bool, table: nat, index: nat, blens: seq<nat>,
                  bl: Lengths, c: nat, rest: Outcome)
    requires RepeatDue(st, pos, hist, last, table, index, blens, bl, c, rest)
    ensures pos + RepeatExtra(c) > End(st) ==> rest == Truncated(hist)
  {
  }

  /** NEEDBITS(t + i) */
  method FillRepeat(s: State, bits: nat, c: nat, r0: int) returns (ok: bool, r: int)
    requires Valid(s) && s.mode.DTREE? && 16 <= c <= 18 && bits <= 7 && s.mode.index < |s.blens|
    requires RepeatBits(Str(s), s.bl, Pos(s)) == bits + RepeatExtra(c)
    requires RepeatDue(Str(s), Pos(s) + bits, s.hist, s.last, s.mode.table, s.mode.index, s.blens, s.bl, c, s.rest)
    modifies s`next_in, s`avail_in, s`bitb, s`bitk, s`kk
    ensures Sound(s) && DTreeOK(s.mode.table, s.mode.index, s.mode.tb, s.blens, s.bl) && (!ok ==> Valid(s))
    ensures Pos(s) == old(Pos(s)) && Limit(s) == old(Limit(s)) && (old(Safe(s)) ==> Safe(s))
    ensures ok <==> s.bitk >= bits + RepeatExtra(c)
    ensures s.bitk < 16 || s.bitk < bits + RepeatExtra(c) + 8
    ensures !ok ==> Waits(s)
    ensures r == r0 || r == Z_OK
    ensures s.next_in >= old(s.next_in) && if s.next_in > old(s.next_in) then r == Z_OK else r == r0
  {
    hide Low, Shr, Num, P2, Bits, At, Valid, Nl, Nd, LengthCodes, RepeatCode, WindowOK, TreeFor, DTreeOK, Known,
      LengthsTo, RepeatBits, RepeatDue, Slack, Safe, Spoilt, Misses, Waits, BitsOK;
    DTreeIs(s);
    LengthSafe(s);
    ok, r := NeedBits(s, bits + RepeatExtra(c), r0);
    DTreeIs(s);
    if !ok && s.avail_in == 0 && Limit(s) == |s.input| {
      AllTaken(s);
      RepeatCut(Str(s), Pos(s) + bits, s.hist, s.last, s.mode.table, s.mode.index, s.blens, s.bl, c, s.rest);
    }
    LengthSafe(s);
    WaitsFor(s);
  }

  /** A symbol from 16 on repeats a length (zlib/infblock.c:277-300). */
  method StepRepeat(s: State, bits: nat, c: nat, r0: int, ghost table: nat, ghost index: nat)
    returns (leave: bool, r: int)
    requires Valid(s) && s.mode.DTREE? && s.mode.table == table && s.mode.index == index < |s.blens|
    requires 16 <= c <= 18 && 1 <= bits <= 7 && bits <= s.bitk && (r0 == Z_OK || r0 == Z_BUF_ERROR)
    requires RepeatBits(Str(s), s.bl, Pos(s)) == bits + RepeatExtra(c)
    requires RepeatDue(Str(s), Pos(s) + bits, s.hist, s.last, table, index, s.blens, s.bl, c, s.rest)
    modifies s`next_in, s`avail_in, s`bitb, s`bitk, s`kk, s`mode, s`blens
    ensures Valid(s) && Onward(s) && Reported(s, leave, r0, r) && |s.blens| == |old(s.blens)|
    ensures r == Z_OK || r == Z_BUF_ERROR || (r == Z_DATA_ERROR && leave && s.mode == BAD)
    ensures !leave ==> s.mode.DTREE? && s.mode.table == table && s.mode.index > index
    ensures s.mode.DTREE? || s.mode == BAD
    ensures r == Z_DATA_ERROR || !leave ==>
              (r == Z_DATA_ERROR <==> Refused(Str(s), old(Pos(s)) + bits, table, index, c))
  {
    hide Low, Shr, Num, P2, Bits, At, Valid, Nl, Nd, WindowOK, TreeFor, DTreeOK, Refused, RepeatBits, RepeatDue,
      Slack, Safe, Waits, BitsOK, Sound;
    var ok;
    ok, r := FillRepeat(s, bits, c, r0);
    leave := !ok;
    if ok {
      LengthSafe(s);
      leave, r := TakeRepeat(s, bits, c, r);
      LengthSafe(s);
    }
  }

  /** Fewer bits are left than the next look takes. */
  lemma DTreeStarved(s: State)
    requires Valid(s) && s.mode.DTREE? && s.mode.index < |s.blens| && s.bitk < s.mode.tb.bits && s.avail_in == 0
    ensures Starved(s)
  {
    hide Low, Shr, Num, P2, Bits, At, Valid, Nl, Nd, LengthCodes, WindowOK, TreeFor, Decode, Need, Slack, RepeatBits;
    DTreeIs(s);
    ModeSafe(s);
    TreeSmall(BitSet(s.bl), s.mode.tb, 7);
    var nl, nd, lens := Nl(s.mode.table), Nd(s.mode.table), Known(s.blens, s.mode.index);
    if Limit(s) == |s.input| {
      AllTaken(s);
      if Pos(s) < End(Str(s)) {
        LengthCodesAt(Str(s), Pos(s), s.hist, s.last, nl, nd, s.bl, lens);
        LookLength(Str(s), Pos(s), s.bl, s.mode.tb);
      } else {
        LengthsPast(Str(s), Pos(s), s.hist, s.last, nl, nd, s.bl, lens);
      }
    }
  }

  lemma LengthsPast(st: Stream, pos: nat, out: seq<byte>, last: bool, nl: nat, nd: nat, bl: Lengths, lens: Lengths)
    requires |lens| < nl + nd && pos >= End(st)
    ensures LengthCodes(st, pos, out, last, nl, nd, bl, lens) == Truncated(out)
  {
  }

  /** NEEDBITS(t) with t = bb */
  method FillDTree(s: State, r0: int) returns (ok: bool, r: int)
    requires Valid(s) && s.mode.DTREE? && s.mode.index < |s.blens|
    modifies s`next_in, s`avail_in, s`bitb, s`bitk, s`kk
    ensures Valid(s) && Pos(s) == old(Pos(s)) && Limit(s) == old(Limit(s))
    ensures ok <==> s.bitk >= s.mode.tb.bits
    ensures !ok ==> Starved(s) || Spoilt(s)
    ensures r == r0 || r == Z_OK
    ensures s.next_in >= old(s.next_in)
    ensures s.next_in == old(s.next_in) ==> r == r0
    ensures s.next_in != old(s.next_in) ==> r == Z_OK
  {
    hide Low, Shr, Num, P2, Bits, At, Valid, Nl, Nd, LengthCodes, WindowOK, TreeFor, Known, LengthsTo, Slack, Safe,
      Spoilt, Misses, Starved;
    DTreeIs(s);
    TreeSmall(BitSet(s.bl), s.mode.tb, 7);
    ok, r := NeedBits(s, s.mode.tb.bits, r0);
    DTreeIs(s);
    ModeSafe(s);
    if !ok && s.avail_in == 0 {
      DTreeStarved(s);
    }
  }

  /** The bits for a look are there (zlib/infblock.c:267-301). */
  method DecodeLength(s: State, r0: int) returns (leave: bool, r: int)
    requires Valid(s) && s.mode.DTREE? && s.mode.index < |s.blens| && s.bitk >= s.mode.tb.bits
    requires r0 == Z_OK || r0 == Z_BUF_ERROR
    modifies s`next_in, s`avail_in, s`bitb, s`bitk, s`kk, s`mode, s`blens
    ensures Valid(s) && Onward(s) && Reported(s, leave, r0, r) && |s.blens| == |old(s.blens)|
    ensures r == Z_OK || r == Z_BUF_ERROR || (r == Z_DATA_ERROR && leave && s.mode == BAD)
    ensures !leave ==> s.mode.DTREE? && s.mode.table == old(s.mode.table) && s.mode.index > old(s.mode.index)
    ensures s.mode.DTREE? || s.mode == BAD
  {
    hide Low, Shr, Num, P2, Bits, At, Valid, Nl, Nd, LengthCodes, RepeatCode, WindowOK, TreeFor, DTreeOK, Known,
      LengthsTo, RepeatBits, Slack, Safe, Spoilt, Misses, Starved;
    ghost var e := NextLength(s);
    DTreeIs(s);
    var h := s.mode.tb.pool[s.mode.tb.root + Low(s.bitb, s.mode.tb.bits)];
    if h.more < 16 {
      ModeSafe(s);
      KeepLength(s, h.bits, h.more);
      ModeSafe(s);
      leave, r := false, r0;
    } else {
      leave, r := StepRepeat(s, h.bits, h.more, r0, s.mode.table, s.mode.index);
    }
  }

  /** One pass of the loop (zlib/infblock.c:263-301). */
  method StepLength(s: State, r0: int) returns (leave: bool, r: int)
    requires Valid(s) && s.mode.DTREE? && s.mode.index < |s.blens| && (r0 == Z_OK || r0 == Z_BUF_ERROR)
    modifies s`next_in, s`avail_in, s`bitb, s`bitk, s`kk, s`mode, s`blens
    ensures Valid(s) && Onward(s) && Reported(s, leave, r0, r) && |s.blens| == |old(s.blens)|
    ensures r == Z_OK || r == Z_BUF_ERROR || (r == Z_DATA_ERROR && leave && s.mode == BAD)
    ensures !leave ==> s.mode.DTREE? && s.mode.table == old(s.mode.table) && s.mode.index > old(s.mode.index)
    ensures s.mode.DTREE? || s.mode == BAD
  {
    hide Valid, Nl, Nd, RepeatBits, Slack, Safe, Spoilt, Misses, Starved;
    ModeSafe(s);
    var ok;
    ok, r := FillDTree(s, r0);
    ModeSafe(s);
    if ok {
      leave, r := DecodeLength(s, r);
    } else {
      leave := true;
    }
  }

  // ---- The trees ----

  lemma TreesMean(st: Stream, pos: nat, hist: seq<byte>, last: bool, nl: nat, nd: nat, bl: Lengths, lens: Lengths)
    requires |lens| == nl + nd && LengthCodes(st, pos, hist, last, nl, nd, bl, lens) != Undefined
    ensures !Empty(lens[..nl])
    ensures LengthCodes(st, pos, hist, last, nl, nd, bl, lens)
         == if Usable(lens[..nl]) && (Empty(lens[nl..]) || Usable(lens[nl..]))
            then Codes(st, pos, hist, DynamicCoding(last, lens, nl)) else Bad(hist, 0)
  {
    hide Codes, Usable, Empty;
  }

  lemma DynamicTreesOK(lens: Lengths, nl: nat, last: bool, tl: Tree, td: Tree)
    requires nl <= |lens| && TreeFor(LitSet(lens[..nl]), tl, 9) && td.bits <= 6
    requires !Empty(lens[nl..]) ==> TreeFor(DistSet(lens[nl..]), td, 6)
    ensures TreesOK(DynamicCoding(last, lens, nl), last, tl, td)
  {
    hide Decodes, Empty, LitSet, DistSet;
  }

  /** Both codes can be decoded with. */
  predicate Accepted(lens: Lengths, nl: nat) {
    nl <= |lens| && Usable(lens[..nl]) && (Empty(lens[nl..]) || Usable(lens[nl..]))
  }

  /** All code lengths are known (zlib/infblock.c:302-338). */
  method BuildCodes(s: State, r0: int) returns (leave: bool, r: int)
    requires Valid(s) && s.mode.DTREE? && s.mode.index == |s.blens|
    modifies s`mode, s`cmode, s`ltree, s`dtree, s`coding, s`symbol
    ensures Valid(s)
    ensures if leave then r == Z_DATA_ERROR && s.mode == BAD else r == r0 && s.mode == CODES && s.cmode == START
    ensures LengthsTo(s.blens, |s.blens|)
    ensures leave <==> !Accepted(Known(s.blens, |s.blens|), Nl(old(s.mode.table)))
  {
    hide Low, Shr, Num, P2, Bits, At, Valid, LengthCodes, Codes, WindowOK, TreeFor, TreesOK, Empty, Usable;
    DTreeIs(s);
    var table := s.mode.table;
    var nl, nd := Nl(table), Nd(table);
    var c: Lengths := s.blens;
    assert Known(s.blens, |c|) == c;
    TreesMean(Str(s), Pos(s), s.hist, s.last, nl, nd, s.bl, c);
    var tl, td;
    r, tl, td := TreesDynamic(c, nl, nd, 9, 6);
    if r != Z_OK {
      r := EnterBad(s);
      return true, r;
    }
    DynamicTreesOK(c, nl, s.last, tl, td);
    EnterCodes(s, DynamicCoding(s.last, c, nl), tl, td);
    return false, r0;
  }

  lemma DTreeBounds(s: State)
    requires Valid(s) && s.mode.DTREE?
    ensures s.mode.index <= |s.blens| == Nl(s.mode.table) + Nd(s.mode.table)
  {
    hide Low, Shr, Num, P2, Bits, At, BORDER, Nl, Nd, LengthCodes, WindowOK, TreeFor, LengthsTo;
  }

  /** DTREE: get the code lengths and build the trees (zlib/infblock.c:260-338). */
  method StepDTree(s: State, r0: int) returns (leave: bool, r: int)
    requires Valid(s) && s.mode.DTREE? && (r0 == Z_OK || r0 == Z_BUF_ERROR)
    modifies s`next_in, s`avail_in, s`bitb, s`bitk, s`kk, s`mode, s`blens, s`cmode, s`ltree, s`dtree, s`coding, s`symbol
    ensures Valid(s) && Onward(s) && Reported(s, leave, r0, r)
    ensures r == Z_OK || r == Z_BUF_ERROR || (r == Z_DATA_ERROR && leave && s.mode == BAD)
    ensures !leave ==> Pos(s) >= old(Pos(s)) && s.mode == CODES
    ensures s.mode == CODES ==> s.cmode == START
  {
    hide Valid, Nl, Nd, RepeatBits, Slack, Safe, Spoilt, Misses, Starved, Accepted, Known, LengthsTo;
    r := r0;
    DTreeBounds(s);
    while s.mode.index < Nl(s.mode.table) + Nd(s.mode.table)
      invariant Valid(s) && s.mode.DTREE? && s.mode.index <= |s.blens| == Nl(s.mode.table) + Nd(s.mode.table)
      invariant Onward(s) && Reported(s, false, r0, r) && (r == Z_OK || r == Z_BUF_ERROR)
      decreases |s.blens| - s.mode.index
    {
      leave, r := StepLength(s, r);
      if leave {
        return true, r;
      }
      DTreeBounds(s);
    }
    ModeSafe(s);
    leave, r := BuildCodes(s, r);
    ModeSafe(s);
  }
}
