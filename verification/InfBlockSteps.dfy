/** zlib/infblock.c: the steps of inflate_blocks up to the codes of a block. */
module InfBlockSteps {
  import opened BitMath
  import opened Words
  import opened HuftTables
  import opened Deflate
  import opened DeflateFacts
  import opened InfTrees
  import opened InfUtil
  import opened InfState
  import opened InfCodesSteps
  import opened ZLib

  // ---- The block header ----

  lemma BlockMeans(st: Stream, pos: nat, hist: seq<byte>, t: nat)
    requires pos + 3 <= End(st) && t == Bits(st, pos, 3)
    ensures t < 8
    ensures t / 2 == 0 ==> Block(st, pos, hist) == StoredHeader(st, Align(pos + 3), hist, t % 2 == 1)
    ensures t / 2 == 1 ==> Block(st, pos, hist) == Codes(st, pos + 3, hist, FixedCoding(t % 2 == 1))
    ensures t / 2 == 2 ==> Block(st, pos, hist) == Table(st, pos + 3, hist, t % 2 == 1)
    ensures t / 2 == 3 ==> Block(st, pos, hist) == Bad(hist, 0)
  {
    hide StoredHeader, Codes, Table, At;
    P2Small();
  }

  /** Where the data end within a header, or before a stored block is complete, they are cut short. */
  lemma CutShort(st: Stream, pos: nat, hist: seq<byte>, last: bool)
    ensures pos + 3 > End(st) ==> Block(st, pos, hist) == Truncated(hist)
    ensures pos + 14 > End(st) ==> Table(st, pos, hist, last) == Truncated(hist)
    ensures pos % 8 == 0 && pos + 32 > End(st) ==> StoredHeader(st, pos, hist, last) == Truncated(hist)
    ensures forall left: nat :: left > 0 ==> Stored(st, |st.data|, left, hist, last) == Truncated(hist)
  {
    hide Codes, Bits;
    assert hist + [] == hist;
    assert st.data[|st.data|..] == [];
  }

  /** Z_DATA_ERROR: the data is bad. */
  method EnterBad(s: State) returns (r: int)
    requires Sound(s) && s.rest == Bad(s.hist, 0)
    modifies s`mode
    ensures Valid(s) && s.mode == BAD && r == Z_DATA_ERROR
  {
    hide WindowOK, Valid;
    s.mode := BAD;
    BadIs(s);
    r := Z_DATA_ERROR;
  }

  method EnterLens(s: State)
    requires Sound(s) && s.bitk < 16 && StoredHeader(Str(s), Align(Pos(s)), s.hist, s.last) == s.rest
    modifies s`bitb, s`bitk, s`kk, s`mode
    ensures Valid(s) && s.mode == LENS && Pos(s) >= old(Pos(s))
  {
    hide WindowOK, Valid, StoredHeader, Align, Num, Low, Shr, Bits, At;
    ToByteBoundary(s);
    s.mode := LENS;
    LensIs(s);
  }

  method EnterTable(s: State)
    requires Sound(s) && s.bitk < 16 && Table(Str(s), Pos(s), s.hist, s.last) == s.rest
    modifies s`mode
    ensures Valid(s) && s.mode == TABLE
  {
    hide WindowOK, Valid, Table, Num, Low, Shr, Bits, At;
    s.mode := TABLE;
    TableIs(s);
  }

  /** The block type at pos is the reserved one. */
  predicate Reserved(st: Stream, pos: int) {
    pos >= 0 && Bits(st, pos, 3) / 2 == 3
  }

  /** A block type has come in (zlib/infblock.c:137-181). */
  method TakeType(s: State, r0: int) returns (leave: bool, r: int)
    requires Sound(s) && 3 <= s.bitk < 16 && Block(Str(s), Pos(s), s.hist) == s.rest && Pos(s) + 3 <= End(Str(s))
    modifies s`bitb, s`bitk, s`kk, s`mode, s`last, s`cmode, s`ltree, s`dtree, s`coding, s`symbol
    ensures Valid(s) && Pos(s) >= old(Pos(s)) + 3
    ensures if leave then r == Z_DATA_ERROR && s.mode == BAD
            else r == r0 && (s.mode == LENS || s.mode == CODES || s.mode == TABLE)
    ensures leave <==> Reserved(Str(s), old(Pos(s)))
    ensures s.mode == CODES ==> s.cmode == START
  {
    hide Low, Shr, P2, Num, Codes, Block, StoredHeader, Table, Bits, At, WindowOK, Valid, FixedLit, FixedDist, Align;
    var t := TakeBits(s, 3);
    BlockMeans(Str(s), Pos(s) - 3, s.hist, t);
    s.last := t % 2 == 1;
    leave, r := false, r0;
    if t / 2 == 0 {
      EnterLens(s);
    } else if t / 2 == 1 {
      EnterFixed(s);
    } else if t / 2 == 2 {
      EnterTable(s);
    } else {
      r := EnterBad(s);
      leave := true;
    }
  }

  /** TYPE: get type bits (zlib/infblock.c:135-182). */
  method StepType(s: State, r0: int) returns (leave: bool, r: int)
    requires Valid(s) && s.mode == TYPE && (r0 == Z_OK || r0 == Z_BUF_ERROR)
    modifies s`next_in, s`avail_in, s`bitb, s`bitk, s`kk, s`mode, s`last, s`cmode, s`ltree, s`dtree, s`coding, s`symbol
    ensures Valid(s) && Onward(s) && Reported(s, leave, r0, r)
    ensures r == Z_OK || r == Z_BUF_ERROR || (r == Z_DATA_ERROR && leave && s.mode == BAD)
    ensures !leave ==> Pos(s) > old(Pos(s)) && s.mode != BAD
    ensures r == Z_DATA_ERROR || !leave ==> (r == Z_DATA_ERROR <==> Reserved(Str(s), old(Pos(s))))
    ensures s.mode == CODES ==> s.cmode == START
  {
    hide Low, Shr, P2, Num, Codes, Block, Bits, At, WindowOK, Valid, Safe, Slack, Spoilt, Misses, Starved, RepeatBits,
      LengthSlack, Reserved, Mismatched;
    TypeIs(s);
    ModeSafe(s);
    CutShort(Str(s), Pos(s), s.hist, s.last);
    var ok;
    ok, r := NeedBits(s, 3, r0);
    if ok {
      leave, r := TakeType(s, r);
    } else {
      TypeIs(s);
      leave := true;
    }
    ModeSafe(s);
  }

  lemma AlignIs(p: nat, k: nat)
    requires k <= 8 * p
    ensures Align(8 * p - k) == 8 * p - k + k % 8 && (k - k % 8) % 8 == 0
  {
    var q := k / 8;
    assert 8 * p - k + k % 8 == 8 * (p - q);
  }

  /** t = k & 7; DUMPBITS(t) */
  method ToByteBoundary(s: State)
    requires BitsOK(s) && Pos(s) >= 0
    modifies s`bitb, s`bitk, s`kk
    ensures BitsOK(s) && s.bitk % 8 == 0 && s.bitk <= old(s.bitk)
    ensures Pos(s) == Align(old(Pos(s)))
  {
    hide Align, Low, Shr, Num, Bits, At;
    AlignIs(s.next_in, s.bitk);
    DumpBits(s, s.bitk % 8);
  }

  /** The fixed trees meet what inflate_codes asks of its trees. */
  lemma FixedTreesOK(tl: Tree, td: Tree, last: bool)
    requires TreeFor(LitSet(FixedLit()), tl, 7) && TreeFor(DistSet(FixedDist()), td, 5)
    ensures TreesOK(FixedCoding(last), last, tl, td)
  {
    hide Decodes, FixedLit, FixedDist, LitSet, DistSet;
  }

  /** inflate_codes_new: begin a block with the codes c. */
  method EnterCodes(s: State, ghost c: Coding, tl: Tree, td: Tree)
    requires Sound(s) && s.bitk < 16 && Codes(Str(s), Pos(s), s.hist, c) == s.rest && TreesOK(c, s.last, tl, td)
    modifies s`mode, s`cmode, s`ltree, s`dtree, s`coding, s`symbol
    ensures Valid(s) && s.mode == CODES && s.cmode == START
  {
    hide Codes, OneSymbol, CodesValid, Valid, TreesOK, Sound, Due;
    SoundPos(s);
    s.ltree, s.dtree, s.cmode, s.mode := tl, td, START, CODES;
    s.coding, s.symbol := c, OneSymbol(Str(s), Pos(s), s.hist, c);
    StartIs(s);
    CodesValidIs(s);
  }

  /** A fixed block: the trees are built anew here; the C code builds them once and keeps them. */
  method EnterFixed(s: State)
    requires Sound(s) && s.bitk < 16 && Codes(Str(s), Pos(s), s.hist, FixedCoding(s.last)) == s.rest
    modifies s`mode, s`cmode, s`ltree, s`dtree, s`coding, s`symbol
    ensures Valid(s) && s.mode == CODES && s.cmode == START
  {
    hide Codes, FixedLit, FixedDist, TreeFor, Valid, TreesOK, Sound;
    var tl, td := TreesFixed();
    FixedTreesOK(tl, td, s.last);
    EnterCodes(s, FixedCoding(s.last), tl, td);
  }

  // ---- Stored blocks ----

  /** At the end of a block: s->last ? DRY : TYPE. */
  method EnterNext(s: State)
    requires Sound(s) && s.bitk < 16 && (s.last ==> s.bitk < 8) && EndBlock(Str(s), Pos(s), s.hist, s.last) == s.rest
    modifies s`mode
    ensures Valid(s) && s.mode == if s.last then DRY else TYPE
  {
    hide Block, Sound, Valid;
    s.mode := if s.last then DRY else TYPE;
    if s.last {
      DryIs(s);
    } else {
      TypeIs(s);
    }
  }

  /** The two length fields, read as one word. */
  lemma LensMeans(st: Stream, pos: nat, hist: seq<byte>, last: bool, b: nat)
    requires pos % 8 == 0 && pos + 32 <= End(st) && b == Bits(st, pos, 32)
    ensures Low(b, 16) == Bits(st, pos, 16) <= 0xffff && Low(Shr(b, 16), 16) == Bits(st, pos + 16, 16) <= 0xffff
    ensures StoredHeader(st, pos, hist, last)
         == if 0xffff - Low(Shr(b, 16), 16) != Low(b, 16) then Bad(hist, 0)
            else Stored(st, BlockData(pos), Low(b, 16), hist, last)
  {
    hide Stored, Low, Shr, Num;
    var x := At(st, pos);
    assert P2(16) == 65536 by { P2Small(); }
    LowOfLow(x, 16, 32);
    LowOfLow(Shr(x, 16), 16, 16);
    CutTwice(Num(st.data), pos, 16);
  }

  /** After t bytes of a stored block. */
  lemma StoredMeans(st: Stream, p: nat, left: nat, hist: seq<byte>, last: bool, t: nat)
    requires t <= left && p + t <= |st.data|
    ensures Stored(st, p, left, hist, last) == Stored(st, p + t, left - t, hist + st.data[p..p + t], last)
    ensures left == t ==> Stored(st, p, left, hist, last) == EndBlock(st, 8 * (p + t), hist + st.data[p..p + t], last)
  {
    hide EndBlock;
    var d := st.data;
    assert hist + d[p..] == hist + d[p..p + t] + d[p + t..];
    if p + left <= |d| {
      assert hist + d[p..p + left] == hist + d[p..p + t] + d[p + t..p + left];
    }
  }

  /** The two length fields at pos are not complements. */
  predicate Mismatched(st: Stream, pos: int) {
    pos >= 0 && Bits(st, pos, 16) + Bits(st, pos + 16, 16) != 0xffff
  }

  /** The buffer holds exactly the two length fields (zlib/infblock.c:185-195). */
  method TakeLens(s: State, r0: int) returns (leave: bool, r: int)
    requires Sound(s) && s.bitk == 32 && Pos(s) % 8 == 0 && StoredHeader(Str(s), Pos(s), s.hist, s.last) == s.rest
    modifies s`bitb, s`bitk, s`kk, s`mode
    ensures Valid(s) && Pos(s) == old(Pos(s)) + if leave then 0 else 32
    ensures if leave then r == Z_DATA_ERROR && s.mode == BAD
            else r == r0 && (s.mode.STORED? || s.mode == DRY || s.mode == TYPE)
    ensures leave <==> Mismatched(Str(s), old(Pos(s)))
  {
    hide Low, Shr, P2, Num, Stored, StoredHeader, EndBlock, Bits, At, WindowOK, Valid;
    LensMeans(Str(s), Pos(s), s.hist, s.last, s.bitb);
    if 0xffff - Low(Shr(s.bitb, 16), 16) != Low(s.bitb, 16) {
      r := EnterBad(s);
      return true, r;
    }
    var left := Low(s.bitb, 16);
    EmptyBuffer(s);
    if left > 0 {
      s.mode := STORED(left);
      StoredIs(s);
    } else {
      StoredMeans(Str(s), s.next_in, 0, s.hist, s.last, 0);
      assert s.hist + s.input[s.next_in..s.next_in] == s.hist;
      EnterNext(s);
    }
    return false, r0;
  }

  /** b = k = 0: dump bits */
  method EmptyBuffer(s: State)
    requires BitsOK(s)
    modifies s`bitb, s`bitk, s`kk
    ensures s.first <= s.next_in ==> BitsOK(s)
    ensures s.bitk == 0 && s.kk == 0 && Pos(s) == 8 * s.next_in
  {
    hide Shr, Num;
    s.bitb, s.bitk, s.kk := 0, 0, 0;
  }

  /** p += t;  n -= t */
  method PassOver(s: State, t: nat)
    requires BitsOK(s) && s.bitk == 0 && s.kk == 0 && t <= s.avail_in
    modifies s`next_in, s`avail_in
    ensures BitsOK(s) && s.next_in == old(s.next_in) + t && Limit(s) == old(Limit(s))
  {
    hide Shr, Num;
    s.next_in, s.avail_in := s.next_in + t, s.avail_in - t;
  }

  /** LENS: get lengths of stored block (zlib/infblock.c:183-196). */
  method StepLens(s: State, r0: int) returns (leave: bool, r: int)
    requires Valid(s) && s.mode == LENS && (r0 == Z_OK || r0 == Z_BUF_ERROR)
    modifies s`next_in, s`avail_in, s`bitb, s`bitk, s`kk, s`mode
    ensures Valid(s) && Onward(s) && Reported(s, leave, r0, r)
    ensures r == Z_OK || r == Z_BUF_ERROR || (r == Z_DATA_ERROR && leave && s.mode == BAD)
    ensures (!leave ==> Pos(s) > old(Pos(s)) && s.mode != BAD) && s.mode != CODES
    ensures r == Z_DATA_ERROR || !leave ==> (r == Z_DATA_ERROR <==> Mismatched(Str(s), old(Pos(s))))
  {
    hide Low, Shr, P2, Num, StoredHeader, Bits, At, WindowOK, Valid, Safe, Slack, Spoilt, Misses, Starved, RepeatBits,
      CodesSlack, LengthSlack, Reserved, Mismatched;
    LensIs(s);
    ModeSafe(s);
    CutShort(Str(s), Pos(s), s.hist, s.last);
    var ok;
    ok, r := NeedBits(s, 32, r0);
    if ok {
      leave, r := TakeLens(s, r);
    } else {
      LensIs(s);
      leave := true;
    }
    ModeSafe(s);
  }

  /** STORED, with input and room for output (zlib/infblock.c:201-212). */
  method MoveStored(s: State) returns (r: int)
    requires Valid(s) && s.mode.STORED? && s.avail_in > 0 && s.write <= s.window.Length && WAvail(s) > 0
    modifies s`next_in, s`avail_in, s`write, s`hist, s`mode, s.window
    ensures Valid(s) && Limit(s) == old(Limit(s)) && old(s.hist) <= s.hist && Pos(s) > old(Pos(s))
    ensures (s.mode in {DRY, TYPE} || s.mode.STORED?) && s.next_in > old(s.next_in)
    ensures r == Z_OK
  {
    hide Low, Shr, P2, Num, Stored, EndBlock, At, Valid, WindowOK;
    StoredIs(s);
    var t := s.mode.left;
    if t > s.avail_in {
      t := s.avail_in;
    }
    if t > WAvail(s) {
      t := WAvail(s);
    }
    StoredMeans(Str(s), s.next_in, s.mode.left, s.hist, s.last, t);
    OutBytes(s, s.next_in, t);
    PassOver(s, t);
    if s.mode.left > t {
      s.mode := STORED(s.mode.left - t);
      StoredIs(s);
    } else {
      EnterNext(s);
    }
    r := Z_OK;
  }

  /** While a stored block is not yet all there, there is more output to come. */
  lemma StoredMore(st: Stream, p: nat, left: nat, hist: seq<byte>, last: bool)
    requires left > 0
    ensures var o := Stored(st, p, left, hist, last); o.Bad? ==> |hist| < |o.out|
  {
    hide EndBlock;
    if p + left <= |st.data| {
      EndBlockAhead(st, 8 * (p + left), hist + st.data[p..p + left], last);
    }
  }

  /** Input and output space are there, or else the window is full. */
  method PutStored(s: State, r0: int) returns (leave: bool, r: int)
    requires Valid(s) && s.mode.STORED? && s.avail_in > 0 && (r0 == Z_OK || r0 == Z_BUF_ERROR)
    modifies s`next_in, s`avail_in, s`mode, s`read, s`write, s`hist, s`base, s`out, s`avail_out, s`total_out, s`check,
             s.window
    ensures Valid(s) && Limit(s) == old(Limit(s)) && old(s.hist) <= s.hist && old(s.out) <= s.out
    ensures |s.out| + s.avail_out == |old(s.out)| + old(s.avail_out)
    ensures leave ==> Stalled(s) && s.mode == old(s.mode) && s.next_in == old(s.next_in)
    ensures leave ==> r == if |s.out| > |old(s.out)| && r0 == Z_BUF_ERROR then Z_OK else r0
    ensures !leave ==> r == Z_OK && Pos(s) > old(Pos(s)) && s.next_in > old(s.next_in)
    ensures !leave ==> s.mode in {DRY, TYPE} || s.mode.STORED?
  {
    hide Low, Shr, P2, Num, Stored, At, WindowOK, Valid;
    StoredIs(s);
    WindowBounds(s);
    var ok;
    ok, r := NeedOut(s, r0);
    StoredIs(s);
    WindowBounds(s);
    leave := !ok;
    if ok {
      r := MoveStored(s);
      HistBound(s);
    } else {
      StoredMore(Str(s), s.next_in, s.mode.left, s.hist, s.last);
    }
  }

  /** STORED: copy input to the window (zlib/infblock.c:197-213). */
  method StepStored(s: State, r0: int) returns (leave: bool, r: int)
    requires Valid(s) && s.mode.STORED? && (r0 == Z_OK || r0 == Z_BUF_ERROR)
    modifies s`next_in, s`avail_in, s`mode, s`read, s`write, s`hist, s`base, s`out, s`avail_out, s`total_out, s`check,
             s.window
    ensures Valid(s) && Onward(s) && Reported(s, leave, r0, r)
    ensures r == Z_OK || r == Z_BUF_ERROR
    ensures (!leave ==> Pos(s) > old(Pos(s)) && s.mode != BAD) && s.mode != CODES
  {
    hide Low, Shr, P2, Num, Stored, At, WindowOK, Valid, Safe, Slack, Spoilt, Misses, Starved, RepeatBits, CodesSlack,
      LengthSlack, Reserved, Mismatched;
    StoredIs(s);
    ModeSafe(s);
    if s.avail_in == 0 {
      CutShort(Str(s), Pos(s), s.hist, s.last);
      return true, r0;
    }
    leave, r := PutStored(s, r0);
    ModeSafe(s);
  }

  lemma HistBound(s: State)
    requires Valid(s)
    ensures s.out <= s.hist
  {
  }
}
