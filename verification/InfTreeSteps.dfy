/** zlib/infblock.c: the steps of inflate_blocks that read the codes of a dynamic block. */
module InfTreeSteps {
  import opened BitMath
  import opened Words
  import opened Huffman
  import opened HuftTables
  import opened Deflate
  import opened DeflateFacts
  import opened InfTrees
  import opened InfUtil
  import opened InfState
  import opened InfCodesSteps
  import opened InfBlockSteps
  import opened ZLib

  // ---- TABLE ----

  /** The header word holds the three table sizes. */
  lemma TableMeans(st: Stream, pos: nat, hist: seq<byte>, last: bool, t: nat)
    requires pos + 14 <= End(st) && t == Bits(st, pos, 14)
    ensures Low(t, 5) == Bits(st, pos, 5) < 32 && Low(Shr(t, 5), 5) == Bits(st, pos + 5, 5) < 32 && Nc(t) <= 19
    ensures Table(st, pos, hist, last)
         == if Low(t, 5) > 29 || Low(Shr(t, 5), 5) > 29 then Bad(hist, 0)
            else CodeLengthCode(st, pos + 14, hist, last, Nl(t), Nd(t), Nc(t))
  {
    hide CodeLengthCode, Low, Shr, Num, P2;
    var x := At(st, pos);
    P2Small();
    LowOfLow(x, 5, 14);
    LowOfLow(Shr(x, 5), 5, 9);
    CutTwice(Num(st.data), pos, 5);
    CutTwice(Num(st.data), pos, 10);
    LowOfLow(x, 10, 14);
  }

  /** Set up for BTREE (zlib/infblock.c:226-237). */
  method EnterBTree(s: State, table: nat)
    requires Sound(s) && s.bitk < 16 && Nl(table) <= 286 && Nd(table) <= 30 && Nc(table) <= 19
    requires CodeLengthCode(Str(s), Pos(s), s.hist, s.last, Nl(table), Nd(table), Nc(table)) == s.rest
    modifies s`mode, s`blens, s`mark
    ensures Valid(s) && s.mode.BTREE?
  {
    hide CodeLengthCode, Sound, Valid, Nl, Nd, Nc;
    SoundPos(s);
    s.blens := seq(Nl(table) + Nd(table), _ => 0);
    s.mark := Pos(s);
    s.mode := BTREE(table, 0);
    BTreeIs(s);
  }

  /** The table sizes at pos are more than the format allows. */
  predicate TooMany(st: Stream, pos: int) {
    pos >= 0 && (Bits(st, pos, 5) > 29 || Bits(st, pos + 5, 5) > 29)
  }

  method TakeTable(s: State, r0: int) returns (leave: bool, r: int)
    requires Sound(s) && 14 <= s.bitk < 22 && Table(Str(s), Pos(s), s.hist, s.last) == s.rest
    requires Pos(s) + 14 <= End(Str(s))
    modifies s`bitb, s`bitk, s`kk, s`mode, s`blens, s`mark
    ensures Valid(s) && Pos(s) == old(Pos(s)) + if leave then 0 else 14
    ensures if leave then r == Z_DATA_ERROR && s.mode == BAD else r == r0 && s.mode.BTREE?
    ensures leave <==> TooMany(Str(s), old(Pos(s)))
  {
    hide Low, Shr, P2, Num, CodeLengthCode, Table, Bits, At, WindowOK, Valid;
    Peek(s, 14);
    var table := Low(s.bitb, 14);
    TableMeans(Str(s), Pos(s), s.hist, s.last, table);
    if Low(table, 5) > 29 || Low(Shr(table, 5), 5) > 29 {
      r := EnterBad(s);
      return true, r;
    }
    DumpBits(s, 14);
    EnterBTree(s, table);
    return false, r0;
  }

  /** TABLE: get table sizes (zlib/infblock.c:214-237). */
  method StepTable(s: State, r0: int) returns (leave: bool, r: int)
    requires Valid(s) && s.mode == TABLE && (r0 == Z_OK || r0 == Z_BUF_ERROR)
    modifies s`next_in, s`avail_in, s`bitb, s`bitk, s`kk, s`mode, s`blens, s`mark
    ensures Valid(s) && Onward(s) && Reported(s, leave, r0, r)
    ensures r == Z_OK || r == Z_BUF_ERROR || (r == Z_DATA_ERROR && leave && s.mode == BAD)
    ensures (!leave ==> Pos(s) > old(Pos(s)) && s.mode.BTREE?) && s.mode != CODES
    ensures r == Z_DATA_ERROR || !leave ==> (r == Z_DATA_ERROR <==> TooMany(Str(s), old(Pos(s))))
  {
    hide Low, Shr, P2, Num, Table, Bits, At, WindowOK, Valid, RepeatBits, Safe, Slack, Spoilt, Misses, Starved,
      CodesSlack, LengthSlack, Nl, Nd, Nc, TooMany;
    TableIs(s);
    ModeSafe(s);
    CutShort(Str(s), Pos(s), s.hist, s.last);
    var ok;
    ok, r := NeedBits(s, 14, r0);
    if ok {
      leave, r := TakeTable(s, r);
    } else {
      TableIs(s);
      leave := true;
    }
    ModeSafe(s);
  }

  // ---- BTREE ----

  /** The order of the code length code lengths is a permutation. */
  lemma Order()
    ensures |BORDER| == 19
    ensures forall j :: 0 <= j < 19 ==> 0 <= BORDER[j] < 19
    ensures forall i, j :: 0 <= i < j < 19 ==> BORDER[i] != BORDER[j]
  {
  }

  lemma {:induction false} OrderIs(i: nat, j: nat, k: nat)
    requires k <= j < 19 && BORDER[j] == i
    ensures OrderOf(i, k) == j
    decreases j - k
  {
    if k < j {
      Order();
      OrderIs(i, j, k + 1);
    }
  }

  lemma Positions()
    ensures forall i :: 0 <= i < 19 ==> OrderOf(i, 0) < 19 && BORDER[OrderOf(i, 0)] == i
  {
    OrderIs(16, 0, 0); OrderIs(17, 1, 0); OrderIs(18, 2, 0); OrderIs(0, 3, 0); OrderIs(8, 4, 0);
    OrderIs(7, 5, 0); OrderIs(9, 6, 0); OrderIs(6, 7, 0); OrderIs(10, 8, 0); OrderIs(5, 9, 0);
    OrderIs(11, 10, 0); OrderIs(4, 11, 0); OrderIs(12, 12, 0); OrderIs(3, 13, 0); OrderIs(13, 14, 0);
    OrderIs(2, 15, 0); OrderIs(14, 16, 0); OrderIs(1, 17, 0); OrderIs(15, 18, 0);
  }

  /** One more code length code length. */
  lemma BTreeNext(st: Stream, mark: nat, pos: nat, table: nat, index: nat, blens: seq<nat>)
    requires BTreeOK(st, mark, pos, table, index, blens) && index < Nc(table)
    ensures index < |BORDER| && BORDER[index] < |blens|
    ensures BTreeOK(st, mark, pos + 3, table, index + 1, blens[BORDER[index] := Bits(st, pos, 3)])
  {
    hide Low, Shr, Num, P2, Bits, BORDER;
    Order();
  }

  lemma LengthsCut(st: Stream, pos: nat, out: seq<byte>, last: bool, nl: nat, nd: nat, n: nat)
    ensures pos + 3 * n > End(st) ==> CodeLengthCode(st, pos, out, last, nl, nd, n) == Truncated(out)
  {
  }

  /** Fewer bits are left than the next length has. */
  lemma BTreeStarved(s: State)
    requires Valid(s) && s.mode.BTREE? && s.mode.index < Nc(s.mode.table) && s.bitk < 3 && s.avail_in == 0
    ensures Starved(s)
  {
    hide Low, Shr, Num, P2, Bits, BORDER, Valid, Nl, Nd, Nc, CodeLengthCode, WindowOK, Slack;
    BTreeIs(s);
    ModeSafe(s);
    LengthsCut(Str(s), s.mark, s.hist, s.last, Nl(s.mode.table), Nd(s.mode.table), Nc(s.mode.table));
  }

  /** One pass of the loop (zlib/infblock.c:241-243). */
  method TakeLength(s: State)
    requires Valid(s) && s.mode.BTREE? && s.mode.index < Nc(s.mode.table) && s.bitk >= 3
    modifies s`bitb, s`bitk, s`kk, s`mode, s`blens
    ensures Valid(s) && s.mode == BTREE(old(s.mode.table), old(s.mode.index) + 1) && Pos(s) > old(Pos(s))
  {
    hide Low, Shr, Num, P2, Bits, At, BORDER, Valid, Nl, Nd, Nc, CodeLengthCode, WindowOK, BTreeOK;
    BTreeIs(s);
    BTreeNext(Str(s), s.mark, Pos(s), s.mode.table, s.mode.index, s.blens);
    var v := TakeBits(s, 3);
    s.blens := s.blens[BORDER[s.mode.index] := v];
    s.mode := BTREE(s.mode.table, s.mode.index + 1);
    BTreeIs(s);
  }

  /** The lengths not sent are zero (zlib/infblock.c:245-246). */
  method ZeroRest(s: State, index: nat)
    requires index <= 19 <= |s.blens|
    modifies s`blens
    ensures |s.blens| == |old(s.blens)|
    ensures forall j :: 0 <= j < 19 ==> s.blens[BORDER[j]] == if j < index then old(s.blens)[BORDER[j]] else 0
  {
    hide BORDER;
    Order();
    var i := index;
    while i < 19
      invariant index <= i <= 19 && |s.blens| == |old(s.blens)|
      invariant forall j :: 0 <= j < 19 ==> s.blens[BORDER[j]] == if index <= j < i then 0 else old(s.blens)[BORDER[j]]
    {
      s.blens := s.blens[BORDER[i] := 0];
      i := i + 1;
    }
  }

  /** Read in the order they are sent, the lengths are those of the format. */
  lemma LengthsRead(st: Stream, mark: nat, n: nat, blens: seq<nat>)
    requires n <= 19 <= |blens|
    requires forall j :: 0 <= j < 19 ==> blens[BORDER[j]] == if j < n then Bits(st, mark + 3 * j, 3) else 0
    ensures blens[..19] == CodeLengthLengths(st, mark, n)
    ensures forall i :: 0 <= i < 19 ==> blens[i] <= 7
  {
    hide BORDER, OrderOf, Bits, At, P2;
    Order();
    Positions();
    P2Small();
    var b := CodeLengthLengths(st, mark, n);
    forall i | 0 <= i < 19
      ensures blens[i] == b[i] && blens[i] <= 7
    {
      assert blens[BORDER[OrderOf(i, 0)]] == blens[i];
      BitsBound(st, mark + 3 * OrderOf(i, 0), 3);
    }
  }

  /** What is decided once the code length code lengths are read. */
  lemma CodeLengthsMean(st: Stream, mark: nat, pos: nat, hist: seq<byte>, last: bool, nl: nat, nd: nat, n: nat)
    requires pos == mark + 3 * n <= End(st) && CodeLengthCode(st, mark, hist, last, nl, nd, n) != Undefined
    ensures var bl := CodeLengthLengths(st, mark, n);
            && !Empty(bl)
            && CodeLengthCode(st, mark, hist, last, nl, nd, n)
            == if Usable(bl) then LengthCodes(st, pos, hist, last, nl, nd, bl, []) else Bad(hist, 0)
  {
    hide CodeLengthLengths, LengthCodes, Usable, Empty;
  }

  /** Set up for DTREE (zlib/infblock.c:257-259). */
  method EnterDTree(s: State, table: nat, tb: Tree, ghost bl: Lengths)
    requires Sound(s) && s.bitk < 16 && DTreeOK(table, 0, tb, s.blens, bl)
    requires LengthCodes(Str(s), Pos(s), s.hist, s.last, Nl(table), Nd(table), bl, []) == s.rest
    modifies s`mode, s`bl
    ensures Valid(s) && s.mode == DTREE(table, 0, tb)
  {
    hide LengthCodes, Sound, Valid, Nl, Nd, Nc, TreeFor, DTreeOK, LengthsTo;
    s.bl := bl;
    s.mode := DTREE(table, 0, tb);
    NoneKnown(s.blens);
    DTreeIs(s);
  }

  lemma NoneKnown(a: seq<nat>)
    ensures LengthsTo(a, 0) && Known(a, 0) == []
  {
  }

  lemma SizedRoom(table: nat, blens: seq<nat>)
    requires Sized(table, blens)
    ensures |blens| >= 258 && |blens| == Nl(table) + Nd(table)
  {
  }

  /** All the lengths are read: build the bits tree (zlib/infblock.c:245-259). */
  method BuildBits(s: State, r0: int) returns (leave: bool, r: int)
    requires Valid(s) && s.mode.BTREE? && s.mode.index == Nc(s.mode.table)
    modifies s`mode, s`blens, s`bl
    ensures Valid(s)
    ensures if leave then r == Z_DATA_ERROR && s.mode == BAD else r == r0 && s.mode.DTREE?
    ensures leave <==> !Usable(CodeLengthLengths(Str(s), s.mark, Nc(old(s.mode.table))))
  {
    hide Low, Shr, Num, P2, Bits, At, BORDER, Valid, Nl, Nd, Nc, CodeLengthCode, CodeLengthLengths, LengthCodes,
      WindowOK, TreeFor, Usable, Empty;
    BTreeIs(s);
    var table := s.mode.table;
    SizedRoom(table, s.blens);
    ZeroRest(s, s.mode.index);
    LengthsRead(Str(s), s.mark, Nc(table), s.blens);
    CodeLengthsMean(Str(s), s.mark, Pos(s), s.hist, s.last, Nl(table), Nd(table), Nc(table));
    var tb;
    r, tb := TreesBits(s.blens[..19], 7);
    if r != Z_OK {
      r := EnterBad(s);
      return true, r;
    }
    EnterDTree(s, table, tb, s.blens[..19]);
    return false, r0;
  }

  /** BTREE: get the code length code lengths (zlib/infblock.c:238-259). */
  method StepBTree(s: State, r0: int) returns (leave: bool, r: int)
    requires Valid(s) && s.mode.BTREE? && (r0 == Z_OK || r0 == Z_BUF_ERROR)
    modifies s`next_in, s`avail_in, s`bitb, s`bitk, s`kk, s`mode, s`blens, s`bl
    ensures Valid(s) && Onward(s) && Reported(s, leave, r0, r)
    ensures r == Z_OK || r == Z_BUF_ERROR || (r == Z_DATA_ERROR && leave && s.mode == BAD)
    ensures (!leave ==> Pos(s) >= old(Pos(s)) && s.mode.DTREE?) && s.mode != CODES
  {
    hide Low, Shr, Num, P2, Bits, At, BORDER, Valid, Nl, Nd, Nc, CodeLengthCode, WindowOK, BTreeOK;
    r := r0;
    BTreeBounds(s);
    while s.mode.index < Nc(s.mode.table)
      invariant Valid(s) && s.mode.BTREE? && s.mode.index <= Nc(s.mode.table)
      invariant Onward(s) && Reported(s, false, r0, r) && (r == Z_OK || r == Z_BUF_ERROR)
      decreases Nc(s.mode.table) - s.mode.index
    {
      var ok;
      ok, r := FillBTree(s, r);
      if !ok {
        if s.avail_in == 0 {
          BTreeStarved(s);
        }
        return true, r;
      }
      TakeLength(s);
    }
    leave, r := BuildBits(s, r);
  }

  lemma BTreeBounds(s: State)
    requires Valid(s) && s.mode.BTREE?
    ensures s.mode.index <= Nc(s.mode.table)
  {
    hide Low, Shr, Num, P2, Bits, At, BORDER, Nl, Nd, Nc, CodeLengthCode, WindowOK;
  }

  /** NEEDBITS(3) */
  method FillBTree(s: State, r0: int) returns (ok: bool, r: int)
    requires Valid(s) && s.mode.BTREE?
    modifies s`next_in, s`avail_in, s`bitb, s`bitk, s`kk
    ensures Valid(s) && Pos(s) == old(Pos(s)) && Limit(s) == old(Limit(s))
    ensures ok <==> s.bitk >= 3
    ensures !ok ==> s.avail_in == 0 || Misses(s)
    ensures r == r0 || r == Z_OK
    ensures s.next_in >= old(s.next_in) && (s.next_in == old(s.next_in) ==> r == r0)
    ensures s.next_in != old(s.next_in) ==> r == Z_OK
  {
    hide Low, Shr, Num, P2, Bits, At, BORDER, Valid, Nl, Nd, Nc, CodeLengthCode, WindowOK, BTreeOK;
    BTreeIs(s);
    ok, r := NeedBits(s, 3, r0);
    BTreeIs(s);
  }
}
