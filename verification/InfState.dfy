/** What a suspended decompressor still has to do, and the invariant that it will do what the format
    says: in whatever state it stops, finishing from there gives the outcome of the whole input. */
module InfState {
  import opened BitMath
  import opened Huffman
  import opened HuftTables
  import opened Deflate
  import opened Decoding
  import opened InfTrees
  import opened InfUtil
  import opened ZLib

  // ---- Fields of a dynamic block's header word ----

  function Nl(table: nat): nat { 257 + Low(table, 5) }

  function Nd(table: nat): nat { 1 + Low(Shr(table, 5), 5) }

  function Nc(table: nat): nat { 4 + Shr(table, 10) }

  ghost predicate LengthsTo(a: seq<nat>, n: nat) {
    n <= |a| && forall i :: 0 <= i < n ==> a[i] <= MAX_BITS
  }

  /** The first n entries of blens as code lengths. */
  ghost function Known(a: seq<nat>, n: nat): (r: Lengths)
    requires LengthsTo(a, n)
  {
    a[..n]
  }

  // ---- inflate_codes ----

  /** What the literal or match in progress comes to, told from where its decoding stands. */
  ghost function Partial(st: Stream, m: CodesMode, mark: nat, pos: nat, hist: seq<byte>, c: Coding): Step {
    match m
    case START => OneSymbol(st, pos, hist, c)
    case LEN(_, _) => OneSymbol(st, mark, hist, c)
    case LENEXT(len, get) => LengthExtra(st, pos, hist, c, len, get)
    case DIST(len, _, _) => Distance(st, mark, hist, c, len)
    case DISTEXT(len, dist, get) => DistanceExtra(st, pos, hist, len, dist, get)
    case COPY(len, dist) =>
      if 1 <= dist <= |hist| && dist <= st.wsize then Went(pos, CopyMatch(hist, len, dist)) else Unclear
    case LIT(b) => Went(pos, hist + [b])
    case WASH => Ended(pos)
    case END => Ended(pos)
    case BADCODE => Broken
  }

  /** What remains to be done inside a block with codes. */
  ghost function Go(st: Stream, x: Step, hist: seq<byte>, c: Coding): Outcome {
    match x
    case Went(p, o) => Codes(st, p, o, c)
    case Ended(p) => Held(EndBlock(st, p, hist, c.last), |hist|)
    case Broken => Bad(hist, 0)
    case Cut => Truncated(hist)
    case Unclear => Undefined
  }

  lemma CodesIsGo(st: Stream, pos: nat, hist: seq<byte>, c: Coding)
    ensures Codes(st, pos, hist, c) == Go(st, OneSymbol(st, pos, hist, c), hist, c)
  {
    hide OneSymbol, EndBlock;
  }

  /** A walk under way: not yet begun, or some links down. */
  ghost predicate UnderWay(st: Stream, tree: Tree, mark: nat, t: nat, need: nat, pos: int) {
    || (mark == pos && t == tree.root && need == tree.bits)
    || (pos >= 0 && exists f :: Walking(st, tree, mark, t, need, pos, f))
  }

  ghost predicate TreesOK(c: Coding, last: bool, ltree: Tree, dtree: Tree) {
    && c.lbits <= 9 && c.dbits <= 9 && c.last == last
    && TreeFor(LitSet(c.lit), ltree, c.lbits)
    && (!Empty(c.dist) ==> TreeFor(DistSet(c.dist), dtree, c.dbits))
    && dtree.bits <= 9
  }

  ghost predicate CodesOK(st: Stream, m: CodesMode, mark: nat, pos: int, c: Coding, ltree: Tree, dtree: Tree) {
    match m
    case LEN(tree, need) => 1 <= need <= 9 && UnderWay(st, ltree, mark, tree, need, pos)
    case DIST(len, tree, need) =>
      need <= 9 && (!Empty(c.dist) ==> 1 <= need && UnderWay(st, dtree, mark, tree, need, pos))
    case LENEXT(len, get) => get <= 5
    case DISTEXT(len, dist, get) => get <= 13
    case _ => true
  }

  /** The literal or match in progress will come to what it had to come to from its first bit on. */
  ghost predicate InSymbol(s: State)
    reads s`next_in, s`bitk, s`cmode, s`mark, s`hist, s`coding, s`symbol
  {
    Pos(s) >= 0 && Partial(Str(s), s.cmode, s.mark, Pos(s), s.hist, s.coding) == s.symbol
  }

  /** What is still to come makes the outcome of the whole input.  Without a fast run, which takes ten bytes
      of input, no block with codes ends before what it holds has been delivered. */
  ghost predicate Due(s: State)
    reads s`rest, s`held, s`out
  {
    s.rest != Undefined && Held(s.rest, s.held) == s.goal && (|s.input| < 10 ==> s.held <= |s.out|)
  }

  /** The invariant of inflate_codes, but for the size of the buffer. */
  ghost predicate CodesCore(s: State)
    reads s, s.window
  {
    && BitsOK(s) && WindowOK(s) && s.mode == CODES
    && TreesOK(s.coding, s.last, s.ltree, s.dtree)
    && CodesOK(Str(s), s.cmode, s.mark, Pos(s), s.coding, s.ltree, s.dtree)
    && InSymbol(s) && Due(s) && Go(Str(s), s.symbol, s.hist, s.coding) == s.rest
  }

  ghost predicate CodesValid(s: State)
    reads s, s.window
  {
    CodesCore(s) && s.bitk < 16
  }

  // ---- inflate_blocks ----

  /** What finishing from here gives. */
  ghost function Meaning(s: State): Outcome
    reads s`next_in, s`bitk, s`mode, s`last, s`blens, s`cmode, s`hist, s`mark, s`coding, s`bl, s`symbol
  {
    var st := Str(s);
    if Pos(s) < 0 then Undefined
    else
      match s.mode
      case TYPE => Block(st, Pos(s), s.hist)
      case LENS => if Pos(s) % 8 == 0 then StoredHeader(st, Pos(s), s.hist, s.last) else Undefined
      case STORED(left) => Stored(st, s.next_in, left, s.hist, s.last)
      case TABLE => Table(st, Pos(s), s.hist, s.last)
      case BTREE(table, index) =>
        CodeLengthCode(st, s.mark, s.hist, s.last, Nl(table), Nd(table), Nc(table))
      case DTREE(table, index, tb) =>
        if LengthsTo(s.blens, index)
        then LengthCodes(st, Pos(s), s.hist, s.last, Nl(table), Nd(table), s.bl, Known(s.blens, index))
        else Undefined
      case CODES => Go(st, s.symbol, s.hist, s.coding)
      case DRY => Complete(s.hist, Pos(s))
      case DONE => Complete(s.hist, Pos(s))
      case BAD => Bad(s.hist, 0)
  }

  /** Room for the lengths of both codes, as many of each as the format allows. */
  predicate Sized(table: nat, blens: seq<nat>) {
    Nl(table) <= 286 && Nd(table) <= 30 && |blens| == Nl(table) + Nd(table)
  }

  /** The first index code length code lengths have been read from mark on. */
  ghost predicate BTreeOK(st: Stream, mark: nat, pos: int, table: nat, index: nat, blens: seq<nat>) {
    && Sized(table, blens) && index <= Nc(table) <= 19 && pos == mark + 3 * index
    && forall j :: 0 <= j < index ==> blens[BORDER[j]] == Bits(st, mark + 3 * j, 3)
  }

  ghost predicate DTreeOK(table: nat, index: nat, tb: Tree, blens: seq<nat>, bl: Lengths) {
    && Sized(table, blens) && index <= |blens| && LengthsTo(blens, index)
    && |bl| == 19 && TreeFor(BitSet(bl), tb, 7) && forall i :: 0 <= i < 19 ==> bl[i] <= tb.bits
  }

  ghost predicate ModeOK(s: State)
    reads s`next_in, s`bitk, s`kk, s`mode, s`last, s`blens, s`cmode, s`ltree, s`dtree
    reads s`hist, s`mark, s`coding, s`bl, s`symbol
  {
    match s.mode
    case STORED(left) => left > 0 && s.kk == 0
    case BTREE(table, index) => BTreeOK(Str(s), s.mark, Pos(s), table, index, s.blens)
    case DTREE(table, index, tb) => DTreeOK(table, index, tb, s.blens, s.bl)
    case CODES =>
      && TreesOK(s.coding, s.last, s.ltree, s.dtree)
      && CodesOK(Str(s), s.cmode, s.mark, Pos(s), s.coding, s.ltree, s.dtree) && InSymbol(s) && s.cmode != END
    case _ => true
  }

  /** How many bits may be left in the buffer between steps.  In LENS mode the buffer must end at a
      byte boundary, so that it holds exactly 32 bits when the lengths are read and none is lost when
      it is emptied; in DRY mode fewer than eight may be left, so that next_in is at the end. */
  ghost predicate BufferOK(s: State)
    reads s`mode, s`bitk
  {
    match s.mode
    case LENS => s.bitk <= 32 && s.bitk % 8 == 0
    case STORED(_) => s.bitk == 0
    case DRY => s.bitk < 8
    case DONE => s.bitk < 8
    case BAD => true
    case _ => s.bitk < 16
  }

  /** Finishing from here gives the outcome of the whole input. */
  ghost predicate Carried(s: State)
    reads s`first, s`next_in, s`avail_in, s`bitb, s`bitk, s`kk
    reads s`mode, s`last, s`blens, s`cmode, s`ltree, s`dtree, s`hist, s`mark
    reads s`coding, s`bl, s`symbol, s`rest, s`held, s`out
  {
    BitsOK(s) && BufferOK(s) && ModeOK(s) && Due(s) && Meaning(s) == s.rest
  }

  /** DONE is reached only with everything delivered; and a run stops at the end of a block with codes only if
      something is not. */
  ghost predicate Delivered(s: State)
    reads s`mode, s`cmode, s`out, s`hist, s`read, s`write
  {
    && (s.mode == DONE ==> s.out == s.hist && s.read == s.write)
    && (s.mode == CODES && s.cmode == WASH ==> s.out != s.hist)
  }

  /** The invariant of every step. */
  ghost predicate Valid(s: State)
    reads s, s.window
  {
    Carried(s) && WindowOK(s) && Delivered(s)
  }

  // ---- What Valid says in each mode ----

  ghost predicate Sound(s: State)
    reads s`first, s`next_in, s`avail_in, s`bitb, s`bitk, s`kk
    reads s`read, s`write, s`hist, s`base, s`out, s`total_out, s`check, s`rest, s`held, s.window
  {
    BitsOK(s) && WindowOK(s) && Due(s) && Pos(s) >= 0
  }

  lemma CodesValidIs(s: State)
    requires s.mode == CODES
    ensures Valid(s) <==> CodesValid(s) && s.cmode != END && (s.cmode == WASH ==> s.out != s.hist)
  {
    hide WindowOK, UnderWay, TreeFor, Go, InSymbol, OneSymbol;
  }

  lemma TypeIs(s: State)
    requires s.mode == TYPE
    ensures Valid(s) <==> Sound(s) && s.bitk < 16 && Block(Str(s), Pos(s), s.hist) == s.rest
  {
    hide WindowOK, Block;
  }

  lemma LensIs(s: State)
    requires s.mode == LENS
    ensures Valid(s) <==> Sound(s) && s.bitk <= 32 && s.bitk % 8 == 0 && Pos(s) % 8 == 0
                          && StoredHeader(Str(s), Pos(s), s.hist, s.last) == s.rest
  {
    hide WindowOK, StoredHeader;
  }

  lemma StoredIs(s: State)
    requires s.mode.STORED?
    ensures Valid(s) <==> Sound(s) && s.bitk == 0 && s.kk == 0 && s.mode.left > 0
                          && Stored(Str(s), s.next_in, s.mode.left, s.hist, s.last) == s.rest
  {
    hide WindowOK, Stored;
  }

  lemma TableIs(s: State)
    requires s.mode == TABLE
    ensures Valid(s) <==> Sound(s) && s.bitk < 16 && Table(Str(s), Pos(s), s.hist, s.last) == s.rest
  {
    hide WindowOK, Table;
  }

  lemma BTreeIs(s: State)
    requires s.mode.BTREE?
    ensures Valid(s) <==>
              && Sound(s) && s.bitk < 16 && BTreeOK(Str(s), s.mark, Pos(s), s.mode.table, s.mode.index, s.blens)
              && CodeLengthCode(Str(s), s.mark, s.hist, s.last, Nl(s.mode.table), Nd(s.mode.table), Nc(s.mode.table))
              == s.rest
  {
    hide WindowOK, CodeLengthCode, BTreeOK;
  }

  lemma DTreeIs(s: State)
    requires s.mode.DTREE?
    ensures Valid(s) <==>
              && Sound(s) && s.bitk < 16 && DTreeOK(s.mode.table, s.mode.index, s.mode.tb, s.blens, s.bl)
              && LengthCodes(Str(s), Pos(s), s.hist, s.last, Nl(s.mode.table), Nd(s.mode.table), s.bl,
                             Known(s.blens, s.mode.index)) == s.rest
  {
    hide WindowOK, LengthCodes, TreeFor;
  }

  /** What CodesCore says, part by part. */
  lemma CodesIs(s: State)
    ensures CodesCore(s) <==>
              && s.mode == CODES && Sound(s) && TreesOK(s.coding, s.last, s.ltree, s.dtree)
              && CodesOK(Str(s), s.cmode, s.mark, Pos(s), s.coding, s.ltree, s.dtree)
              && Partial(Str(s), s.cmode, s.mark, Pos(s), s.hist, s.coding) == s.symbol
              && Go(Str(s), s.symbol, s.hist, s.coding) == s.rest
  {
    hide WindowOK, TreesOK, CodesOK, Partial, Go;
  }

  /** At the start of a block with codes, or of one of its symbols. */
  lemma StartIs(s: State)
    requires s.mode == CODES && s.cmode == START
    ensures CodesValid(s) <==> Sound(s) && s.bitk < 16 && TreesOK(s.coding, s.last, s.ltree, s.dtree)
                               && s.symbol == OneSymbol(Str(s), Pos(s), s.hist, s.coding)
                               && Codes(Str(s), Pos(s), s.hist, s.coding) == s.rest
  {
    hide WindowOK, Codes, TreesOK, OneSymbol;
    if Pos(s) >= 0 {
      CodesIsGo(Str(s), Pos(s), s.hist, s.coding);
    }
  }

  lemma DryIs(s: State)
    requires s.mode == DRY
    ensures Valid(s) <==> Sound(s) && s.bitk < 8 && Complete(s.hist, Pos(s)) == s.rest
  {
    hide WindowOK;
  }

  lemma DoneIs(s: State)
    requires s.mode == DONE
    ensures Valid(s) <==> Sound(s) && s.bitk < 8 && Complete(s.hist, Pos(s)) == s.rest
                          && s.out == s.hist && s.read == s.write
  {
    hide WindowOK;
  }

  lemma BadIs(s: State)
    requires s.mode == BAD
    ensures Valid(s) <==> Sound(s) && Bad(s.hist, 0) == s.rest
  {
    hide WindowOK;
  }

  // ---- What a step does ----

  /** How many bits of the code length code symbol at pos, if it is a repeat, are taken up before anything
      else happens. */
  ghost function RepeatBits(st: Stream, bl: Lengths, pos: int): nat {
    if pos < 0 then 0
    else
      match Decode(bl, At(st, pos))
      case NoSymbol => 0
      case Symbol(v) => if v < |bl| && v >= 16 then bl[v] + RepeatExtra(v) else 0
  }

  /** Before anything is given back, the position gets less than a byte short of Slack bits further, or
      beyond. */
  ghost function Slack(s: State): int
    reads s`next_in, s`bitk, s`mode, s`cmode, s`blens, s`bl
  {
    match s.mode
    case TYPE => 11
    case LENS => 40
    case TABLE => 22
    case DTREE(_, index, _) => if index < |s.blens| then LengthSlack(RepeatBits(Str(s), s.bl, Pos(s))) else 8
    case CODES => CodesSlack(s.cmode)
    case _ => 8
  }

  function LengthSlack(n: nat): nat { if n > 8 then n else 8 }

  function CodesSlack(m: CodesMode): nat {
    match m
    case LENEXT(_, get) => get + 8
    case DISTEXT(_, _, get) => get + 8
    case WASH => 7
    case END => 7
    case _ => 8
  }

  /** What Slack is good for. */
  lemma ModeSafe(s: State)
    ensures Slack(s) == match s.mode
                        case TYPE => 11
                        case LENS => 40
                        case TABLE => 22
                        case CODES => CodesSlack(s.cmode)
                        case DTREE(_, index, _) =>
                          if index < |s.blens| then LengthSlack(RepeatBits(Str(s), s.bl, Pos(s))) else 8
                        case _ => 8
    ensures Safe(s) <==> (Reads(s.mode) ==> s.first <= s.next_in && 8 * s.first <= Pos(s) + Slack(s))
    ensures Spoilt(s) <==> Misses(s) && Reads(s.mode)
    ensures s.avail_in == 0 && (Limit(s) == |s.input| ==> s.rest == Truncated(s.hist)) && s.bitk <= Slack(s)
            ==> Starved(s)
  {
    hide RepeatBits;
  }

  /** What Slack is good for while code lengths are read, or after an error in them. */
  lemma LengthSafe(s: State)
    requires s.mode.DTREE? || s.mode == BAD
    ensures s.mode == BAD ==> Safe(s)
    ensures s.mode.DTREE? ==>
              && Slack(s) == (if s.mode.index < |s.blens| then LengthSlack(RepeatBits(Str(s), s.bl, Pos(s))) else 8)
              && (Safe(s) <==> s.first <= s.next_in && 8 * s.first <= Pos(s) + Slack(s))
              && (Spoilt(s) <==> Misses(s))
              && (s.avail_in == 0 && (Limit(s) == |s.input| ==> s.rest == Truncated(s.hist)) && s.bitk <= Slack(s)
                  ==> Starved(s))
  {
    hide RepeatBits;
  }

  /** What Slack is good for inside a block with codes. */
  lemma CodesSafe(s: State)
    requires s.mode == CODES
    ensures Slack(s) == CodesSlack(s.cmode)
    ensures Safe(s) <==> s.first <= s.next_in && 8 * s.first <= Pos(s) + CodesSlack(s.cmode)
    ensures Spoilt(s) <==> Misses(s)
    ensures s.avail_in == 0 && (Limit(s) == |s.input| ==> s.rest == Truncated(s.hist)) && s.bitk <= CodesSlack(s.cmode)
            ==> Starved(s)
  {
    hide RepeatBits;
  }

  predicate Reads(m: BlockMode) { m != DRY && m != DONE && m != BAD }

  /** The buffer that starts at first will not be left again to the front. */
  ghost predicate Safe(s: State)
    reads s`first, s`next_in, s`bitk, s`mode, s`cmode, s`blens, s`bl
  {
    Reads(s.mode) ==> s.first <= s.next_in && 8 * s.first <= Pos(s) + Slack(s)
  }

  /** The byte that comes next has been lost. */
  predicate Spoilt(s: State)
    reads s`first, s`next_in, s`avail_in, s`mode
  {
    Misses(s) && Reads(s.mode)
  }

  /** What every step leaves alone or only extends. */
  twostate predicate Onward(s: State)
    reads s
  {
    && Limit(s) == old(Limit(s)) && old(s.out) <= s.out && old(s.hist) <= s.hist
    && |s.out| + s.avail_out == |old(s.out)| + old(s.avail_out)
    && Pos(s) >= old(Pos(s)) && s.first == old(s.first) && (old(Safe(s)) ==> Safe(s))
  }

  /** All supplied input is used up; if that was all there is, it is cut short right here, with nothing
      more to come of it.  If more comes in another buffer, nothing of it will be given back beyond its
      beginning. */
  ghost predicate Starved(s: State)
    reads s
  {
    && s.avail_in == 0 && (Limit(s) == |s.input| ==> s.rest == Truncated(s.hist))
    && (Reads(s.mode) ==> s.bitk <= Slack(s))
  }

  /** There is output that avail_out has no room for, and the window has no space for what comes next. */
  ghost predicate Stalled(s: State)
    reads s
  {
    && s.avail_out == 0 && s.out != s.hist && s.window.Length > 0
    && |s.hist| == |s.out| + Capacity(|s.out|, s.window.Length)
    && (s.rest.Bad? ==> |s.hist| < |s.rest.out|)
  }

  /** There is output that avail_out has no room for, and at the end of a block with codes, or of the data,
      all of it must be delivered first. */
  ghost predicate Ending(s: State)
    reads s
  {
    s.avail_out == 0 && s.out != s.hist && (s.rest.Bad? ==> |s.hist| <= s.rest.held)
  }

  /** Why a step may leave to wait: there is no room, or no input, or some of it is lost. */
  ghost predicate Waits(s: State)
    reads s
  {
    Stalled(s) || Ending(s) || Starved(s) || Spoilt(s)
  }

  lemma WaitsFor(s: State)
    ensures Stalled(s) || Ending(s) || Starved(s) || Spoilt(s) ==> Waits(s)
  {
    hide Stalled, Ending, Starved, Spoilt;
  }

  /** Nothing changes that when nothing can be delivered. */
  twostate lemma StillWaits(s: State)
    requires s.first == old(s.first) && s.next_in == old(s.next_in) && s.avail_in == old(s.avail_in)
    requires s.bitk == old(s.bitk)
    requires s.mode == old(s.mode) && s.cmode == old(s.cmode) && s.blens == old(s.blens) && s.bl == old(s.bl)
    requires s.hist == old(s.hist) && s.rest == old(s.rest)
    requires old(s.out) <= s.out && |s.out| + s.avail_out == |old(s.out)| + old(s.avail_out)
    ensures old(Waits(s)) ==> Waits(s)
  {
    hide RepeatBits, Capacity;
  }

  /** What a step says when it returns: r is an error or end only with the matching mode; when it
      leaves to wait it waits for room, or for input, or has lost some; r is still the initial Z_BUF_ERROR
      only if nothing has been consumed or delivered, and has become Z_OK only if something has been, or
      has been decompressed. */
  twostate predicate Reported(s: State, leave: bool, r0: int, r: int)
    reads s
  {
    && (leave && (r == Z_OK || r == Z_BUF_ERROR) ==> Waits(s))
    && (r == Z_BUF_ERROR ==> r0 == Z_BUF_ERROR && s.next_in == old(s.next_in) && s.out == old(s.out))
    && (r == Z_OK && r0 == Z_BUF_ERROR ==> Moved(s)) && (s.next_in < old(s.next_in) ==> Gone(s))
  }

  /** Input has been used, or output delivered. */
  twostate predicate Gone(s: State)
    reads s
  {
    Pos(s) > old(Pos(s)) || |s.out| > |old(s.out)|
  }

  /** Or input has been taken up, or output made. */
  twostate predicate Moved(s: State)
    reads s
  {
    Gone(s) || s.next_in != old(s.next_in) || |s.hist| > |old(s.hist)|
  }
}
