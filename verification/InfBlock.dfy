/** zlib/infblock.c: inflate_blocks, which interprets the blocks of a stream up to its end, as far as
    input and output space go. */
module InfBlock {
  import opened Deflate
  import opened InfUtil
  import opened InfState
  import opened InfCodesSteps
  import opened InfCodes
  import opened InfBlockSteps
  import opened InfTreeSteps
  import opened InfLengthSteps
  import opened ZLib

  // ---- The end of a block, and of the stream ----

  /** After the end of block code, more than a byte may be left in the buffer: give the byte back. */
  method ReturnByte(s: State)
    requires BitsOK(s) && 8 * s.first < Pos(s) + 16
    modifies s`next_in, s`avail_in, s`bitk
    ensures BitsOK(s) && Pos(s) == old(Pos(s)) && Limit(s) == old(Limit(s))
    ensures s.bitk == if old(s.bitk) > 7 then old(s.bitk) - 8 else old(s.bitk)
    ensures s.next_in >= old(s.next_in) - 1
  {
    if s.bitk > 7 {
      s.bitk := s.bitk - 8;
      s.avail_in := s.avail_in + 1;
      s.next_in := s.next_in - 1;
    }
  }

  /** At the end of a block with codes, all that is left is the end of the block. */
  lemma EndIs(s: State)
    requires CodesValid(s) && (s.cmode == WASH || s.cmode == END)
    ensures Sound(s) && s.bitk < 16 && 8 * s.first < Pos(s) + 16
    ensures Held(EndBlock(Str(s), Pos(s), s.hist, s.last), |s.hist|) == s.rest && Due(s)
  {
    hide CodesCore, WindowOK, EndBlock, CodesOK, Bits, Due;
    CodesIs(s);
    assert Go(Str(s), s.symbol, s.hist, s.coding) == Held(EndBlock(Str(s), Pos(s), s.hist, s.last), |s.hist|);
  }

  /** After an error the data are bad. */
  lemma BadMeans(s: State)
    requires Valid(s) && (s.mode == BAD || (s.mode == CODES && s.cmode == BADCODE))
    ensures s.goal.Bad? && s.goal.out == s.hist && (|s.input| < 10 ==> s.goal.held <= |s.out|)
  {
    hide Valid, CodesCore, WindowOK, CodesOK, TreesOK, BitsOK, Codes, EndBlock, OneSymbol, LengthExtra, Distance,
      DistanceExtra, CopyMatch;
    if s.mode == BAD {
      BadIs(s);
    } else {
      CodesValidIs(s);
      CodesIs(s);
    }
  }

  /** The codes are done: on to the next block, or to the end (zlib/infblock.c:351-363). */
  method FinishCodes(s: State)
    requires CodesValid(s) && (s.cmode == WASH || s.cmode == END) && (s.out == s.hist || |s.input| >= 10)
    modifies s`next_in, s`avail_in, s`bitk, s`mode, s`rest, s`held
    ensures Valid(s) && s.mode == (if s.last then DRY else TYPE)
    ensures Pos(s) == old(Pos(s)) && Limit(s) == old(Limit(s))
  {
    hide CodesValid, EndBlock, Valid, WindowOK;
    EndIs(s);
    s.rest, s.held := EndBlock(Str(s), Pos(s), s.hist, s.last), if |s.hist| > s.held then |s.hist| else s.held;
    if s.last {
      ReturnByte(s);
    }
    EnterNext(s);
  }

  /** CODES: run inflate_codes (zlib/infblock.c:339-363). */
  method StepCodes(s: State, r0: int) returns (leave: bool, r: int)
    requires Valid(s) && s.mode == CODES && (r0 == Z_OK || r0 == Z_BUF_ERROR)
    modifies s
    modifies s.window
    ensures Valid(s) && Onward(s) && Reported(s, leave, r0, r)
    ensures leave ==> r == Z_OK || r == Z_BUF_ERROR || (r == Z_DATA_ERROR && s.mode == CODES && s.cmode == BADCODE)
    ensures !leave ==> r == Z_OK && s.mode == (if s.last then DRY else TYPE)
    ensures leave ==> s.out == s.hist || s.avail_out == 0
  {
    hide Valid, CodesValid;
    CodesValidIs(s);
    r := InflateCodes(s, r0);
    CodesValidIs(s);
    leave := r != Z_STREAM_END;
    if !leave {
      FinishCodes(s);
      r := Z_OK;
    }
  }

  /** DRY: everything must be delivered before the end is reported (zlib/infblock.c:364-368). */
  method StepDry(s: State, r0: int) returns (leave: bool, r: int)
    requires Valid(s) && s.mode == DRY && (r0 == Z_OK || r0 == Z_BUF_ERROR)
    modifies s`read, s`write, s`base, s`out, s`avail_out, s`total_out, s`check, s`mode
    ensures Valid(s) && Onward(s) && Reported(s, leave, r0, r) && (r == Z_OK || r == Z_BUF_ERROR)
    ensures s.mode == if leave then DRY else DONE
  {
    hide WindowOK, Valid;
    DryIs(s);
    r := Flush(s, r0);
    WindowBounds(s);
    if s.read != s.write {
      DryIs(s);
      return true, r;
    }
    s.mode := DONE;
    DoneIs(s);
    leave := false;
  }

  // ---- inflate_blocks ----

  /** With the bits left to read, bounds the number of steps. */
  function Rank(m: BlockMode): nat {
    match m
    case BTREE(_, _) => 5
    case DTREE(_, _, _) => 4
    case CODES => 3
    case TYPE => 2
    case DRY => 1
    case _ => 0
  }

  /** Why inflate_blocks returns r. */
  predicate Verdict(mode: BlockMode, cmode: CodesMode, r: int) {
    || r == Z_OK || r == Z_BUF_ERROR
    || (r == Z_STREAM_END && mode == DONE)
    || (r == Z_DATA_ERROR && (mode == BAD || (mode == CODES && cmode == BADCODE)))
  }

  /** One pass of the switch (zlib/infblock.c:133-378). */
  method Step(s: State, r0: int) returns (leave: bool, r: int)
    requires Valid(s) && (r0 == Z_OK || r0 == Z_BUF_ERROR)
    modifies s
    modifies s.window
    ensures Valid(s) && Onward(s) && Reported(s, leave, r0, r) && Verdict(s.mode, s.cmode, r)
    ensures !leave ==> r == Z_OK || r == Z_BUF_ERROR
    ensures !leave ==> Pos(s) > old(Pos(s)) || Rank(s.mode) < old(Rank(s.mode))
    ensures leave && s.mode == CODES && s.cmode == WASH ==> s.out == s.hist || s.avail_out == 0
  {
    hide Valid;
    match s.mode
    case TYPE => leave, r := StepType(s, r0);
    case LENS => leave, r := StepLens(s, r0);
    case STORED(_) => leave, r := StepStored(s, r0);
    case TABLE => leave, r := StepTable(s, r0);
    case BTREE(_, _) => leave, r := StepBTree(s, r0);
    case DTREE(_, _, _) => leave, r := StepDTree(s, r0);
    case CODES => leave, r := StepCodes(s, r0);
    case DRY => leave, r := StepDry(s, r0);
    case DONE => leave, r := true, Z_STREAM_END;
    case BAD => leave, r := true, Z_DATA_ERROR;
  }

  /** LEAVE: deliver what can be delivered. */
  method Leave(s: State, r0: int) returns (r: int)
    requires Valid(s) && (s.mode == CODES && s.cmode == WASH ==> s.out == s.hist || s.avail_out == 0)
    modifies s`read, s`write, s`base, s`out, s`avail_out, s`total_out, s`check
    ensures Valid(s) && old(s.out) <= s.out && |s.out| + s.avail_out == |old(s.out)| + old(s.avail_out)
    ensures (s.out == s.hist || s.avail_out == 0) && (old(Waits(s)) ==> Waits(s)) && (old(Safe(s)) ==> Safe(s))
    ensures r == if |s.out| > |old(s.out)| && r0 == Z_BUF_ERROR then Z_OK else r0
  {
    hide WindowOK, BitsOK, BufferOK, ModeOK, Meaning, Waits, Safe;
    WindowBounds(s);
    r := Flush(s, r0);
    WindowBounds(s);
    StillWaits(s);
  }

  lemma Supplied(s: State)
    requires Valid(s)
    ensures 8 * Limit(s) - Pos(s) >= 0
  {
    hide WindowOK, ModeOK, BufferOK, Meaning;
  }

  /** inflate_blocks. */
  method InflateBlocks(s: State, r0: int) returns (r: int)
    requires Valid(s) && (r0 == Z_OK || r0 == Z_BUF_ERROR)
    modifies s
    modifies s.window
    ensures Valid(s) && Onward(s) && Reported(s, true, r0, r) && Verdict(s.mode, s.cmode, r)
    ensures s.out == s.hist || s.avail_out == 0
  {
    hide Valid, Waits, Safe;
    var leave := false;
    r := r0;
    while !leave
      invariant Valid(s) && Onward(s) && Reported(s, leave, r0, r) && Verdict(s.mode, s.cmode, r)
      invariant !leave ==> r == Z_OK || r == Z_BUF_ERROR
      invariant leave && s.mode == CODES && s.cmode == WASH ==> s.out == s.hist || s.avail_out == 0
      decreases !leave, 8 * Limit(s) - Pos(s), Rank(s.mode)
    {
      Supplied(s);
      leave, r := Step(s, r);
    }
    r := Leave(s, r);
  }
}
