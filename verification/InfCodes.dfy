/** zlib/infcodes.c: inflate_codes, which runs the steps of a block with codes until it must wait. */
module InfCodes {
  import opened InfUtil
  import opened InfState
  import opened InfCodesSteps
  import opened InfFast
  import opened ZLib

  /** With the bits left to read, bounds the number of steps. */
  function Rank(m: CodesMode): nat {
    match m
    case DISTEXT(_, _, _) => 6
    case COPY(_, _) => 5
    case LIT(_) => 5
    case START => 4
    case LEN(_, _) => 3
    case LENEXT(_, _) => 2
    case DIST(_, _, _) => 1
    case WASH => 1
    case END => 0
    case BADCODE => 0
  }

  lemma CodesBounds(s: State)
    requires CodesValid(s)
    ensures s.write <= s.window.Length && s.out <= s.hist && BitsOK(s) && s.mode == CODES && s.avail_in <= |s.input|
  {
    hide TreesOK, CodesOK, InSymbol, Go;
  }

  /** c->mode = r == Z_STREAM_END ? WASH : BADCODE, unless r is Z_OK. */
  method AfterFast(s: State, r: int)
    requires FastOK(s, ModeAfter(r)) && s.bitk < 8 && r in {Z_OK, Z_STREAM_END, Z_DATA_ERROR}
    modifies s`cmode
    ensures CodesValid(s) && s.cmode == ModeAfter(r) && s.out <= s.hist
  {
    hide TreesOK, Go, Partial, WindowOK;
    s.cmode := ModeAfter(r);
    CodesIs(s);
    WindowBounds(s);
  }

  /** A fast run, and what it leaves to do (zlib/infcodes.c:106-120). */
  method RunFast(s: State) returns (r: int)
    requires CodesValid(s) && s.cmode == START && s.write <= s.window.Length && WAvail(s) >= 258 && s.avail_in >= 10
    requires !Misses(s)
    modifies s`next_in, s`avail_in, s`bitb, s`bitk, s`kk, s`mark, s`cmode, s`write, s`hist, s`symbol, s.window
    ensures CodesValid(s) && s.mode == CODES && Pos(s) > old(Pos(s)) && Limit(s) == old(Limit(s))
    ensures r in {Z_OK, Z_STREAM_END, Z_DATA_ERROR} && (if r == Z_OK then s.cmode.LEN? else s.cmode == ModeAfter(r))
    ensures old(s.hist) <= s.hist && s.out <= s.hist && (s.next_in < s.first <==> Pos(s) + 8 <= 8 * s.first)
  {
    hide CodesValid, FastOK, BitsOK;
    r := InflateFast(s);
    AfterFast(s, r);
    if r == Z_OK {
      StepStart(s);
    }
    CodesBounds(s);
  }

  /** START: set up for LEN, after a fast run if there is room for one (zlib/infcodes.c:104-120). */
  method StepFast(s: State, r0: int) returns (leave: bool, r: int)
    requires CodesValid(s) && s.cmode == START && (r0 == Z_OK || r0 == Z_BUF_ERROR)
    modifies s`next_in, s`avail_in, s`bitb, s`bitk, s`kk, s`mark, s`cmode, s`write, s`hist, s`symbol, s.window
    ensures CodesValid(s) && Onward(s) && Reported(s, leave, r0, r)
    ensures || r in {Z_OK, Z_BUF_ERROR}
            || (r == Z_STREAM_END && s.cmode == WASH) || (r == Z_DATA_ERROR && s.cmode == BADCODE)
    ensures leave ==> s.cmode == START && r == r0
    ensures r == Z_STREAM_END ==> |s.input| >= 10
    ensures s.cmode != END
    ensures !leave ==> s.cmode.LEN? || Pos(s) > old(Pos(s))
  {
    hide CodesValid, BitsOK, Safe, Slack, Spoilt, Misses;
    leave, r := false, r0;
    CodesBounds(s);
    CodesSafe(s);
    if WAvail(s) >= 258 && s.avail_in >= 10 {
      if Misses(s) {
        leave := true;
      } else {
        r := RunFast(s);
      }
    } else {
      StepStart(s);
    }
    CodesBounds(s);
    CodesSafe(s);
  }

  /** What r may be between steps: a fast run that ended the block leaves its result in r. */
  predicate ResultFits(m: CodesMode, r: int) {
    match m
    case WASH => r in {Z_OK, Z_BUF_ERROR, Z_STREAM_END}
    case END => r in {Z_OK, Z_BUF_ERROR, Z_STREAM_END}
    case BADCODE => r in {Z_OK, Z_BUF_ERROR, Z_DATA_ERROR}
    case _ => r in {Z_OK, Z_BUF_ERROR}
  }

  /** Only after a fast run the end of a block may be returned with output left. */
  predicate Hasty(s: State, r: int)
    reads s`cmode
  {
    r == Z_STREAM_END && s.cmode == WASH ==> |s.input| >= 10
  }

  /** The end of the block has been read. */
  predicate AtEnd(m: CodesMode) {
    m == WASH || m == END
  }

  /** One pass of the switch (zlib/infcodes.c:102-237). */
  method Step(s: State, r0: int) returns (leave: bool, r: int)
    requires CodesValid(s) && ResultFits(s.cmode, r0) && Hasty(s, r0) && (s.cmode == END ==> s.out == s.hist)
    modifies s`next_in, s`avail_in, s`bitb, s`bitk, s`kk, s`mark, s`cmode, s`read, s`write, s`hist, s`base, s`out,
             s`avail_out, s`total_out, s`check, s`symbol, s.window
    ensures CodesValid(s) && Onward(s) && Reported(s, leave, r0, r) && ResultFits(s.cmode, r)
    ensures Hasty(s, r) && (s.cmode == END ==> s.out == s.hist && (leave ==> r == Z_STREAM_END))
    ensures leave ==>
              (r == Z_STREAM_END ==> s.cmode == WASH || s.cmode == END) && (r == Z_DATA_ERROR ==> s.cmode == BADCODE)
    ensures !leave ==> Pos(s) > old(Pos(s)) || Rank(s.cmode) < old(Rank(s.cmode))
    ensures leave && s.cmode == WASH && r != Z_STREAM_END ==> s.out != s.hist && s.avail_out == 0
    ensures AtEnd(s.cmode) && !old(AtEnd(s.cmode)) ==> Pos(s) > old(Pos(s))
    ensures old(AtEnd(s.cmode)) ==> AtEnd(s.cmode) && (s.cmode == WASH && r0 != Z_STREAM_END ==> r != Z_STREAM_END)
    ensures old(s.cmode == END) ==> s.cmode == END
    ensures r == Z_OK || r == Z_BUF_ERROR ==> r0 == Z_OK || r0 == Z_BUF_ERROR
  {
    hide CodesCore;
    leave := false;
    match s.cmode
    case START => leave, r := StepFast(s, r0);
    case LEN(_, _) => leave, r := StepLen(s, r0);
    case LENEXT(_, _) => leave, r := StepLenExt(s, r0);
    case DIST(_, _, _) => leave, r := StepDist(s, r0);
    case DISTEXT(_, _, _) => leave, r := StepDistExt(s, r0);
    case COPY(_, _) => leave, r := StepCopy(s, r0);
    case LIT(_) => leave, r := StepLit(s, r0);
    case WASH => leave, r := StepWash(s, r0);
    case END => leave, r := true, Z_STREAM_END;
    case BADCODE => leave, r := true, Z_DATA_ERROR;
  }

  /** A run stops at the end of the block only with output left, and goes on there only when some of it has been
      delivered; else it takes input to get there. */
  twostate predicate Closing(s: State, r: int)
    reads s
  {
    && (s.cmode == WASH && r != Z_STREAM_END ==> s.out != s.hist)
    && (r == Z_STREAM_END && old(s.cmode == WASH ==> s.out != s.hist) ==> Gone(s))
  }

  /** The same between two passes of the switch. */
  twostate predicate Nearing(s: State, leave: bool, r: int)
    reads s
  {
    && (leave && s.cmode == WASH && r != Z_STREAM_END ==> s.out != s.hist && s.avail_out == 0)
    && (AtEnd(s.cmode) && !old(AtEnd(s.cmode)) ==> Pos(s) > old(Pos(s)))
    && (old(AtEnd(s.cmode)) ==> AtEnd(s.cmode) && (s.cmode == WASH ==> r != Z_STREAM_END))
  }

  /** What holds when the switch is left. */
  ghost predicate Left(s: State, r: int)
    reads s`cmode, s`out, s`hist
  {
    && ResultFits(s.cmode, r) && Hasty(s, r) && (s.cmode == END ==> s.out == s.hist && r == Z_STREAM_END)
    && (r == Z_STREAM_END ==> AtEnd(s.cmode)) && (r == Z_DATA_ERROR ==> s.cmode == BADCODE)
  }

  /** The switch, until it is left. */
  method RunCodes(s: State, r0: int) returns (r: int)
    requires CodesValid(s) && (r0 == Z_OK || r0 == Z_BUF_ERROR) && s.cmode != END
    modifies s`next_in, s`avail_in, s`bitb, s`bitk, s`kk, s`mark, s`cmode, s`read, s`write, s`hist, s`base, s`out,
             s`avail_out, s`total_out, s`check, s`symbol, s.window
    ensures CodesValid(s) && Onward(s) && Reported(s, true, r0, r) && Left(s, r) && Nearing(s, true, r)
  {
    hide CodesValid, BitsOK, Waits, Safe;
    var leave := false;
    r := r0;
    while !leave
      invariant CodesValid(s) && Onward(s) && ResultFits(s.cmode, r) && Reported(s, leave, r0, r)
      invariant Hasty(s, r) && (s.cmode == END ==> s.out == s.hist) && (leave ==> Left(s, r)) && Nearing(s, leave, r)
      decreases !leave, 8 * Limit(s) - Pos(s), Rank(s.cmode)
    {
      CodesBounds(s);
      LeftNat(s);
      leave, r := Step(s, r);
    }
  }

  /** inflate_codes: run until the block ends, the data is bad, or input or output space is missing. */
  method InflateCodes(s: State, r0: int) returns (r: int)
    requires CodesValid(s) && (r0 == Z_OK || r0 == Z_BUF_ERROR) && s.cmode != END
    modifies s`next_in, s`avail_in, s`bitb, s`bitk, s`kk, s`mark, s`cmode, s`read, s`write, s`hist, s`base, s`out,
             s`avail_out, s`total_out, s`check, s`symbol, s.window
    ensures CodesValid(s) && Onward(s) && ResultFits(s.cmode, r)
    ensures r == Z_STREAM_END ==> s.out == s.hist || |s.input| >= 10
    ensures r != Z_STREAM_END ==> s.cmode != END
    ensures Reported(s, true, r0, r)
    ensures r == Z_STREAM_END ==> s.cmode == WASH || s.cmode == END
    ensures r == Z_DATA_ERROR ==> s.cmode == BADCODE
    ensures s.out == s.hist || s.avail_out == 0
    ensures Closing(s, r)
  {
    hide CodesValid, BitsOK, Waits, Safe;
    CodesBounds(s);
    r := RunCodes(s, r0);
    r := Deliver(s, r);
  }

  /** The supplied bits that are left: the first part of the measure. */
  lemma LeftNat(s: State)
    requires BitsOK(s)
    ensures 8 * Limit(s) - Pos(s) >= 0
  {
  }
}
