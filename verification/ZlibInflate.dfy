/** zlib/inflate.c: inflate, which unwraps a stream, decompresses its blocks and checks the sum. */
module ZlibInflate {
  import opened BitMath
  import opened Words
  import opened Deflate
  import opened InfUtil
  import InfState
  import opened InfBlockSteps
  import InfBlock
  import opened InfSafety
  import opened ZlibFormat
  import opened ZLib
  import opened Adler32

  /** The mode of internal_state, with the part of the union sub that goes with each mode. */
  datatype InflateMode =
    | METHOD | FLAG(cmf: nat) | DICT4 | DICT3(need: nat) | DICT2(need: nat) | DICT1(need: nat) | DICT0(id: nat)
    | BLOCKS
    | CHECK4(was: nat) | CHECK3(was: nat, need: nat) | CHECK2(was: nat, need: nat) | CHECK1(was: nat, need: nat)
    | DONE | BAD(marker: nat)

  /** internal_state; z stands for both the z_stream and the blocks. */
  class Inflater {
    const z: State
    const wbits: nat
    var mode: InflateMode
    ghost const goal: Contents   // what the stream holds, as far as a decoder by tables gets

    /** inflateInit2_: a negative w means no wrapper.  next_in is at next, and the stream will start
        at start. */
    constructor (input: seq<byte>, next: nat, ghost start: nat, w: int, front: byte)
      requires next <= start <= |input| && (8 <= w <= 15 || 8 <= -w <= 15)
      requires Unwrapped(input, start, if w < 0 then -w else w, w < 0, true) != Unspecified
      ensures Fresh(z) && fresh(z) && fresh(z.window)
      ensures z.input == input && z.nowrap == (w < 0) && wbits == (if w < 0 then -w else w)
      ensures z.front == front && z.first == 0 && z.next_in == next && z.avail_in == 0 && z.avail_out == 0
      ensures mode == (if w < 0 then BLOCKS else METHOD)
      ensures Ready(this, start)
    {
      hide Block, P2;
      var nowrap := w < 0;
      var n := if w < 0 then -w else w;
      wbits := n;
      z := new State(input, next, if nowrap then start else start + 2, P2(n), nowrap, front);
      mode := if nowrap then BLOCKS else METHOD;
      goal := Unwrapped(input, start, n, nowrap, true);
    }
  }

  /** What the stream that starts at start should decompress to. */
  ghost predicate Ready(i: Inflater, start: nat)
    reads i
  {
    && i.goal == Unwrapped(i.z.input, start, i.wbits, i.z.nowrap, true) && i.goal != Unspecified
    && i.z.window.Length == P2(i.wbits)
    && i.z.goal == Block(Str(i.z), 8 * (if i.z.nowrap then start else start + 2), [])
  }

  /** Once next_in is at the start of the stream, decompression can begin. */
  lemma Begin(i: Inflater)
    requires !i.z.nowrap ==> i.z.first == 0
    requires Fresh(i.z) && Ready(i, i.z.next_in) && i.mode == if i.z.nowrap then BLOCKS else METHOD
    ensures Valid(i)
  {
    hide Block, P2, WindowOK, Zlib;
    if i.z.nowrap {
      FirstBlock(i.z);
    }
  }

  function WindowBits(w: int): nat { if w < 0 then -w else w }

  /** inflateInit2_: a window of 2^8 to 2^15 bytes, or Z_STREAM_ERROR. */
  method InflateInit2(input: seq<byte>, start: nat, w: int) returns (r: int, i: Inflater?)
    requires start <= |input|
    requires 8 <= WindowBits(w) <= 15 ==> Unwrapped(input, start, WindowBits(w), w < 0, true) != Unspecified
    ensures r == if 8 <= WindowBits(w) <= 15 then Z_OK else Z_STREAM_ERROR
    ensures i == null <==> r != Z_OK
    ensures i != null ==> fresh(i) && fresh(i.z) && fresh(i.z.window) && Valid(i)
    ensures i != null ==>
              && i.z.input == input && i.z.first == 0 && i.z.next_in == start
              && i.z.avail_in == i.z.avail_out == 0 && i.z.out == []
    ensures i != null ==> i.z.nowrap == (w < 0) && i.goal == Unwrapped(input, start, WindowBits(w), w < 0, true)
    ensures i != null ==> i.z.window.Length == P2(WindowBits(w))
    ensures i != null ==> i.mode == if w < 0 then BLOCKS else METHOD
  {
    hide Unwrapped, WindowOK, BitsOK, Valid, P2;
    if WindowBits(w) < 8 || WindowBits(w) > 15 {
      return Z_STREAM_ERROR, null;
    }
    i := new Inflater(input, start, start, w, 0);
    Begin(i);
    r := Z_OK;
  }

  /** Nothing decompressed yet. */
  ghost predicate Fresh(z: State)
    reads z, z.window
  {
    && BitsOK(z) && WindowOK(z) && z.bitk == 0 && z.kk == 0 && z.hist == [] && z.out == []
    && z.rest == z.goal && z.held == 0
    && z.mode == BlockMode.TYPE
  }

  lemma FirstBlock(z: State)
    requires Fresh(z) && z.goal == Block(Str(z), 8 * z.next_in, []) && z.goal != Undefined
    ensures InfState.Valid(z)
  {
    hide Block;
    InfState.TypeIs(z);
  }

  /** The blocks are done: from byte e on, what is left is the check value, need being its bytes so far. */
  ghost predicate Checking(i: Inflater, was: nat, k: nat, need: nat)
    reads i.z
  {
    var z := i.z;
    && BitsOK(z) && z.bitk == 0 && z.kk == 0 && z.goal.Complete?
    && i.goal == Checked(z.input, z.goal) && z.out == z.goal.out && was == Adler(1, z.out)
    && var e := ByteAfter(z.goal.end);
       k <= 4 && z.next_in == e + k && need == Front(z.input, e, k)
  }

  /** The first k bytes at p as the high bytes of a word. */
  function Front(data: seq<byte>, p: nat, k: nat): nat
    requires p + k <= |data| && k <= 4
  {
    (if k > 0 then data[p] as nat * 0x100_0000 else 0) + (if k > 1 then data[p + 1] as nat * 0x1_0000 else 0)
    + (if k > 2 then data[p + 2] as nat * 0x100 else 0) + (if k > 3 then data[p + 3] else 0)
  }

  // ---- The invariant ----

  /** The header starts at byte start. */
  ghost predicate Expecting(i: Inflater, start: nat)
    reads i.z, i.z.window
  {
    && Fresh(i.z) && !i.z.nowrap && i.goal == Zlib(i.z.input, start, i.wbits, true)
    && i.z.goal == Block(Str(i.z), 8 * (start + 2), [])
  }

  /** A dictionary is needed before anything can be decompressed; need is what k bytes of its identifier
      come to, which have been read. */
  ghost predicate Stuck(i: Inflater, k: nat, need: nat)
    reads i.z
  {
    && BitsOK(i.z) && i.z.bitk == 0 && i.z.kk == 0 && i.z.out == []
    && k <= 4 && k <= i.z.next_in <= |i.z.input| && need == Front(i.z.input, i.z.next_in - k, k)
    && i.goal == if i.z.next_in + (4 - k) > |i.z.input| then Short([]) else NeedsDictionary
  }

  /** Marker 0: the blocks are bad, or there is no dictionary, and inflateSync can be tried.  Marker 5: the
      header or the check value is wrong. */
  ghost predicate Blamed(i: Inflater, marker: nat)
    reads i.z
  {
    || (marker == 0 && (i.z.goal.Bad? || i.goal.NeedsDictionary?))
    || (marker == 5 && (i.z.goal.Complete? || i.goal == Corrupt([], 0)))
  }

  ghost predicate Unwrapping(i: Inflater)
    reads i.z, i.z.window
  {
    InfState.Valid(i.z) && i.goal == if i.z.nowrap then Raw(i.z.goal) else Checked(i.z.input, i.z.goal)
  }

  ghost predicate ModeOK(i: Inflater)
    reads i, i.z, i.z.window
  {
    match i.mode
    case METHOD => Expecting(i, i.z.next_in)
    case FLAG(cmf) =>
      && i.z.next_in >= 1 && Expecting(i, i.z.next_in - 1) && i.z.next_in <= |i.z.input|
      && cmf == i.z.input[i.z.next_in - 1] && cmf % 16 == 8 && cmf / 16 + 8 <= i.wbits
    case BLOCKS => Unwrapping(i)
    case CHECK4(was) => Checking(i, was, 0, 0)
    case CHECK3(was, need) => Checking(i, was, 1, need)
    case CHECK2(was, need) => Checking(i, was, 2, need)
    case CHECK1(was, need) => Checking(i, was, 3, need)
    case DONE => i.goal == Done(i.z.out, i.z.next_in)
    case BAD(m) =>
      && ((i.goal.Corrupt? && i.z.out <= i.goal.out) || (i.goal.NeedsDictionary? && i.z.out == []))
      && Blamed(i, m)
    case DICT4 => Stuck(i, 0, 0)
    case DICT3(need) => Stuck(i, 1, need)
    case DICT2(need) => Stuck(i, 2, need)
    case DICT1(need) => Stuck(i, 3, need)
    case DICT0(id) => Stuck(i, 4, id)
  }

  /** Carrying on from here gives what the stream holds. */
  ghost predicate Valid(i: Inflater)
    reads i, i.z, i.z.window
  {
    && i.goal != Unspecified && i.z.window.Length == P2(i.wbits) && Limit(i.z) <= |i.z.input| && ModeOK(i)
    && (!i.z.nowrap ==> i.z.first == 0)
  }

  // ---- What a call reports ----

  twostate predicate Onward(i: Inflater)
    reads i, i.z
  {
    && Limit(i.z) == old(Limit(i.z)) && old(i.z.out) <= i.z.out
    && |i.z.out| + i.z.avail_out == |old(i.z.out)| + old(i.z.avail_out)
    && i.z.first == old(i.z.first)
    && (i.mode == BLOCKS && old(i.mode == BLOCKS && InfState.Safe(i.z)) ==> InfState.Safe(i.z))
  }

  /** All that there is to deliver has been delivered, or there is no room left. */
  ghost predicate Drained(i: Inflater)
    reads i.z
  {
    i.z.avail_out == 0 || i.z.out == Output(i.goal)
  }

  /** All supplied input is used up; if that was all there is, the stream is cut short and what can be
      had of it has been delivered as far as there was room. */
  ghost predicate Hungry(i: Inflater)
    reads i, i.z
  {
    && i.z.avail_in == 0 && (Limit(i.z) == |i.z.input| ==> i.goal.Short? && Drained(i))
    && (i.mode == BLOCKS && InfState.Reads(i.z.mode) ==> i.z.bitk <= InfState.Slack(i.z))
  }

  /** The byte that comes next has been lost with an input buffer that was reused. */
  predicate Spoilt(i: Inflater)
    reads i, i.z
  {
    i.mode == BLOCKS && InfState.Spoilt(i.z)
  }

  /** There is output that avail_out has no room for.  If the stream is corrupt, the window cannot hold all
      that comes before the error, or not all has been delivered that may have to be. */
  ghost predicate Full(i: Inflater)
    reads i.z
  {
    && i.z.avail_out == 0 && |i.z.out| < |Output(i.goal)| && i.z.window.Length > 0
    && (i.goal.Corrupt? ==>
          |i.goal.out| > |i.z.out| + Capacity(|i.z.out|, i.z.window.Length) || i.goal.held > |i.z.out|)
  }

  /** What is still undelivered when an error is found fits in the window; and without a fast run what may
      have to be delivered before has been. */
  ghost predicate Fits(i: Inflater)
    reads i.z
  {
    i.goal.Corrupt? ==>
      && i.z.window.Length > 0 && |i.goal.out| <= |i.z.out| + Capacity(|i.z.out|, i.z.window.Length)
      && (|i.z.input| < 10 ==> i.goal.held <= |i.z.out|)
  }

  /** What can be said when inflate leaves with r, or goes on.  It waits only for room or for input, if
      none of it was lost;
      what has been decompressed so far is delivered as far as there is room; Z_BUF_ERROR means that
      nothing was consumed or delivered, and Z_OK that something was, or was decompressed. */
  twostate predicate Reported(i: Inflater, leave: bool, r0: int, r: int)
    reads i, i.z
  {
    && (leave && (r == Z_OK || r == Z_BUF_ERROR) ==> Full(i) || Hungry(i) || Spoilt(i))
    && (leave && i.mode == BLOCKS ==> i.z.out == i.z.hist || i.z.avail_out == 0)
    && (i.mode.BAD? && !old(i.mode.BAD?) ==> Drained(i) && Fits(i))
    && (r == Z_BUF_ERROR ==> r0 == Z_BUF_ERROR && i.z.next_in == old(i.z.next_in) && i.z.out == old(i.z.out))
    && (r == Z_OK && r0 == Z_BUF_ERROR ==> Rank(i.mode) < old(Rank(i.mode)) || InfState.Moved(i.z))
  }

  /** Why inflate returns r. */
  predicate Verdict(mode: InflateMode, goal: Contents, r: int) {
    || r == Z_OK || r == Z_BUF_ERROR
    || (r == Z_STREAM_END && mode.DONE?)
    || (r == Z_DATA_ERROR && mode.BAD?)
    || (r == Z_NEED_DICT && mode.DICT0?)
    || (r == Z_STREAM_ERROR && mode.BAD? && goal.NeedsDictionary?)
  }

  // ---- Steps ----

  /** NEXTBYTE */
  method InByte(z: State) returns (b: byte)
    requires BitsOK(z) && z.bitk == 0 && z.kk == 0 && z.avail_in > 0
    modifies z`next_in, z`avail_in
    ensures BitsOK(z) && z.next_in == old(z.next_in) + 1 && Limit(z) == old(Limit(z))
    ensures b == z.input[z.next_in - 1]
  {
    b := z.input[z.next_in];
    PassOver(z, 1);
  }

  /** inflate_blocks_reset: back to an empty window and buffer; the check value is handed out. */
  method ResetBlocks(z: State) returns (was: nat)
    requires BitsOK(z)
    modifies z`mode, z`bitb, z`bitk, z`kk, z`read, z`write, z`check, z`hist, z`base
    ensures (z.first <= z.next_in ==> BitsOK(z)) && z.bitk == 0 && z.kk == 0 && was == old(z.check)
  {
    was := z.check;
    z.mode := BlockMode.TYPE;
    EmptyBuffer(z);
    z.read, z.write, z.check := 0, 0, 1;
    z.hist, z.base := [], 0;
  }

  lemma HeaderIs(data: seq<byte>, start: nat, wbits: nat, goal: Contents)
    requires goal == Zlib(data, start, wbits, true) && goal != Unspecified
    ensures start < |data| || goal == Short([])
    ensures start < |data| ==>
              if data[start] % 16 != 8 || data[start] / 16 + 8 > wbits then goal == Corrupt([], 0)
              else if start + 1 >= |data| then goal == Short([])
              else if (data[start] as nat * 256 + data[start + 1]) % 31 != 0 then goal == Corrupt([], 0)
              else if data[start + 1] / 32 % 2 == 1 then
                goal == (if start + 6 > |data| then Short([]) else NeedsDictionary)
              else goal == Checked(data, Block(Stream(data, P2(wbits), true), 8 * (start + 2), []))
  {
    hide Block, P2, Checked;
  }

  /** METHOD: waiting for method byte (zlib/inflate.c:164-180). */
  method StepMethod(i: Inflater, r0: int) returns (leave: bool, r: int)
    requires Valid(i) && i.mode == METHOD
    modifies i`mode, i.z`next_in, i.z`avail_in
    ensures Valid(i) && Onward(i) && Reported(i, leave, r0, r) && (r == Z_OK || r == r0)
    ensures leave || i.mode.FLAG? || i.mode.BAD?
    ensures i.mode.BAD? ==> i.goal.Corrupt? && i.mode.marker == 5
    ensures leave ==> i.mode == METHOD
  {
    hide Block, P2, WindowOK, Zlib, Checked;
    HeaderIs(i.z.input, i.z.next_in, i.wbits, i.goal);
    if i.z.avail_in == 0 {
      return true, r0;
    }
    var cmf := InByte(i.z);
    if cmf % 16 != 8 || cmf / 16 + 8 > i.wbits {
      i.mode := InflateMode.BAD(5);
    } else {
      i.mode := FLAG(cmf);
    }
    return false, Z_OK;
  }

  lemma CheckedDefined(data: seq<byte>, o: Outcome)
    requires Checked(data, o) != Unspecified
    ensures o != Undefined
  {
  }

  /** The header is whole. */
  method EnterBlocks(i: Inflater)
    requires Fresh(i.z) && !i.z.nowrap && i.z.first == 0 && i.z.window.Length == P2(i.wbits) && i.goal != Unspecified
    requires i.z.goal == Block(Str(i.z), 8 * i.z.next_in, []) && i.goal == Checked(i.z.input, i.z.goal)
    modifies i`mode
    ensures Valid(i) && i.mode == BLOCKS
  {
    hide Block, P2, WindowOK, Checked;
    CheckedDefined(i.z.input, i.z.goal);
    FirstBlock(i.z);
    i.mode := BLOCKS;
  }

  /** The flag byte has come in (zlib/inflate.c:183-198). */
  method TakeFlag(i: Inflater)
    requires Valid(i) && i.mode.FLAG? && i.z.avail_in > 0
    modifies i`mode, i.z`next_in, i.z`avail_in
    ensures Valid(i) && Limit(i.z) == old(Limit(i.z)) && (i.mode == BLOCKS || i.mode.BAD? || i.mode == DICT4)
    ensures (i.mode == BLOCKS ==> i.z.out == i.z.hist) && (i.mode.BAD? ==> Drained(i) && Fits(i))
    ensures i.mode.BAD? ==> i.goal.Corrupt? && i.mode.marker == 5
  {
    hide Block, P2, WindowOK, Zlib, Checked, Unwrapping, Checking;
    HeaderIs(i.z.input, i.z.next_in - 1, i.wbits, i.goal);
    var b := InByte(i.z);
    if (i.mode.cmf * 256 + b) % 31 != 0 {
      i.mode := InflateMode.BAD(5);
    } else if b / 32 % 2 == 0 {
      EnterBlocks(i);
    } else {
      i.mode := DICT4;
    }
  }

  lemma FlagHungry(i: Inflater)
    requires Valid(i) && i.mode.FLAG? && i.z.avail_in == 0
    ensures Hungry(i)
  {
    hide Block, P2, WindowOK, Zlib, Checked;
    HeaderIs(i.z.input, i.z.next_in - 1, i.wbits, i.goal);
  }

  /** FLAG: waiting for flag byte (zlib/inflate.c:181-198). */
  method StepFlag(i: Inflater, r0: int) returns (leave: bool, r: int)
    requires Valid(i) && i.mode.FLAG?
    modifies i`mode, i.z`next_in, i.z`avail_in
    ensures Valid(i) && Onward(i) && Reported(i, leave, r0, r) && (r == Z_OK || r == r0)
    ensures leave || i.mode == BLOCKS || i.mode.BAD? || i.mode == DICT4
    ensures leave ==> i.mode.FLAG?
    ensures i.mode.BAD? ==> i.goal.Corrupt? && i.mode.marker == 5
  {
    hide Valid;
    if i.z.avail_in == 0 {
      FlagHungry(i);
      return true, r0;
    }
    TakeFlag(i);
    return false, Z_OK;
  }

  // ---- The dictionary identifier ----

  /** A byte of the identifier has come in (zlib/inflate.c:198-215). */
  method TakeId(i: Inflater)
    requires Valid(i) && (i.mode == DICT4 || i.mode.DICT3? || i.mode.DICT2? || i.mode.DICT1?) && i.z.avail_in > 0
    modifies i`mode, i.z`next_in, i.z`avail_in
    ensures Valid(i) && Limit(i.z) == old(Limit(i.z)) && Rank(i.mode) == old(Rank(i.mode)) - 1
    ensures i.mode.DICT0? ==> i.goal.NeedsDictionary?
  {
    hide WindowOK, P2, BitsOK, Expecting, Unwrapping, Checking;
    var b := InByte(i.z);
    match i.mode
    case DICT4 => i.mode := DICT3(b as nat * 0x100_0000);
    case DICT3(need) => i.mode := DICT2(need + b as nat * 0x1_0000);
    case DICT2(need) => i.mode := DICT1(need + b as nat * 0x100);
    case DICT1(need) => i.mode := DICT0(need + b);          // z->adler
  }

  /** There is no dictionary (zlib/inflate.c:216-220). */
  method NoDictionary(i: Inflater)
    requires Valid(i) && i.mode.DICT0?
    modifies i`mode
    ensures Valid(i) && i.mode == InflateMode.BAD(0) && i.goal.NeedsDictionary? && Drained(i) && Fits(i)
  {
    hide WindowOK, P2, BitsOK, Expecting, Unwrapping, Checking;
    i.mode := InflateMode.BAD(0);
  }

  lemma IdHungry(i: Inflater)
    requires Valid(i) && (i.mode == DICT4 || i.mode.DICT3? || i.mode.DICT2? || i.mode.DICT1?) && i.z.avail_in == 0
    ensures Hungry(i)
  {
    hide WindowOK, P2, BitsOK, Expecting, Unwrapping, Checking;
  }

  /** DICT4 to DICT0 (zlib/inflate.c:198-220). */
  method StepDict(i: Inflater, r0: int) returns (leave: bool, r: int)
    requires Valid(i) && (i.mode == DICT4 || i.mode.DICT3? || i.mode.DICT2? || i.mode.DICT1? || i.mode.DICT0?)
    modifies i`mode, i.z`next_in, i.z`avail_in
    ensures Valid(i) && Onward(i) && Reported(i, leave, r0, r)
    ensures r == Z_OK || r == r0 || (leave && Verdict(i.mode, i.goal, r))
    ensures Rank(i.mode) <= old(Rank(i.mode)) && (!leave ==> Rank(i.mode) < old(Rank(i.mode)))
    ensures i.mode.BAD? ==> !i.goal.Corrupt?
    ensures i.mode.DICT0? ==> leave && r == Z_NEED_DICT
    ensures if old(i.mode.DICT0?) then leave && r == Z_STREAM_ERROR && i.mode == InflateMode.BAD(0) else !i.mode.BAD?
  {
    hide Valid;
    if i.mode.DICT0? {
      NoDictionary(i);
      return true, Z_STREAM_ERROR;
    }
    if i.z.avail_in == 0 {
      IdHungry(i);
      return true, r0;
    }
    TakeId(i);
    if i.mode.DICT0? {
      return true, Z_NEED_DICT;
    }
    return false, Z_OK;
  }

  // ---- The check value ----

  lemma CheckedIs(data: seq<byte>, o: Outcome)
    requires o.Complete?
    ensures var e := ByteAfter(o.end);
            Checked(data, o) ==
            if e + 4 > |data| then Short(o.out)
            else if Front(data, e, 4) == Adler(1, o.out) then Done(o.out, e + 4)
            else Corrupt(o.out, |o.out|)
  {
    hide Adler;
  }

  /** A byte of the check value has come in (zlib/inflate.c:239-263). */
  method TakeCheck(i: Inflater)
    requires Valid(i) && (i.mode.CHECK4? || i.mode.CHECK3? || i.mode.CHECK2? || i.mode.CHECK1?) && i.z.avail_in > 0
    modifies i`mode, i.z`next_in, i.z`avail_in
    ensures Valid(i) && Limit(i.z) == old(Limit(i.z)) && Rank(i.mode) < old(Rank(i.mode))
    ensures i.mode != BLOCKS && (i.mode.BAD? ==> Drained(i) && Fits(i))
    ensures i.mode.BAD? ==> i.goal.Corrupt? && i.mode.marker == 5
  {
    hide WindowOK, P2, Adler, Checked, BitsOK, Expecting, Stuck, Unwrapping, ByteAfter;
    CheckedIs(i.z.input, i.z.goal);
    var b := InByte(i.z);
    match i.mode
    case CHECK4(was) => i.mode := CHECK3(was, b as nat * 0x100_0000);
    case CHECK3(was, need) => i.mode := CHECK2(was, need + b as nat * 0x1_0000);
    case CHECK2(was, need) => i.mode := CHECK1(was, need + b as nat * 0x100);
    case CHECK1(was, need) => i.mode := if was != need + b then InflateMode.BAD(5) else InflateMode.DONE;
  }

  lemma CheckHungry(i: Inflater)
    requires Valid(i) && (i.mode.CHECK4? || i.mode.CHECK3? || i.mode.CHECK2? || i.mode.CHECK1?) && i.z.avail_in == 0
    ensures Hungry(i)
  {
    hide WindowOK, P2, Adler, Checked;
    CheckedIs(i.z.input, i.z.goal);
  }

  /** CHECK4 to CHECK1 (zlib/inflate.c:239-263). */
  method StepCheck(i: Inflater, r0: int) returns (leave: bool, r: int)
    requires Valid(i) && (i.mode.CHECK4? || i.mode.CHECK3? || i.mode.CHECK2? || i.mode.CHECK1?)
    modifies i`mode, i.z`next_in, i.z`avail_in
    ensures Valid(i) && Onward(i) && Reported(i, leave, r0, r) && (r == Z_OK || r == r0)
    ensures leave ==> i.mode == old(i.mode)
    ensures !leave ==> Rank(i.mode) < old(Rank(i.mode))
    ensures i.mode.BAD? ==> i.goal.Corrupt? && i.mode.marker == 5
  {
    hide Valid;
    if i.z.avail_in == 0 {
      CheckHungry(i);
      return true, r0;
    }
    TakeCheck(i);
    return false, Z_OK;
  }

  // ---- inflate ----

  /** Bounds the number of steps. */
  function Rank(m: InflateMode): nat {
    match m
    case METHOD => 13
    case FLAG(_) => 12
    case DICT4 => 11
    case DICT3(_) => 10
    case DICT2(_) => 9
    case DICT1(_) => 8
    case DICT0(_) => 7
    case BLOCKS => 6
    case CHECK4(_) => 5
    case CHECK3(_, _) => 4
    case CHECK2(_, _) => 3
    case CHECK1(_, _) => 2
    case DONE => 1
    case BAD(_) => 0
  }

  lemma BlocksIs(i: Inflater)
    requires i.mode == BLOCKS
    ensures Valid(i) <==> i.goal != Unspecified && i.z.window.Length == P2(i.wbits) && Unwrapping(i)
                          && (!i.z.nowrap ==> i.z.first == 0)
  {
    hide P2, WindowOK, InfState.ModeOK, InfState.BufferOK, InfState.Meaning;
  }

  /** What blocks that wait for room or for input mean for the whole stream. */
  lemma BlocksWait(i: Inflater)
    requires Unwrapping(i)
    requires InfState.Stalled(i.z) || InfState.Ending(i.z) || InfState.Starved(i.z) || InfState.Spoilt(i.z)
    requires i.mode == BLOCKS && (i.z.out == i.z.hist || i.z.avail_out == 0)
    ensures Full(i) || Hungry(i) || Spoilt(i)
  {
    hide WindowOK, InfState.Valid, Adler, Word;
    NeverWrong(i.z);
    if i.z.out != i.z.hist {
      assert i.z.out == i.z.hist[..|i.z.out|];
    }
  }

  /** The blocks are bad: so is the stream, and what was delivered belongs to it. */
  method EnterBadBlocks(i: Inflater)
    requires !i.z.nowrap ==> i.z.first == 0
    requires |i.z.input| < 10 && i.z.goal.Bad? ==> i.z.goal.held <= |i.z.out|
    requires Unwrapping(i) && i.z.goal.Bad? && i.z.goal.out == i.z.hist && i.goal != Unspecified
    requires i.z.window.Length == P2(i.wbits)
    requires i.z.out == i.z.hist || i.z.avail_out == 0
    modifies i`mode
    ensures Valid(i) && i.mode == InflateMode.BAD(0) && i.goal.Corrupt? && Drained(i) && Fits(i)
  {
    hide WindowOK, InfState.ModeOK, InfState.BufferOK, InfState.Meaning, P2;
    NeverWrong(i.z);
    Waiting(i.z);
    i.mode := InflateMode.BAD(0);
  }

  /** The blocks have ended (zlib/inflate.c:231-238). */
  method FinishBlocks(i: Inflater)
    requires i.mode == BLOCKS && Valid(i) && i.z.mode == BlockMode.DONE
    modifies i`mode
    modifies i.z`mode, i.z`bitb, i.z`bitk, i.z`kk, i.z`read, i.z`write, i.z`check, i.z`hist, i.z`base
    ensures Valid(i) && (i.mode == InflateMode.DONE || i.mode.CHECK4?)
  {
    hide WindowOK, P2, Adler, Checked, InfState.Valid;
    BlocksIs(i);
    InfState.DoneIs(i.z);
    CheckKept(i.z);
    CheckedIs(i.z.input, i.z.goal);
    var was := ResetBlocks(i.z);
    if i.z.nowrap {
      i.mode := InflateMode.DONE;
    } else {
      i.mode := CHECK4(was);
    }
  }

  lemma CheckKept(z: State)
    requires WindowOK(z)
    ensures !z.nowrap ==> z.check == Adler(1, z.out)
  {
    hide Adler;
  }

  /** BLOCKS (zlib/inflate.c:221-238). */
  method StepBlocks(i: Inflater, r0: int) returns (leave: bool, r: int)
    requires Valid(i) && i.mode == BLOCKS && (r0 == Z_OK || r0 == Z_BUF_ERROR)
    modifies i`mode, i.z, i.z.window
    ensures Valid(i) && Onward(i) && Reported(i, leave, r0, r) && (r == Z_OK || r == Z_BUF_ERROR || r == Z_DATA_ERROR)
    ensures !leave ==> Rank(i.mode) < old(Rank(i.mode)) && (r == Z_OK || i.mode.BAD?)
    ensures leave ==> r != Z_DATA_ERROR && i.mode == BLOCKS
    ensures i.mode.BAD? ==> i.goal.Corrupt? && i.mode.marker == 0
  {
    hide Valid, InfState.Valid, P2, Checked;
    BlocksIs(i);
    r := InfBlock.InflateBlocks(i.z, r0);
    BlocksIs(i);
    if r == Z_DATA_ERROR {
      InfBlock.BadMeans(i.z);
      EnterBadBlocks(i);
      return false, r;
    }
    if r != Z_STREAM_END {
      BlocksWait(i);
      return true, r;
    }
    FinishBlocks(i);
    return false, Z_OK;
  }

  /** One pass of the switch (zlib/inflate.c:162-269). */
  method Step(i: Inflater, r0: int) returns (leave: bool, r: int)
    requires Valid(i) && (r0 == Z_OK || r0 == Z_BUF_ERROR || i.mode.BAD?)
    modifies i, i.z, i.z.window
    ensures Valid(i) && Onward(i) && Reported(i, leave, r0, r)
    ensures if leave then Verdict(i.mode, i.goal, r) else r == Z_OK || r == Z_BUF_ERROR || i.mode.BAD?
    ensures !leave ==> Rank(i.mode) < old(Rank(i.mode))
    ensures Rank(i.mode) <= old(Rank(i.mode))
    ensures leave && i.mode.BAD? && i.goal.Corrupt? ==> r == Z_DATA_ERROR
    ensures old(i.mode.BAD?) ==> leave && i.z.out == old(i.z.out) && i.z.avail_out == old(i.z.avail_out)
    ensures old(i.mode.BAD?) ==> i.mode == old(i.mode) && r == Z_DATA_ERROR
    ensures i.mode.BAD? && !old(i.mode.BAD?) ==>
              i.mode.marker == if old(i.mode == BLOCKS || i.mode.DICT0?) then 0 else 5
    ensures old(i.mode.DICT0?) ==> leave && i.mode.BAD? && r == Z_STREAM_ERROR
    ensures i.mode.DICT0? ==> leave && r == Z_NEED_DICT
    ensures r == Z_STREAM_ERROR ==> old(i.mode.DICT0?)
    ensures i.mode.BAD? && i.goal.NeedsDictionary? ==> old(i.mode.BAD? || i.mode.DICT0?)
  {
    hide Valid;
    match i.mode
    case METHOD => leave, r := StepMethod(i, r0);
    case FLAG(_) => leave, r := StepFlag(i, r0);
    case BLOCKS => leave, r := StepBlocks(i, r0);
    case CHECK4(_) => leave, r := StepCheck(i, r0);
    case CHECK3(_, _) => leave, r := StepCheck(i, r0);
    case CHECK2(_, _) => leave, r := StepCheck(i, r0);
    case CHECK1(_, _) => leave, r := StepCheck(i, r0);
    case DONE => leave, r := true, Z_STREAM_END;
    case BAD(_) => leave, r := true, Z_DATA_ERROR;
    case _ => leave, r := StepDict(i, r0);
  }

  /** inflate. */
  method Inflate(i: Inflater) returns (r: int)
    requires Valid(i)
    modifies i, i.z, i.z.window
    ensures Valid(i) && Onward(i) && Reported(i, true, Z_BUF_ERROR, r) && Verdict(i.mode, i.goal, r)
    ensures old(i.mode.BAD?) ==> i.mode.BAD? && i.z.out == old(i.z.out)
    ensures i.mode.BAD? && i.goal.Corrupt? ==> r == Z_DATA_ERROR
    ensures old(i.mode.BAD?) ==> i.mode == old(i.mode) && r == Z_DATA_ERROR
    ensures old(i.mode.DICT0?) ==> i.mode.BAD? && r == Z_STREAM_ERROR
    ensures i.mode.DICT0? <==> r == Z_NEED_DICT
    ensures r == Z_NEED_DICT ==>
              4 <= i.z.next_in <= |i.z.input| && i.mode.id == Word(i.z.input, i.z.next_in - 4)
    ensures r == Z_STREAM_ERROR ==> old(i.mode.DICT0?)
    ensures i.mode.BAD? && i.goal.NeedsDictionary? ==> old(i.mode.BAD? || i.mode.DICT0?)
  {
    hide Valid, Word;
    var leave := false;
    r := Z_BUF_ERROR;
    while !leave
      invariant Valid(i) && Onward(i) && Reported(i, leave, Z_BUF_ERROR, r)
      invariant if leave then Verdict(i.mode, i.goal, r) else r == Z_OK || r == Z_BUF_ERROR || i.mode.BAD?
      invariant leave && i.mode.BAD? && i.goal.Corrupt? ==> r == Z_DATA_ERROR
      invariant || leave || Rank(i.mode) < old(Rank(i.mode))
                || (i.z.next_in == old(i.z.next_in) && i.z.bitk == old(i.z.bitk) && i.z.hist == old(i.z.hist)
                    && i.z.out == old(i.z.out))
      invariant Rank(i.mode) <= old(Rank(i.mode)) && (old(i.mode.BAD?) ==> i.mode.BAD? && i.z.out == old(i.z.out))
      invariant if leave then
                  && (old(i.mode.BAD?) ==> i.mode == old(i.mode) && r == Z_DATA_ERROR)
                  && (old(i.mode.DICT0?) ==> i.mode.BAD? && r == Z_STREAM_ERROR)
                  && (i.mode.DICT0? ==> r == Z_NEED_DICT) && (r == Z_STREAM_ERROR ==> old(i.mode.DICT0?))
                else
                  && (old(i.mode.BAD? || i.mode.DICT0?) ==> i.mode == old(i.mode))
                  && (i.mode.DICT0? ==> old(i.mode.DICT0?))
      invariant i.mode.BAD? && i.goal.NeedsDictionary? ==> old(i.mode.BAD? || i.mode.DICT0?)
      decreases !leave, Rank(i.mode)
    {
      leave, r := Step(i, r);
    }
    if i.mode.DICT0? {
      IdentifierRead(i);
    }
  }

  /** What is handed out when a dictionary is needed is its identifier, the four bytes that were read last. */
  lemma IdentifierRead(i: Inflater)
    requires Valid(i) && i.mode.DICT0?
    ensures 4 <= i.z.next_in <= |i.z.input| && i.mode.id == Word(i.z.input, i.z.next_in - 4)
    ensures i.goal.NeedsDictionary?
  {
    hide WindowOK, P2, BitsOK, Expecting, Unwrapping, Checking;
  }
}
