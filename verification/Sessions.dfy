/** Whole runs of the decompressor: any number of calls of inflate, with input and output space
    supplied in any portions. */
module Sessions {
  import opened BitMath
  import opened Words
  import opened Deflate
  import opened InfUtil
  import opened InfSafety
  import opened ZlibFormat
  import opened ZlibInflate
  import opened Lookahead
  import opened RoundTrips
  import opened ZLib
  import InfState

  /** What is supplied before a call: more bytes of input and more room for output. */
  datatype Call = Call(more: nat, room: nat)

  function Supply(calls: seq<Call>): nat {
    if calls == [] then 0 else Supply(calls[..|calls| - 1]) + calls[|calls| - 1].more
  }

  function Room(calls: seq<Call>): nat {
    if calls == [] then 0 else Room(calls[..|calls| - 1]) + calls[|calls| - 1].room
  }

  lemma {:induction false} SupplyMono(calls: seq<Call>, n: nat)
    requires n <= |calls|
    ensures Supply(calls[..n]) <= Supply(calls)
    decreases |calls| - n
  {
    if n < |calls| {
      assert calls[..n + 1][..n] == calls[..n];
      SupplyMono(calls, n + 1);
    } else {
      assert calls[..n] == calls;
    }
  }

  /** Safety: at every point between calls what has been delivered begins what the stream holds. */
  lemma DeliveredRight(i: Inflater)
    requires ZlibInflate.Valid(i)
    ensures i.z.out <= Output(i.goal)
  {
    hide Block, Zlib, WindowOK, InfState.Valid, Adler32.Adler, Word;
    if i.mode == BLOCKS {
      NeverWrong(i.z);
      assert i.z.out <= i.z.hist;
    }
  }

  /** What can be said of r after a call. */
  lemma VerdictMeans(i: Inflater, r: int)
    requires ZlibInflate.Valid(i) && ZlibInflate.Verdict(i.mode, i.goal, r)
    ensures r == Z_STREAM_END ==> i.goal == Done(i.z.out, i.z.next_in)
    ensures r == Z_DATA_ERROR ==> i.goal.Corrupt? || i.goal.NeedsDictionary?
    ensures r == Z_STREAM_ERROR || r == Z_NEED_DICT ==> i.goal.NeedsDictionary?
    ensures r in {Z_OK, Z_BUF_ERROR, Z_STREAM_END, Z_DATA_ERROR, Z_STREAM_ERROR, Z_NEED_DICT}
  {
    hide Block, Zlib, WindowOK, InfState.Valid, Adler32.Adler, Word;
  }

  function Min(a: nat, b: nat): nat { if a <= b then a else b }

  // ---- How a run ends ----

  /** How a run ends that was supplied with a whole input that holds c, and with room for room bytes, w
      being the size of the window: out has been delivered, next_in is at next and the last call has
      returned r.  Of a corrupt stream up to a window of output may be lost. */
  predicate Settled(c: Contents, w: nat, room: nat, out: seq<byte>, next: nat, r: int) {
    match c
    case Done(o, end) =>
      && out == o[..Min(room, |o|)]
      && (if room >= |o| then r == Z_STREAM_END && next == end else r == Z_OK || r == Z_BUF_ERROR)
    case Short(o) => out == o[..Min(room, |o|)] && (r == Z_OK || r == Z_BUF_ERROR)
    case Corrupt(o, held) =>
      && w > 0 && out <= o
      && (if r == Z_DATA_ERROR then |o| <= room + Capacity(room, w) && |o| <= |out| + w
          else (r == Z_OK || r == Z_BUF_ERROR) && |out| == room && !Reachable(c, w, room))
    case NeedsDictionary => out == [] && (r == Z_NEED_DICT || r == Z_STREAM_ERROR || r == Z_DATA_ERROR)
    case Unspecified => true
  }

  /** With room for room bytes the window takes in all that comes before the error, and what may have to
      be delivered before can be. */
  predicate Reachable(c: Contents, w: nat, room: nat)
    requires c.Corrupt? && w > 0
  {
    |c.out| <= room + Capacity(room, w) && c.held <= room
  }

  /** The number of the first call that returned Z_DATA_ERROR, or 0. */
  function FirstError(rs: seq<int>): (t: nat)
    ensures t <= |rs| && (t > 0 ==> rs[t - 1] == Z_DATA_ERROR)
    ensures forall k :: 0 <= k < |rs| && (t == 0 || k < t - 1) ==> rs[k] != Z_DATA_ERROR
  {
    if rs == [] then 0
    else
      var t := FirstError(rs[..|rs| - 1]);
      if t > 0 then t else if rs[|rs| - 1] == Z_DATA_ERROR then |rs| else 0
  }

  lemma FirstErrorNext(rs: seq<int>, r: int)
    ensures FirstError(rs + [r]) ==
            if FirstError(rs) > 0 then FirstError(rs) else if r == Z_DATA_ERROR then |rs| + 1 else 0
  {
    assert (rs + [r])[..|rs|] == rs;
  }

  /** Room for more output never lets less be written. */
  lemma CapacityMono(a: nat, b: nat, w: nat)
    requires a <= b && w > 0
    ensures a + Capacity(a, w) <= b + Capacity(b, w)
  {
  }

  /** When and how the error of a corrupt stream c shows in the results rs of the calls, supply bytes of
      input being needed for all of it: a call that has been given all of the input, no error having been
      reported before, reports it if the error is Reachable; if it reports the error, the window takes in
      all that comes before it, and, when the input is too short for a fast run (prompt), the error is
      Reachable.  What had room up to that call has then been delivered, and nothing is afterwards. */
  ghost predicate Exposed(c: Contents, w: nat, calls: seq<Call>, supply: int, prompt: bool, rs: seq<int>,
                          out: seq<byte>)
    requires c.Corrupt? && w > 0 && |rs| <= |calls|
  {
    var t := FirstError(rs);
    && (t > 0 ==> out == c.out[..Min(Room(calls[..t]), |c.out|)] && rs[|rs| - 1] == Z_DATA_ERROR)
    && (t > 0 ==>
          |c.out| <= Room(calls[..t]) + Capacity(Room(calls[..t]), w) && (prompt ==> c.held <= Room(calls[..t])))
    && forall n {:trigger calls[..n]} ::
         0 < n <= |rs| && Supply(calls[..n]) >= supply && Reachable(c, w, Room(calls[..n])) ==> 0 < t <= n
  }

  /** A call that has been given all of the input, before which no error was reported, reports it just when
      it is Reachable, if the input is too short for a fast run or nothing may have to be delivered for
      which there has been no room; in any case only if the window takes in all that comes before it. */
  lemma ReportedJust(c: Contents, w: nat, calls: seq<Call>, supply: int, prompt: bool, rs: seq<int>, out: seq<byte>,
                     n: nat)
    requires c.Corrupt? && w > 0 && |rs| <= |calls| && Exposed(c, w, calls, supply, prompt, rs, out)
    requires 0 < n <= |rs| && Supply(calls[..n]) >= supply && (FirstError(rs) == 0 || FirstError(rs) >= n)
    ensures var room := Room(calls[..n]);
            && (prompt || c.held <= room ==> (FirstError(rs) == n <==> Reachable(c, w, room)))
            && (FirstError(rs) == n ==> |c.out| <= room + Capacity(room, w))
  {
    hide Room, Supply;
  }

  /** One call more, of which r is the result, out having been delivered after it; before it no error had
      been reported. */
  lemma OneMore(c: Contents, w: nat, calls: seq<Call>, supply: int, prompt: bool, rs: seq<int>, was: seq<byte>,
                r: int, out: seq<byte>)
    requires c.Corrupt? && w > 0 && |rs| < |calls| && FirstError(rs) == 0
    requires Exposed(c, w, calls, supply, prompt, rs, was)
    requires out <= c.out && |out| <= Room(calls[..|rs| + 1])
    requires r == Z_DATA_ERROR ==> |out| == Room(calls[..|rs| + 1]) || out == c.out
    requires r == Z_DATA_ERROR ==> |c.out| <= |out| + Capacity(|out|, w) && (prompt ==> c.held <= |out|)
    requires r != Z_DATA_ERROR && Supply(calls[..|rs| + 1]) >= supply ==> !Reachable(c, w, Room(calls[..|rs| + 1]))
    ensures Exposed(c, w, calls, supply, prompt, rs + [r], out)
    ensures FirstError(rs + [r]) == if r == Z_DATA_ERROR then |rs| + 1 else 0
  {
    hide Room, Supply, Reachable, Capacity, FirstError;
    FirstErrorNext(rs, r);
    if r == Z_DATA_ERROR {
      assert out == c.out[..|out|];
      CapacityMono(|out|, Room(calls[..|rs| + 1]), w);
    }
  }

  /** What a call does shows in its result. */
  lemma CallExposes(i: Inflater, calls: seq<Call>, supply: int, prompt: bool, rs: seq<int>, was: seq<byte>, r: int)
    requires i.goal.Corrupt? && ZlibInflate.Valid(i) && i.z.window.Length > 0 && |rs| < |calls| && FirstError(rs) == 0
    requires prompt ==> |i.z.input| < 10
    requires Exposed(i.goal, i.z.window.Length, calls, supply, prompt, rs, was)
    requires ZlibInflate.Verdict(i.mode, i.goal, r) && (i.mode.BAD? ==> r == Z_DATA_ERROR && Drained(i) && Fits(i))
    requires r == Z_OK || r == Z_BUF_ERROR ==> Full(i) || Hungry(i)
    requires Supply(calls[..|rs| + 1]) >= supply ==> Limit(i.z) == |i.z.input|
    requires |i.z.out| + i.z.avail_out == Room(calls[..|rs| + 1])
    ensures Exposed(i.goal, i.z.window.Length, calls, supply, prompt, rs + [r], i.z.out)
    ensures FirstError(rs + [r]) > 0 <==> i.mode.BAD?
  {
    hide ZlibInflate.Valid, Room, Supply, Exposed, FirstError, Capacity;
    VerdictMeans(i, r);
    DeliveredRight(i);
    OneMore(i.goal, i.z.window.Length, calls, supply, prompt, rs, was, r, i.z.out);
  }

  /** After the error nothing changes any more. */
  lemma ErrorStays(c: Contents, w: nat, calls: seq<Call>, supply: int, prompt: bool, rs: seq<int>, out: seq<byte>)
    requires c.Corrupt? && w > 0 && |rs| < |calls| && FirstError(rs) > 0
    requires Exposed(c, w, calls, supply, prompt, rs, out)
    ensures Exposed(c, w, calls, supply, prompt, rs + [Z_DATA_ERROR], out)
    ensures FirstError(rs + [Z_DATA_ERROR]) == FirstError(rs)
  {
    hide Room, Supply, Reachable, Capacity, FirstError;
    FirstErrorNext(rs, Z_DATA_ERROR);
  }

  /** A call that was given all of the input settles the matter, as far as there was room. */
  lemma MustSettle(i: Inflater, r: int, room: nat)
    requires ZlibInflate.Valid(i) && ZlibInflate.Verdict(i.mode, i.goal, r) && Limit(i.z) == |i.z.input|
    requires r == Z_OK || r == Z_BUF_ERROR ==> Full(i) || Hungry(i)
    requires |i.z.out| + i.z.avail_out == room && (i.goal.Corrupt? && r == Z_DATA_ERROR ==> i.z.window.Length > 0)
    requires i.goal.Corrupt? && r == Z_DATA_ERROR ==>
               |i.goal.out| <= room + Capacity(room, i.z.window.Length) && |i.goal.out| <= |i.z.out| + i.z.window.Length
    ensures Settled(i.goal, i.z.window.Length, room, i.z.out, i.z.next_in, r)
  {
    hide ZlibInflate.Valid;
    VerdictMeans(i, r);
    DeliveredRight(i);
    assert i.z.out == Output(i.goal)[..|i.z.out|];
  }

  // ---- Streams that ask for a dictionary ----

  /** What the last call has returned. */
  function Last(rs: seq<int>): int {
    if rs == [] then Z_OK else rs[|rs| - 1]
  }

  /** What a call may return after was when a dictionary is needed. */
  predicate Turn(was: int, r: int) {
    if was == Z_NEED_DICT then r == Z_STREAM_ERROR
    else if was == Z_STREAM_ERROR || was == Z_DATA_ERROR then r == Z_DATA_ERROR
    else r == Z_OK || r == Z_BUF_ERROR || r == Z_NEED_DICT
  }

  /** The need of a dictionary is reported once, then that there is none, once, and an error ever after. */
  predicate InTurn(rs: seq<int>) {
    rs != [] ==> InTurn(rs[..|rs| - 1]) && Turn(Last(rs[..|rs| - 1]), Last(rs))
  }

  /** The mode that a run is in which has reported was last. */
  predicate Stage(mode: InflateMode, was: int) {
    && (mode.DICT0? <==> was == Z_NEED_DICT)
    && (mode.BAD? <==> was == Z_STREAM_ERROR || was == Z_DATA_ERROR)
  }

  lemma NextTurn(rs: seq<int>, r: int)
    requires InTurn(rs) && Turn(Last(rs), r)
    ensures InTurn(rs + [r]) && Last(rs + [r]) == r
  {
    assert (rs + [r])[..|rs|] == rs;
  }

  // ---- Runs ----

  /** The next call. */
  method CallOnce(i: Inflater, calls: seq<Call>, ghost supply: int, ghost prompt: bool, rs: seq<int>) returns (r: int)
    requires ZlibInflate.Valid(i) && i.z.first == 0 && |rs| < |calls|
    requires Limit(i.z) + calls[|rs|].more <= |i.z.input| && |i.z.out| + i.z.avail_out == Room(calls[..|rs|])
    requires Limit(i.z) + supply == |i.z.input| + Supply(calls[..|rs|]) && prompt == (|i.z.input| < 10)
    requires i.goal.Corrupt? ==>
               && i.z.window.Length > 0 && Exposed(i.goal, i.z.window.Length, calls, supply, prompt, rs, i.z.out)
               && (FirstError(rs) > 0 <==> i.mode.BAD?)
    modifies i, i.z, i.z.window
    ensures ZlibInflate.Valid(i) && i.z.first == 0 && Limit(i.z) == old(Limit(i.z)) + calls[|rs|].more
    ensures i.goal.NeedsDictionary? && InTurn(rs) && old(Stage(i.mode, Last(rs))) ==>
              InTurn(rs + [r]) && Stage(i.mode, r) && Last(rs + [r]) == r
    ensures |i.z.out| + i.z.avail_out == Room(calls[..|rs| + 1])
    ensures ZlibInflate.Verdict(i.mode, i.goal, r) && (r == Z_OK || r == Z_BUF_ERROR ==> Full(i) || Hungry(i))
    ensures i.goal.Corrupt? ==>
              && Exposed(i.goal, i.z.window.Length, calls, supply, prompt, rs + [r], i.z.out)
              && (FirstError(rs + [r]) > 0 <==> i.mode.BAD?)
  {
    hide ZlibInflate.Valid, Exposed, Full, Hungry, Drained, Fits;
    var n := |rs|;
    assert calls[..n + 1][..n] == calls[..n];
    Provide(i, calls[n]);
    ghost var was, bad := i.z.out, i.mode.BAD?;
    r := Inflate(i);
    NothingLost(i);
    if i.goal.NeedsDictionary? && InTurn(rs) && old(Stage(i.mode, Last(rs))) {
      VerdictMeans(i, r);
      NextTurn(rs, r);
    }
    if i.goal.Corrupt? {
      if bad {
        ErrorStays(i.goal, i.z.window.Length, calls, supply, prompt, rs, i.z.out);
      } else {
        CallExposes(i, calls, supply, prompt, rs, was, r);
      }
    }
  }

  /** Supply input and room, then call inflate; again and again.  At every point what has been delivered
      begins the contents of the stream.  Once all of the input has been supplied the totals decide which
      bytes are delivered and what the last call returns, however they were split up (Settled).  Only for
      a corrupt stream the portions matter: once the error has been reported nothing more is delivered,
      so that of the bytes before it those are lost for which there was no room up to that call
      (Exposed). */
  method Run(i: Inflater, calls: seq<Call>) returns (rs: seq<int>, r: int)
    requires ZlibInflate.Valid(i) && i.z.first == 0 && i.z.out == [] && i.z.avail_out == 0 && calls != []
    requires Limit(i.z) + Supply(calls) <= |i.z.input| && !i.mode.BAD?
    modifies i, i.z, i.z.window
    ensures ZlibInflate.Valid(i) && Limit(i.z) == old(Limit(i.z)) + Supply(calls)
    ensures |rs| == |calls| && r == rs[|rs| - 1]
    ensures i.z.out <= Output(i.goal) && |i.z.out| + i.z.avail_out == Room(calls)
    ensures r == Z_STREAM_END ==> i.goal == Done(i.z.out, i.z.next_in)
    ensures r == Z_DATA_ERROR ==> i.goal.Corrupt? || i.goal.NeedsDictionary?
    ensures r == Z_OK || r == Z_BUF_ERROR ==> Full(i) || Hungry(i)
    ensures Limit(i.z) == |i.z.input| ==>
              Settled(i.goal, i.z.window.Length, Room(calls), i.z.out, i.z.next_in, r)
    ensures i.goal.Corrupt? ==>
              && i.z.window.Length > 0
              && Exposed(i.goal, i.z.window.Length, calls, |i.z.input| - old(Limit(i.z)), |i.z.input| < 10, rs, i.z.out)
    ensures i.goal.NeedsDictionary? && !old(i.mode.DICT0?) ==> InTurn(rs)
  {
    hide ZlibInflate.Valid, Settled, Exposed, ZlibInflate.Verdict, Full, Hungry;
    ghost var supply, prompt := |i.z.input| - Limit(i.z), |i.z.input| < 10;
    r, rs := Z_BUF_ERROR, [];
    NoCalls(i, calls, supply, prompt);
    while |rs| < |calls|
      invariant |rs| <= |calls| && ZlibInflate.Valid(i) && i.z.first == 0
      invariant Limit(i.z) == old(Limit(i.z)) + Supply(calls[..|rs|])
      invariant |i.z.out| + i.z.avail_out == Room(calls[..|rs|])
      invariant i.goal.Corrupt? ==>
                  && i.z.window.Length > 0 && Exposed(i.goal, i.z.window.Length, calls, supply, prompt, rs, i.z.out)
                  && (FirstError(rs) > 0 <==> i.mode.BAD?)
      invariant i.goal.NeedsDictionary? && !old(i.mode.DICT0?) ==> InTurn(rs) && Stage(i.mode, Last(rs))
      invariant rs != [] ==>
                  && r == rs[|rs| - 1] && ZlibInflate.Verdict(i.mode, i.goal, r)
                  && (r == Z_OK || r == Z_BUF_ERROR ==> Full(i) || Hungry(i))
    {
      assert calls[..|rs| + 1][..|rs|] == calls[..|rs|];
      SupplyMono(calls, |rs| + 1);
      r := CallOnce(i, calls, supply, prompt, rs);
      rs := rs + [r];
    }
    assert calls[..|rs|] == calls;
    DeliveredRight(i);
    VerdictMeans(i, r);
    if i.goal.Corrupt? && r == Z_DATA_ERROR {
      LossBound(i.goal, i.z.window.Length, calls, supply, prompt, rs, i.z.out);
    }
    if Limit(i.z) == |i.z.input| {
      MustSettle(i, r, Room(calls));
    }
  }

  /** Before the first call. */
  lemma NoCalls(i: Inflater, calls: seq<Call>, supply: int, prompt: bool)
    requires ZlibInflate.Valid(i) && i.z.out == []
    ensures Room(calls[..0]) == Supply(calls[..0]) == 0 && FirstError([]) == 0
    ensures i.goal.Corrupt? ==>
              i.z.window.Length > 0 && Exposed(i.goal, i.z.window.Length, calls, supply, prompt, [], i.z.out)
  {
    hide ZlibInflate.ModeOK;
  }

  lemma {:induction false} RoomMono(calls: seq<Call>, n: nat)
    requires n <= |calls|
    ensures Room(calls[..n]) <= Room(calls)
    decreases |calls| - n
  {
    if n < |calls| {
      assert calls[..n + 1][..n] == calls[..n];
      RoomMono(calls, n + 1);
    } else {
      assert calls[..n] == calls;
    }
  }

  /** When the error has been reported at most a window of output is lost. */
  lemma LossBound(c: Contents, w: nat, calls: seq<Call>, supply: int, prompt: bool, rs: seq<int>, out: seq<byte>)
    requires c.Corrupt? && w > 0 && |rs| == |calls| && rs != [] && rs[|rs| - 1] == Z_DATA_ERROR
    requires Exposed(c, w, calls, supply, prompt, rs, out)
    ensures |c.out| <= Room(calls) + Capacity(Room(calls), w) && |c.out| <= |out| + w
  {
    hide Room, Supply;
    var t := FirstError(rs);
    RoomMono(calls, t);
    CapacityMono(Room(calls[..t]), Room(calls), w);
  }

  /** Expand a whole input, supplied in any portions.  If by the format alone, without the lookahead of
      the tables, it holds a whole stream, with a check value or a byte behind it, that is what comes of
      it; and what is delivered always begins what the input holds. */
  method Expand(input: seq<byte>, w: int, calls: seq<Call>) returns (r: int, out: seq<byte>, next: nat)
    requires 8 <= WindowBits(w) <= 15 && calls != [] && Supply(calls) == |input|
    requires Unwrapped(input, 0, WindowBits(w), w < 0, true) != Unspecified
    ensures Settled(Unwrapped(input, 0, WindowBits(w), w < 0, true), P2(WindowBits(w)), Room(calls), out, next, r)
    ensures var c := Unwrapped(input, 0, WindowBits(w), w < 0, false);
            && (c.Done? && (w < 0 ==> c.end < |input|) ==> Settled(c, P2(WindowBits(w)), Room(calls), out, next, r))
            && (c.Unspecified? || out <= Output(c))
  {
    hide ZlibInflate.Valid, Settled, Unwrapped, P2, Exposed;
    var i, rs;
    r, i := InflateInit2(input, 0, w);
    rs, r := Run(i, calls);
    out, next := i.z.out, i.z.next_in;
    NeverAhead(input, 0, WindowBits(w), w < 0);
    var c := Unwrapped(input, 0, WindowBits(w), w < 0, false);
    if c.Done? && (w < 0 ==> c.end < |input|) {
      EndSeen(input, 0, WindowBits(w), w < 0);
    }
  }

  /** Why the portions matter: of a stored block followed by one of the reserved type nothing is delivered
      if the room for it comes one call after the input, and all of it if both come together. */
  method PortionsMatter(d: seq<byte>) returns (lost: seq<byte>, kept: seq<byte>)
    requires 0 < |d| < 0x8000
    ensures Unwrapped(StoredBlock(d, false) + [7], 0, 15, true, true) == Corrupt(d, 0)
    ensures lost == [] && kept == d
  {
    hide ZlibInflate.Valid, Settled, Unwrapped, StoredBlock, P2, Exposed;
    ReservedAfter(d, 15, true);
    var input := StoredBlock(d, false) + [7];
    var n := |input|;
    var calls := [Call(n, 0), Call(0, |d|)];
    assert calls[..1] == [Call(n, 0)] && [Call(n, 0)][..0] == [];
    assert Supply(calls[..1]) == n && Supply(calls) == n;
    lost := RunError(input, calls, d);
    kept := RunError(input, [Call(n, |d|)], d);
    assert d[..|d|] == d;
  }

  /** A run on raw data that are corrupt, all of which are supplied before the first call. */
  method RunError(input: seq<byte>, calls: seq<Call>, ghost d: seq<byte>) returns (out: seq<byte>)
    requires Unwrapped(input, 0, 15, true, true) == Corrupt(d, 0) && |d| < 0x8000
    requires calls != [] && calls[0].more == |input| && Supply(calls) == |input|
    ensures out == d[..Min(calls[0].room, |d|)]
  {
    hide ZlibInflate.Valid, Settled, Unwrapped, P2;
    assert P2(15) == 0x8000 by { P2Small(); }
    var r, i, rs;
    r, i := InflateInit2(input, 0, -15);
    rs, r := Run(i, calls);
    out := i.z.out;
    assert calls[..1][..0] == [] && calls[..1][0] == calls[0];
    assert Supply(calls[..1]) == |input| && Room(calls[..1]) == calls[0].room;
    CapacityMono(0, calls[0].room, P2(15));
    assert Reachable(i.goal, P2(15), Room(calls[..1]));
    assert FirstError(rs) == 1;
  }

  /** What the window takes in is not all there is to it: at the end of a block with codes the decompressor
      waits until all is delivered.  Here it has been given all of the input, and the one byte before the
      error fits in the window, but the error is reported by the next call only, which has room for it. */
  method EndWaits() returns (rs: seq<int>)
    ensures Unwrapped(HELD + [0], 0, 15, true, true) == Corrupt([0x41], 1) && 1 <= Capacity(0, P2(15))
    ensures |rs| == 2 && rs[0] != Z_DATA_ERROR && rs[1] == Z_DATA_ERROR
  {
    hide ZlibInflate.Valid, Settled, Unwrapped, P2, HELD;
    HeldContents(15);
    OneByteMore(HELD, [0], 0, 15, true);
    assert P2(15) == 0x8000 by { P2Small(); }
    assert |HELD| == 3 by { HeldWord(); }
    var calls := [Call(4, 0), Call(0, 1)];
    assert calls[..1] == [Call(4, 0)] && [Call(4, 0)][..0] == [] && calls[..2] == calls;
    assert Supply(calls[..1]) == 4 && Supply(calls) == 4;
    assert Room(calls[..1]) == 0 && Room(calls) == 1;
    var r, i;
    r, i := InflateInit2(HELD + [0], 0, -15);
    rs, r := Run(i, calls);
    assert Reachable(i.goal, P2(15), Room(calls[..2]));
    assert FirstError(rs) == 2;
  }

  /** Two runs with the same totals end alike.  If the stream is not corrupt they deliver the same bytes
      and agree on whether it has ended; if it is, they agree on whether the error is reported, as long as
      nothing may have to be delivered before, and deliver the same bytes but for a window. */
  lemma TotalsDecide(c: Contents, w: nat, room: nat, out1: seq<byte>, next1: nat, r1: int, out2: seq<byte>,
                     next2: nat, r2: int)
    requires Settled(c, w, room, out1, next1, r1) && Settled(c, w, room, out2, next2, r2) && c != Unspecified
    ensures !c.Corrupt? ==> out1 == out2
    ensures r1 == Z_STREAM_END <==> r2 == Z_STREAM_END
    ensures r1 == Z_STREAM_END ==> next1 == next2
    ensures !c.NeedsDictionary? && (c.Corrupt? ==> c.held <= room) ==> (r1 == Z_DATA_ERROR <==> r2 == Z_DATA_ERROR)
    ensures c.Corrupt? ==> (out1 <= out2 && |out2| <= |out1| + w) || (out2 <= out1 && |out1| <= |out2| + w)
  {
  }

  /** Input that stays in memory is not lost. */
  lemma NothingLost(i: Inflater)
    requires i.z.first == 0
    ensures !ZlibInflate.Spoilt(i)
  {
  }

  method Provide(i: Inflater, c: Call)
    requires ZlibInflate.Valid(i) && Limit(i.z) + c.more <= |i.z.input|
    modifies i.z`avail_in, i.z`avail_out
    ensures ZlibInflate.Valid(i) && Limit(i.z) == old(Limit(i.z)) + c.more
    ensures i.z.avail_out == old(i.z.avail_out) + c.room
  {
    hide ZlibInflate.Valid;
    MoreInput(i, c.more);
    GiveRoom(i, i.z.avail_out + c.room);
  }

  /** Having more input does not disturb a decompressor. */
  method MoreInput(i: Inflater, n: nat)
    requires ZlibInflate.Valid(i) && Limit(i.z) + n <= |i.z.input|
    modifies i.z`avail_in
    ensures ZlibInflate.Valid(i) && i.z.avail_in == old(i.z.avail_in) + n
  {
    hide WindowOK, Block, Zlib, Checked, InfState.Meaning, InfState.ModeOK, InfState.BufferOK, Bits, Front, ByteAfter,
      Raw;
    i.z.avail_in := i.z.avail_in + n;
  }

  /** Nor does any room for output. */
  method GiveRoom(i: Inflater, n: nat)
    requires ZlibInflate.Valid(i)
    modifies i.z`avail_out
    ensures ZlibInflate.Valid(i) && i.z.avail_out == n
  {
    hide WindowOK, Block, Zlib, Checked, InfState.Meaning, InfState.ModeOK, InfState.BufferOK;
    i.z.avail_out := n;
  }

  /** The buffer is used again: what has been taken up is no longer in memory. */
  method Reuse(i: Inflater)
    requires ZlibInflate.Valid(i) && i.z.nowrap
    modifies i.z`first
    ensures ZlibInflate.Valid(i) && i.z.first == i.z.next_in
  {
    hide WindowOK, Block, Zlib, Checked, InfState.Meaning, InfState.ModeOK, InfState.BufferOK;
    i.z.first := i.z.next_in;
  }
}
