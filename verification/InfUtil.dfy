/** zlib/infutil.h and zlib/infutil.c: the decompressor's state, its bit buffer, and its circular
    window, which is both the queue of bytes to deliver and the history that matches copy from. */
module InfUtil {
  import opened BitMath
  import opened Words
  import opened Huffman
  import opened HuftTables
  import opened Deflate
  import opened ZLib
  import opened Adler32

  /** inflate_block_mode, with the part of the union sub that goes with each mode. */
  datatype BlockMode =
    | TYPE | LENS | STORED(left: nat)
    | TABLE | BTREE(table: nat, index: nat) | DTREE(table: nat, index: nat, tb: Tree)
    | CODES | DRY | DONE | BAD

  /** The mode of inflate_codes_state, with its part of the union sub and len. */
  datatype CodesMode =
    | START | LEN(tree: nat, need: nat) | LENEXT(len: nat, get: nat)
    | DIST(len: nat, tree: nat, need: nat) | DISTEXT(len: nat, dist: nat, get: nat)
    | COPY(len: nat, dist: nat) | LIT(lit: byte) | WASH | END | BADCODE

  /** z_stream, inflate_blocks_state and inflate_codes_state.  input is what is supplied over the whole
      run, and next_in counts in it; avail_in bytes from next_in on have been supplied.  The caller may
      reuse its buffer: the bytes from first on are in memory, and front is what stands there in front
      of them, which is taken not to change.  out is what has been stored through next_out. */
  class State {
    const input: seq<byte>
    const window: array<byte>
    const nowrap: bool
    const front: byte

    var first: nat
    var next_in: nat
    var avail_in: nat
    var avail_out: nat
    var total_out: nat
    var out: seq<byte>

    var mode: BlockMode
    var last: bool
    var blens: seq<nat>
    var cmode: CodesMode
    var ltree: Tree
    var dtree: Tree

    var bitb: nat
    var bitk: nat
    var read: nat
    var write: nat
    var check: nat

    ghost var kk: nat          // how many bits of bitb are input bits; the C code relies on bitk of them
    ghost var hist: seq<byte>  // all bytes written to the window so far
    ghost var base: nat        // how many of them were written on earlier laps around the window
    ghost var mark: nat        // bit position where the element being decoded starts
    ghost var coding: Coding   // the codes that ltree and dtree stand for
    ghost var bl: Lengths      // the code length code that tb stands for
    ghost var symbol: Step     // what the literal or match being decoded comes to
    ghost var rest: Outcome    // what the current block and those after it come to
    ghost var held: nat        // how much had been written when a block with codes ended last
    ghost const goal: Outcome  // what the input expands to, as far as a decoder by tables gets

    /** next_in is at start; the first block is expected at byte body. */
    constructor (input: seq<byte>, start: nat, ghost body: nat, wsize: nat, nowrap: bool, front: byte)
      requires start <= |input| && start <= body && 0 < wsize
      ensures this.input == input && this.nowrap == nowrap && this.front == front && first == 0 && fresh(window)
      ensures window.Length == wsize
      ensures next_in == start && avail_in == 0 && avail_out == 0 && bitk == 0 && mode == TYPE && out == []
      ensures hist == []
      ensures total_out == read == write == base == 0 && kk == 0 && check == 1
      ensures goal == rest == Block(Stream(input, wsize, true), 8 * body, []) && held == 0
      ensures BitsOK(this) && WindowOK(this)
    {
      hide Num, Shr, SumA, SumB, Block, P2;
      this.input, this.nowrap, this.front, first := input, nowrap, front, 0;
      window := new byte[wsize];
      next_in, avail_in, avail_out, total_out, out := start, 0, 0, 0, [];
      mode, last, blens, cmode, ltree, dtree := TYPE, false, [], START, Tree([], 0, 0), Tree([], 0, 0);
      bitb, bitk, read, write, check := 0, 0, 0, 0, 1;
      kk, hist, base, mark, coding, bl, symbol := 0, [], 0, 0, Coding(false, [], [], 0, 0), [], Cut;
      goal := Block(Stream(input, wsize, true), 8 * body, []);
      rest, held := Block(Stream(input, wsize, true), 8 * body, []), 0;
    }
  }

  // ---- The bit buffer ----

  ghost function Str(s: State): Stream {
    Stream(s.input, s.window.Length, true)
  }

  /** The logical position in the input: what has been supplied to the buffer less what is left in it. */
  ghost function Pos(s: State): int
    reads s`next_in, s`bitk
  {
    8 * s.next_in - s.bitk
  }

  /** The end of the supplied input. */
  function Limit(s: State): nat
    reads s`next_in, s`avail_in
  {
    s.next_in + s.avail_in
  }

  /** The buffer holds the kk >= bitk bits at the logical position, and no word overflows.  What lies
      before first has been taken up, and next_in is at most one byte in front of first. */
  ghost predicate BitsOK(s: State)
    reads s`first, s`next_in, s`avail_in, s`bitb, s`bitk, s`kk
  {
    && s.first <= Limit(s) <= |s.input|
    && s.bitk <= s.kk <= 32 && s.bitk <= 8 * s.next_in
    && s.bitb == Bits(Str(s), Pos(s), s.kk)
    && 8 * s.first <= Pos(s) + s.kk && (s.next_in < s.first ==> 8 * s.first < Pos(s) + 16)
  }

  /** The byte in memory at next_in. */
  function Fetched(s: State): byte
    reads s`first, s`next_in
    requires s.next_in < |s.input|
  {
    if s.next_in < s.first then s.front else s.input[s.next_in]
  }

  /** The next byte was given back to a buffer that has been reused, and what stands there now would
      spoil the bit buffer. */
  predicate Misses(s: State)
    reads s`first, s`next_in, s`avail_in
  {
    && 0 < s.avail_in && s.next_in < s.first && s.next_in < |s.input|
    && Or(s.input[s.next_in], s.front) != s.input[s.next_in]
  }

  /** The byte at p is the eight bits at 8p. */
  lemma {:induction false} ByteAt(d: seq<byte>, p: nat)
    requires p < |d|
    ensures Low(Shr(Num(d), 8 * p), 8) == d[p]
    decreases p
  {
    hide Low, Shr, P2;
    assert P2(8) == 256 by { P2Small(); }
    ShrLowUnique(Num(d), 8, Num(d[1..]), d[0]);
    if p == 0 {
      NoBits(Num(d));
    } else {
      CutTwice(Num(d), 8, 8 * (p - 1));
      ByteAt(d[1..], p - 1);
    }
  }

  /** Taking up one more byte. */
  lemma TakeByte(st: Stream, p: nat, k: nat, kk: nat)
    requires p < |st.data| && k <= kk && k <= 8 * p
    ensures Or(Bits(st, 8 * p - k, kk), Shl(st.data[p], k)) == Bits(st, 8 * p - k, if kk >= k + 8 then kk else k + 8)
  {
    hide Low, Shr, Shl, P2, Or, Num;
    var x := Num(st.data);
    CutTwice(x, 8 * p - k, k);
    ByteAt(st.data, p);
    OrInto(Shr(x, 8 * p - k), kk, k, 8);
  }

  /** Taking up the byte in memory keeps the buffer right if and only if it is the next byte of the
      input, or adds no bit to it. */
  lemma FetchedRight(s: State)
    requires BitsOK(s) && s.avail_in > 0
    ensures Or(s.bitb, Shl(Fetched(s), s.bitk)) == Bits(Str(s), Pos(s), if s.kk >= s.bitk + 8 then s.kk else s.bitk + 8)
            <==> !Misses(s)
  {
    hide Low, Shr, Shl, P2, Or, Num;
    TakeByte(Str(s), s.next_in, s.bitk, s.kk);
    if s.next_in < s.first {
      LowOfLow(At(Str(s), Pos(s)), s.bitk, s.kk);
      LowOfLow(Shr(At(Str(s), Pos(s)), s.bitk), 8, s.kk - s.bitk);
      CutTwice(Num(s.input), Pos(s), s.bitk);
      ByteAt(s.input, s.next_in);
      assert P2(8) == 256 by { P2Small(); }
      OrOver(s.bitb, s.input[s.next_in], s.front, s.bitk, 8);
    }
  }

  /** NEEDBITS(j): take up bytes until the buffer holds j bits.  The caller leaves if not ok.  Nothing is
      claimed about what the C program does once it takes up a wrong byte; here that ends the run. */
  method NeedBits(s: State, j: nat, r0: int) returns (ok: bool, r: int)
    requires BitsOK(s) && (j <= 25 || (j == 32 && s.bitk % 8 == 0))
    modifies s`next_in, s`avail_in, s`bitb, s`bitk, s`kk
    ensures BitsOK(s) && Pos(s) == old(Pos(s)) && Limit(s) == old(Limit(s))
    ensures ok <==> s.bitk >= j
    ensures !ok ==> s.avail_in == 0 || Misses(s)
    ensures s.bitk == old(s.bitk) || s.bitk < j + 8
    ensures s.bitk % 8 == old(s.bitk) % 8 && s.bitk >= old(s.bitk)
    ensures r == r0 || r == Z_OK
    ensures s.next_in == old(s.next_in) ==> r == r0
    ensures s.next_in > old(s.next_in) ==> r == Z_OK
  {
    hide Low, Shr, Shl, P2, Or, Num;
    r := r0;
    while s.bitk < j
      invariant BitsOK(s) && Pos(s) == old(Pos(s)) && Limit(s) == old(Limit(s))
      invariant s.bitk == old(s.bitk) || s.bitk < j + 8
      invariant s.bitk % 8 == old(s.bitk) % 8 && s.bitk >= old(s.bitk)
      invariant s.next_in >= old(s.next_in)
      invariant r == if s.next_in == old(s.next_in) then r0 else Z_OK
      decreases j - s.bitk
    {
      if s.avail_in == 0 || Misses(s) {
        return false, r;
      }
      r := Z_OK;
      NextByte(s);
    }
    ok := true;
  }

  /** b |= (uLong)NEXTBYTE << k; k += 8 */
  method NextByte(s: State)
    requires BitsOK(s) && s.avail_in > 0 && !Misses(s) && s.bitk <= 24
    modifies s`next_in, s`avail_in, s`bitb, s`bitk, s`kk
    ensures BitsOK(s) && Pos(s) == old(Pos(s)) && Limit(s) == old(Limit(s))
    ensures s.bitk == old(s.bitk) + 8 && s.next_in == old(s.next_in) + 1 && !Misses(s)
  {
    hide Low, Shr, Shl, P2, Or, Num;
    FetchedRight(s);
    s.bitb := Or(s.bitb, Shl(Fetched(s), s.bitk));
    s.kk := if s.kk >= s.bitk + 8 then s.kk else s.bitk + 8;
    s.bitk := s.bitk + 8;
    s.next_in := s.next_in + 1;
    s.avail_in := s.avail_in - 1;
  }

  /** DUMPBITS(j) */
  method DumpBits(s: State, j: nat)
    requires BitsOK(s) && j <= s.bitk
    modifies s`bitb, s`bitk, s`kk
    ensures BitsOK(s) && Pos(s) == old(Pos(s)) + j && s.bitk == old(s.bitk) - j
  {
    hide Low, Shr, Shl, P2, Or, Num;
    CutTwice(Num(s.input), Pos(s), j);
    LowOfLow(At(Str(s), Pos(s)), j, s.kk);
    s.bitb := Shr(s.bitb, j);
    s.bitk := s.bitk - j;
    s.kk := s.kk - j;
  }

  /** b & inflate_mask[j]: the next j bits of the input. */
  lemma Peek(s: State, j: nat)
    requires BitsOK(s) && j <= s.bitk
    ensures Low(s.bitb, j) == Bits(Str(s), Pos(s), j)
  {
    LowOfLow(At(Str(s), Pos(s)), j, s.kk);
  }

  /** b & inflate_mask[j], then DUMPBITS(j): read j bits. */
  method TakeBits(s: State, j: nat) returns (v: nat)
    requires BitsOK(s) && j <= s.bitk
    modifies s`bitb, s`bitk, s`kk
    ensures BitsOK(s) && Pos(s) == old(Pos(s)) + j && s.bitk == old(s.bitk) - j
    ensures v == Bits(Str(s), old(Pos(s)), j)
  {
    Peek(s, j);
    v := Low(s.bitb, j);
    DumpBits(s, j);
  }

  // ---- The window ----

  /** out is what has been delivered of hist, the rest lies between read and write, and the window
      holds the latest window.Length bytes of hist. */
  ghost predicate WindowOK(s: State)
    reads s`read, s`write, s`hist, s`base, s`out, s`total_out, s`check, s.window
  {
    s.read < s.window.Length && WindowAt(s, s.read)
  }

  /** The same when the first byte to deliver is at r. */
  ghost predicate WindowAt(s: State, r: nat)
    reads s`write, s`hist, s`base, s`out, s`total_out, s`check, s.window
  {
    var w := s.window.Length;
    && 0 < w && r <= w && s.write <= w && |s.hist| == s.base + s.write
    && (s.base == 0 || s.base >= w) && LapStart(s.base, w)
    && (forall j :: 0 <= j < s.write ==> s.window[j] == s.hist[s.base + j])
    && (forall j :: s.write <= j < w && s.base > 0 ==> s.window[j] == s.hist[s.base - w + j])
    && s.out <= s.hist
    && (if r <= s.write then |s.out| == s.base + r else s.base >= w && |s.out| == s.base - w + r)
    && s.total_out == |s.out|
    && (!s.nowrap ==> s.check == Adler(1, s.out))
  }

  /** WAVAIL: how many bytes may be written before the end of the window or the unread bytes. */
  function WAvail(s: State): nat
    reads s`read, s`write
    requires s.write <= s.window.Length
  {
    if s.write < s.read then s.read - s.write - 1 else s.window.Length - s.write
  }

  /** A lap around a window of w bytes begins after base bytes. */
  predicate LapStart(base: nat, w: nat)
    requires w > 0
  {
    base % w == 0
  }

  /** How many bytes can wait in a window of w bytes when n have been delivered: writing must stop short of
      the first unread byte, except at the end of the window. */
  function Capacity(n: nat, w: nat): nat
    requires w > 0
  {
    if n % w == 0 then w else w - 1
  }

  lemma {:induction false} LapsMono(w: nat, j: nat, k: nat)
    requires j < k
    ensures w * j + w <= w * k
  {
    if j + 1 < k {
      LapsMono(w, j, k - 1);
    }
  }

  lemma Remainder(x: nat, w: nat, k: nat, r: nat)
    requires r < w && x == w * k + r
    ensures x % w == r
  {
    var q := x / w;
    assert x == w * q + x % w;
    if q < k {
      LapsMono(w, q, k);
    } else if k < q {
      LapsMono(w, k, q);
    }
  }

  /** Steps from one lap to the next, or back. */
  lemma OneLap(base: nat, w: nat, r: nat)
    requires r < w && LapStart(base, w)
    ensures (base + r) % w == r && LapStart(base + w, w) && LapStart(0, w)
    ensures base >= w ==> LapStart(base - w, w)
  {
    var k := base / w;
    assert base == w * k;
    Remainder(base + r, w, k, r);
    assert base + w == w * (k + 1) by {
      assert w * (k + 1) == w * k + w;
    }
    Remainder(base + w, w, k + 1, 0);
    if base >= w {
      assert k >= 1;
      assert w * k == w * (k - 1) + w;
      Remainder(base - w, w, k - 1, 0);
    }
  }

  lemma NextLap(base: nat, w: nat)
    requires w > 0 && LapStart(base, w)
    ensures LapStart(base + w, w)
  {
    OneLap(base, w, 0);
  }

  /** No more than that waits, and just as much when there is no space left. */
  lemma Waiting(s: State)
    requires WindowOK(s)
    ensures |s.hist| <= |s.out| + Capacity(|s.out|, s.window.Length)
    ensures WAvail(s) == 0 && (s.write == s.window.Length ==> s.read == 0) ==>
              |s.hist| == |s.out| + Capacity(|s.out|, s.window.Length)
  {
    hide Adler, SumA, SumB, LapStart;
    var w := s.window.Length;
    OneLap(s.base, w, s.read);
    if s.read > s.write {
      OneLap(s.base - w, w, s.read);
    }
  }

  /** One copy of inflate_flush: deliver up to the end of the window or to write. */
  method FlushSegment(s: State, to: nat, r0: int) returns (r: int, q: nat)
    requires s.read <= to <= s.window.Length && |s.out| + (to - s.read) <= |s.hist|
    requires s.out <= s.hist && s.window[s.read..to] == s.hist[|s.out|..|s.out| + (to - s.read)]
    requires s.total_out == |s.out| && (!s.nowrap ==> s.check == Adler(1, s.out))
    modifies s`out, s`avail_out, s`total_out, s`check
    ensures s.out <= s.hist && s.total_out == |s.out| && (!s.nowrap ==> s.check == Adler(1, s.out))
    ensures s.read <= q <= to && |s.out| == |old(s.out)| + (q - s.read) && old(s.out) <= s.out
    ensures s.avail_out == old(s.avail_out) - (q - s.read) && (q == to || s.avail_out == 0)
    ensures r == if q > s.read && r0 == Z_BUF_ERROR then Z_OK else r0
  {
    hide Adler, SumA, SumB, LapStart;
    r := r0;
    var n := to - s.read;
    if n > s.avail_out {
      n := s.avail_out;
    }
    if n > 0 && r == Z_BUF_ERROR {
      r := Z_OK;
    }
    var bytes := s.window[s.read..s.read + n];
    assert bytes == s.window[s.read..to][..n];
    assert s.out + bytes == s.hist[..|s.out| + n];
    s.avail_out := s.avail_out - n;
    s.total_out := s.total_out + n;
    AdlerConcat(1, s.out, bytes);
    if !s.nowrap {
      s.check := Adler32.Adler32(s.check, bytes);
    }
    s.out := s.out + bytes;
    q := s.read + n;
  }

  /** What lies between read and to, the end of the window or the write pointer, is what comes next. */
  lemma Unread(s: State, to: nat)
    requires WindowOK(s) && to == if s.read <= s.write then s.write else s.window.Length
    ensures s.read <= to && |s.out| + (to - s.read) <= |s.hist|
    ensures s.window[s.read..to] == s.hist[|s.out|..|s.out| + (to - s.read)]
  {
    hide Adler, SumA, SumB, LapStart;
    var a, b := s.window[s.read..to], s.hist[|s.out|..|s.out| + (to - s.read)];
    forall k | 0 <= k < |a|
      ensures a[k] == b[k]
    {
    }
  }

  /** One copy of inflate_flush, and the wrap-around at the end of the window (zlib/infutil.c:36-60). */
  method Drain(s: State, r0: int) returns (r: int, wrapped: bool)
    requires WindowOK(s)
    modifies s`read, s`write, s`base, s`out, s`avail_out, s`total_out, s`check
    ensures WindowOK(s) && old(s.out) <= s.out
    ensures |s.out| + s.avail_out == |old(s.out)| + old(s.avail_out)
    ensures wrapped ==> s.read == 0 && s.read <= s.write
    ensures s.out == s.hist || s.avail_out == 0 || wrapped
    ensures old(s.read) <= old(s.write) < s.window.Length ==> !wrapped
    ensures r == if |s.out| > |old(s.out)| && r0 == Z_BUF_ERROR then Z_OK else r0
    ensures s.write == old(s.write) || (old(s.write) == s.window.Length && s.write == 0)
    ensures s.write == s.window.Length ==> !wrapped
  {
    hide Adler, SumA, SumB, LapStart;
    Unread(s, if s.read <= s.write then s.write else s.window.Length);
    var q;
    r, q := FlushSegment(s, if s.read <= s.write then s.write else s.window.Length, r0);
    wrapped := q == s.window.Length;
    SetRead(s, q);
  }

  /** if (q == s->end) {q = s->window; if (s->write == s->end) s->write = s->window;}  s->read = q */
  method SetRead(s: State, q: nat)
    requires WindowAt(s, q)
    modifies s`read, s`write, s`base
    ensures WindowOK(s) && s.read == if q == s.window.Length then 0 else q
    ensures if q == s.window.Length == old(s.write) then s.write == 0 else s.write == old(s.write)
  {
    hide Adler, SumA, SumB, LapStart;
    NextLap(s.base, s.window.Length);
    if q == s.window.Length {
      if s.write == s.window.Length {
        s.write, s.base := 0, s.base + s.window.Length;
      }
      s.read := 0;
    } else {
      s.read := q;
    }
  }

  lemma Emptied(s: State)
    requires WindowOK(s)
    ensures (s.read == s.write) <==> (s.out == s.hist)
    ensures s.write == s.window.Length ==> s.read < s.write
  {
    hide Adler, SumA, SumB, LapStart;
  }

  /** inflate_flush: deliver as much as possible in at most two copies. */
  method Flush(s: State, r0: int) returns (r: int)
    requires WindowOK(s)
    modifies s`read, s`write, s`base, s`out, s`avail_out, s`total_out, s`check
    ensures WindowOK(s) && old(s.out) <= s.out
    ensures |s.out| + s.avail_out == |old(s.out)| + old(s.avail_out)
    ensures s.out == s.hist || s.avail_out == 0
    ensures (s.read == s.write) == (s.out == s.hist)
    ensures r == if |s.out| > |old(s.out)| && r0 == Z_BUF_ERROR then Z_OK else r0
    ensures s.write == old(s.write) || (old(s.write) == s.window.Length && s.write == 0)
  {
    hide WindowOK;
    var wrapped;
    r, wrapped := Drain(s, r0);
    Emptied(s);
    if wrapped {
      WriteBound(s);
      r, wrapped := Drain(s, r);
    }
    Emptied(s);
  }

  lemma WriteBound(s: State)
    requires WindowOK(s)
    ensures s.write <= s.window.Length
  {
    hide Adler, SumA, SumB, LapStart;
  }

  /** WRAP */
  method Wrap(s: State)
    requires WindowOK(s)
    modifies s`write, s`base
    ensures WindowOK(s)
    ensures old(s.write) == s.window.Length && s.read != 0 ==> s.write == 0
    ensures !(old(s.write) == s.window.Length && s.read != 0) ==> s.write == old(s.write) && s.base == old(s.base)
  {
    if s.write == s.window.Length && s.read != 0 {
      NextLap(s.base, s.window.Length);
      s.write := 0;
      s.base := s.base + s.window.Length;
    }
  }

  /** NEEDOUT: make room for a byte in the window.  The caller leaves if not ok. */
  method NeedOut(s: State, r0: int) returns (ok: bool, r: int)
    requires WindowOK(s)
    modifies s`read, s`write, s`base, s`out, s`avail_out, s`total_out, s`check
    ensures WindowOK(s) && old(s.out) <= s.out
    ensures |s.out| + s.avail_out == |old(s.out)| + old(s.avail_out)
    ensures ok <==> WAvail(s) > 0
    ensures !ok ==> s.avail_out == 0 && s.out != s.hist
    ensures !ok ==> |s.hist| == |s.out| + Capacity(|s.out|, s.window.Length)
    ensures s.write == old(s.write) || (old(s.write) == s.window.Length && s.write == 0)
    ensures ok ==> r == Z_OK
    ensures !ok ==> r == if |s.out| > |old(s.out)| && r0 == Z_BUF_ERROR then Z_OK else r0
  {
    r := r0;
    if WAvail(s) == 0 {
      Wrap(s);
      if WAvail(s) == 0 {
        r := Flush(s, r);
        Wrap(s);
        if WAvail(s) == 0 {
          Waiting(s);
          return false, r;
        }
      }
    }
    return true, Z_OK;
  }

  /** OUTBYTE(c) */
  method OutByte(s: State, c: byte)
    requires WindowOK(s) && WAvail(s) > 0
    modifies s`write, s`hist, s.window
    ensures WindowOK(s) && s.hist == old(s.hist) + [c]
    ensures s.write == old(s.write) + 1 && WAvail(s) == old(WAvail(s)) - 1
  {
    hide Adler, SumA, SumB, LapStart;
    s.window[s.write] := c;
    s.write := s.write + 1;
    s.hist := s.hist + [c];
  }

  /** zmemcpy(q, p, t): move t bytes of the input to the window. */
  method OutBytes(s: State, p: nat, t: nat)
    requires WindowOK(s) && t <= WAvail(s) && p + t <= |s.input|
    modifies s`write, s`hist, s.window
    ensures WindowOK(s) && s.hist == old(s.hist) + s.input[p..p + t]
    ensures s.write == old(s.write) + t
  {
    hide Adler, SumA, SumB, LapStart;
    var i := 0;
    while i < t
      invariant 0 <= i <= t && WindowOK(s) && WAvail(s) == old(WAvail(s)) - i
      invariant s.write == old(s.write) + i && s.hist == old(s.hist) + s.input[p..p + i]
    {
      OutByte(s, s.input[p + i]);
      i := i + 1;
    }
  }

  // ---- Copying from the history ----

  /** f: where the byte dist back from the write position lies (zlib/infcodes.c:200-202). */
  function Source(write: nat, w: nat, dist: nat): nat
    requires dist <= w && write <= w
  {
    if write < dist then w - (dist - write) else write - dist
  }

  /** The window still holds every byte that a distance may reach. */
  lemma SourceHolds(s: State, dist: nat)
    requires WindowOK(s) && 1 <= dist <= |s.hist| && dist <= s.window.Length
    ensures Source(s.write, s.window.Length, dist) < s.window.Length
    ensures s.window[Source(s.write, s.window.Length, dist)] == s.hist[|s.hist| - dist]
  {
    hide Adler, SumA, SumB, LapStart;
  }
}
