/** From the compressor to the decompressor and back: whatever was compressed, however it is supplied. */
module Restoring {
  import opened BitMath
  import opened Words
  import opened ZLib
  import opened ZlibFormat
  import opened DeflateWriter
  import opened ZlibWriter
  import opened ZlibInflate
  import opened Sessions
  import opened Adler32
  import opened BitStrings
  import Lookahead

  /** Any blocks, written as a zlib stream and decompressed in any portions, come out as they went in; the last
      call says that this is the end (1), once there has been room for everything. */
  method Restore(ps: seq<Part>, wb: nat, level: nat, w: nat, calls: seq<Call>)
      returns (r: int, out: seq<byte>, next: nat)
    requires 8 <= wb <= w <= 15 && level < 4 && AllFormed(ps) && AllFollow(ps, [], P2(wb))
    requires calls != [] && Supply(calls) == |ZlibFile(ps, wb, level)|
    ensures var o := UnpackedAll(ps, [], P2(wb));
            && out == o[..Min(Room(calls), |o|)]
            && (if Room(calls) >= |o| then r == 1 && next == |ZlibFile(ps, wb, level)| else r == 0 || r == -5)
  {
    hide AllFormed, AllFollow, UnpackedAll, ZlibFile, P2, Unwrapped, Zlib;
    var input := ZlibFile(ps, wb, level);
    ZlibRoundTrip(ps, wb, level, [], w, true);
    assert input + [] == input;
    AsZlib(input, w, true);
    r, out, next := Expand(input, w, calls);
  }

  lemma AsZlib(data: seq<byte>, w: nat, looks: bool)
    requires w <= 15
    ensures Unwrapped(data, 0, WindowBits(w), false, looks) == Zlib(data, 0, w, looks)
  {
    hide Zlib;
  }

  /** The same for deflate data without wrapper, with something behind them. */
  method RestoreRaw(ps: seq<Part>, post: seq<byte>, wb: nat, calls: seq<Call>)
      returns (r: int, out: seq<byte>, next: nat)
    requires 8 <= wb <= 15 && AllFormed(ps) && AllFollow(ps, [], P2(wb)) && post != []
    requires calls != [] && Supply(calls) == |RawFile(ps) + post|
    ensures var o := UnpackedAll(ps, [], P2(wb));
            && out == o[..Min(Room(calls), |o|)]
            && (if Room(calls) >= |o| then r == 1 && next == |RawFile(ps)| else r == 0 || r == -5)
  {
    hide AllFormed, AllFollow, UnpackedAll, RawFile, P2, Unwrapped;
    RawRoundTrip(ps, post, wb, true);
    var w: int := -(wb as int);
    r, out, next := Expand(RawFile(ps) + post, w, calls);
  }

  /** With a wrong check value the last call reports an error (-3), once there has been room for everything. */
  method Mistrust(ps: seq<Part>, wb: nat, level: nat, check: nat, w: nat, calls: seq<Call>)
      returns (r: int, out: seq<byte>)
    requires 8 <= wb <= w <= 15 && level < 4 && AllFormed(ps) && AllFollow(ps, [], P2(wb)) && check < ULONG
    requires check != Adler(1, UnpackedAll(ps, [], P2(wb)))
    requires calls != [] && Supply(calls) == 6 + |Packed(PartsBits(ps, 16))|
    requires Room(calls) >= |UnpackedAll(ps, [], P2(wb))|
    ensures r == -3 && out <= UnpackedAll(ps, [], P2(wb))
  {
    hide AllFormed, AllFollow, UnpackedAll, Packed, PartsBits, P2, Unwrapped, Zlib, Bytes, Adler;
    var input := [MethodByte(wb), FlagByte(wb, level, false)] + Packed(PartsBits(ps, 16)) + Bytes(check);
    WrongChecksum(ps, wb, level, check, [], w, true);
    assert input + [] == input;
    AsZlib(input, w, true);
    var next;
    r, out, next := Expand(input, w, calls);
  }

  /** As long as the stream is cut off more input is asked for (0 or -5), and what is delivered is right. */
  method Starve(ps: seq<Part>, wb: nat, level: nat, n: nat, w: nat, calls: seq<Call>)
      returns (r: int, out: seq<byte>)
    requires 8 <= wb <= w <= 15 && level < 4 && AllFormed(ps) && AllFollow(ps, [], P2(wb))
    requires n < |ZlibFile(ps, wb, level)| && calls != [] && Supply(calls) == n
    ensures (r == 0 || r == -5) && out <= UnpackedAll(ps, [], P2(wb))
  {
    hide AllFormed, AllFollow, UnpackedAll, ZlibFile, P2, Unwrapped, Zlib;
    var input := ZlibFile(ps, wb, level)[..n];
    ZlibCut(ps, wb, level, n, w);
    AsZlib(input, w, true);
    AsZlib(input, w, false);
    Lookahead.NeverAhead(input, 0, w, false);
    var next;
    r, out, next := Expand(input, w, calls);
  }

  /** rs are what calls return on a stream that asks for a preset dictionary, call n being the one that finds
      out: that nothing happens (0 or -5), that a dictionary is needed (2), that there is none (-2), and
      errors (-3) for good. */
  predicate Asking(rs: seq<int>, n: nat) {
    && n < |rs| && rs[n] == 2
    && (forall k :: 0 <= k < n ==> rs[k] == 0 || rs[k] == -5)
    && (n + 1 < |rs| ==> rs[n + 1] == -2)
    && forall k :: n + 1 < k < |rs| ==> rs[k] == -3
  }

  lemma {:induction false} NotAsked(rs: seq<int>)
    requires InTurn(rs) && Last(rs) != 2 && Last(rs) != -2 && Last(rs) != -3
    ensures forall k :: 0 <= k < |rs| ==> rs[k] == 0 || rs[k] == -5
    decreases |rs|
  {
    if rs != [] {
      NotAsked(rs[..|rs| - 1]);
    }
  }

  lemma {:induction false} AskedOnce(rs: seq<int>) returns (n: nat)
    requires InTurn(rs) && rs != [] && (Last(rs) == 2 || Last(rs) == -2 || Last(rs) == -3)
    ensures Asking(rs, n)
    decreases |rs|
  {
    var front := rs[..|rs| - 1];
    if Last(rs) == 2 {
      n := |rs| - 1;
      NotAsked(front);
    } else {
      n := AskedOnce(front);
    }
  }

  /** A stream that asks for a preset dictionary. */
  method Ask(wb: nat, level: nat, id: nat, post: seq<byte>, w: nat, calls: seq<Call>)
      returns (rs: seq<int>, out: seq<byte>)
    requires 8 <= wb <= w <= 15 && level < 4 && id < ULONG
    requires calls != [] && Supply(calls) == 6 + |post|
    ensures |rs| == |calls| && out == [] && exists n :: Asking(rs, n)
  {
    hide P2, Unwrapped, Zlib, Bytes, ZlibInflate.Valid, Exposed, InTurn;
    var input := [MethodByte(wb), FlagByte(wb, level, true)] + Bytes(id) + post;
    DictionaryWanted(wb, level, id, post, w, true);
    AsZlib(input, w, true);
    var r, i;
    r, i := InflateInit2(input, 0, w);
    rs, r := Run(i, calls);
    out := i.z.out;
    var n := AskedOnce(rs);
  }

  /** Windows of 2^8 to 2^15 bytes are accepted (0), with a wrapper or, for a negative w, without; others are
      not (-2). */
  method Begin(input: seq<byte>, w: int) returns (r: int)
    requires Unwrapped(input, 0, if w < 0 then -w else w, w < 0, true) != Unspecified
    ensures r == if 8 <= w <= 15 || -15 <= w <= -8 then 0 else -2
  {
    hide Unwrapped;
    var i;
    r, i := InflateInit2(input, 0, w);
  }
}
