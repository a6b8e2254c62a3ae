/** What a compressor writes around deflate data (RFC 1950), read back; and streams byte by byte. */
module ZlibWriter {
  import opened BitMath
  import opened Words
  import opened Deflate
  import opened ZLib
  import opened ZlibFormat
  import opened BitStrings
  import opened Tokens
  import opened DeflateWriter
  import opened Adler32
  import Lookahead
  import DeflateFacts

  const DEFLATED := 8

  /** Compression method and info: deflate with a window of 2^wb bytes. */
  function MethodByte(wb: nat): byte
    requires 8 <= wb <= 15
  {
    16 * (wb - 8) + DEFLATED
  }

  /** The flags: the level, whether a dictionary is preset, and what makes both bytes a multiple of 31. */
  function FlagByte(wb: nat, level: nat, preset: bool): (f: byte)
    requires 8 <= wb <= 15 && level < 4
    ensures (256 * MethodByte(wb) + f) % 31 == 0 && (f / 32 % 2 == 1 <==> preset) && f / 64 == level
  {
    var v := 64 * level + if preset then 32 else 0;
    var check := Complement(256 * MethodByte(wb) + v);
    FlagBits(level, preset, check);
    v + check
  }

  /** What makes x a multiple of 31. */
  function Complement(x: nat): (c: nat)
    ensures c < 31 && (x + c) % 31 == 0
  {
    if x % 31 == 0 then 0 else 31 - x % 31
  }

  lemma FlagBits(level: nat, preset: bool, check: nat)
    requires level < 4 && check < 31
    ensures var f := 64 * level + (if preset then 32 else 0) + check;
            f < 256 && (f / 32 % 2 == 1 <==> preset) && f / 64 == level
  {
  }

  /** A zlib stream with these blocks. */
  function ZlibFile(ps: seq<Part>, wb: nat, level: nat): seq<byte>
    requires 8 <= wb <= 15 && level < 4 && AllFormed(ps) && AllFollow(ps, [], P2(wb))
  {
    AdlerBound(UnpackedAll(ps, [], P2(wb)));
    [MethodByte(wb), FlagByte(wb, level, false)] + Packed(PartsBits(ps, 16))
    + Bytes(Adler(1, UnpackedAll(ps, [], P2(wb))))
  }

  lemma AdlerBound(d: seq<byte>)
    ensures Adler(1, d) < ULONG
  {
    AdlerConcat(1, d, []);
  }

  // ---- A wider window does no harm ----

  lemma {:induction false} WiderTokens(ts: seq<Token>, out: seq<byte>, w: nat, w2: nat)
    requires AllPossible(ts, out, w) && w <= w2
    ensures AllPossible(ts, out, w2) && ApplyAll(ts, out, w2) == ApplyAll(ts, out, w)
    decreases |ts|
  {
    hide CopyMatch;
    if ts != [] {
      WiderTokens(ts[1..], Apply(ts[0], out, w), w, w2);
    }
  }

  lemma WiderPart(p: Part, out: seq<byte>, w: nat, w2: nat)
    requires Follows(p, out, w) && w <= w2
    ensures Follows(p, out, w2) && Unpacked(p, out, w2) == Unpacked(p, out, w)
  {
    if !p.Plain? {
      WiderTokens(p.ts, out, w, w2);
    }
  }

  lemma {:induction false} WiderParts(ps: seq<Part>, out: seq<byte>, w: nat, w2: nat)
    requires AllFollow(ps, out, w) && w <= w2
    ensures AllFollow(ps, out, w2) && UnpackedAll(ps, out, w2) == UnpackedAll(ps, out, w)
    decreases |ps|
  {
    hide Follows, Unpacked;
    if ps != [] {
      WiderPart(ps[0], out, w, w2);
      WiderParts(ps[1..], Unpacked(ps[0], out, w), w, w2);
    }
  }

  // ---- Reading ----

  lemma ChecksumRead(data: seq<byte>, o: Outcome, pre: seq<byte>, post: seq<byte>)
    requires o.Complete? && Adler(1, o.out) < ULONG && data == pre + Bytes(Adler(1, o.out)) + post
    requires ByteAfter(o.end) == |pre|
    ensures Checked(data, o) == Done(o.out, |pre| + 4)
  {
    hide Adler, Bytes, Word;
    var a := Adler(1, o.out);
    WordOfBytes(a);
    assert data[|pre|..|pre| + 4] == Bytes(a);
    WordMoves(data, |pre|);
  }

  lemma WordMoves(d: seq<byte>, p: nat)
    requires p + 4 <= |d|
    ensures Word(d[p..p + 4], 0) == Word(d, p)
  {
  }

  /** A zlib stream for a window no greater than the decoder's holds what was compressed, whatever follows. */
  lemma ZlibRoundTrip(ps: seq<Part>, wb: nat, level: nat, post: seq<byte>, wbits: nat, looks: bool)
    requires 8 <= wb <= wbits <= 15 && level < 4 && AllFormed(ps) && AllFollow(ps, [], P2(wb))
    ensures Zlib(ZlibFile(ps, wb, level) + post, 0, wbits, looks)
            == Done(UnpackedAll(ps, [], P2(wb)), |ZlibFile(ps, wb, level)|)
  {
    hide Block, P2, AllFormed, AllFollow, PartsBits, UnpackedAll, Packed, Adler, Bytes, Checked;
    var out := UnpackedAll(ps, [], P2(wb));
    var head := [MethodByte(wb), FlagByte(wb, level, false)];
    var b := PartsBits(ps, 16);
    AdlerBound(out);
    var check := Bytes(Adler(1, out));
    var data := ZlibFile(ps, wb, level) + post;
    assert data == head + Packed(b) + (check + post);
    assert data[0] == head[0] && data[1] == head[1];
    var s := Stream(data, P2(wbits), false);
    P2Mono(wb, wbits);
    WiderParts(ps, [], P2(wb), P2(wbits));
    PackedWritten(s, head, b, check + post);
    PartsRead(s, 16, [], ps);
    assert data == (head + Packed(b)) + check + post;
    ChecksumRead(data, Block(s, 16, []), head + Packed(b), post);
    if looks {
      Lookahead.EndSeen(data, 0, wbits, false);
    }
  }

  /** A zlib stream that is cut off anywhere is not taken for a whole one, and none of what is expanded of it
      is wrong. */
  lemma ZlibCut(ps: seq<Part>, wb: nat, level: nat, n: nat, wbits: nat)
    requires 8 <= wb <= wbits <= 15 && level < 4 && AllFormed(ps) && AllFollow(ps, [], P2(wb))
    requires n < |ZlibFile(ps, wb, level)|
    ensures var c := Zlib(ZlibFile(ps, wb, level)[..n], 0, wbits, false);
            c.Short? && c.out <= UnpackedAll(ps, [], P2(wb))
  {
    hide Block, P2, AllFormed, AllFollow, PartsBits, UnpackedAll, Packed, Adler, Bytes, Zlib;
    var data, out := ZlibFile(ps, wb, level), UnpackedAll(ps, [], P2(wb));
    ZlibRoundTrip(ps, wb, level, [], wbits, false);
    assert data + [] == data;
    assert data[0] == MethodByte(wb) && data[1] == FlagByte(wb, level, false);
    CutShort(data, n, wbits, out);
  }

  /** The beginning of whole zlib data. */
  lemma CutShort(data: seq<byte>, n: nat, wbits: nat, out: seq<byte>)
    requires n < |data| && Zlib(data, 0, wbits, false) == Done(out, |data|)
    ensures var c := Zlib(data[..n], 0, wbits, false); c.Short? && c.out <= out
  {
    hide Block, P2, Adler, Word;
    var s, t := Stream(data[..n], P2(wbits), false), Stream(data, P2(wbits), false);
    Lookahead.BlockAgrees(s, t, 16, []);
    DeflateFacts.BlockAhead(t, 16, []);
    DeflateFacts.BlockAhead(s, 16, []);
  }

  /** A check value that is not that of the data is found out, once it is there. */
  lemma WrongChecksum(ps: seq<Part>, wb: nat, level: nat, check: nat, post: seq<byte>, wbits: nat, looks: bool)
    requires 8 <= wb <= wbits <= 15 && level < 4 && AllFormed(ps) && AllFollow(ps, [], P2(wb)) && check < ULONG
    ensures var out := UnpackedAll(ps, [], P2(wb));
            check != Adler(1, out) ==>
              Zlib([MethodByte(wb), FlagByte(wb, level, false)] + Packed(PartsBits(ps, 16)) + Bytes(check) + post,
                   0, wbits, looks) == Corrupt(out, |out|)
  {
    hide Block, P2, AllFormed, AllFollow, PartsBits, UnpackedAll, Packed, Adler, Bytes, Word;
    var out := UnpackedAll(ps, [], P2(wb));
    var head := [MethodByte(wb), FlagByte(wb, level, false)];
    var b := PartsBits(ps, 16);
    var body := head + Packed(b);
    var data := body + Bytes(check) + post;
    assert data == head + Packed(b) + (Bytes(check) + post);
    assert data[0] == head[0] && data[1] == head[1];
    var s, t := Stream(data, P2(wbits), false), Stream(data, P2(wbits), true);
    P2Mono(wb, wbits);
    WiderParts(ps, [], P2(wb), P2(wbits));
    PackedWritten(s, head, b, Bytes(check) + post);
    PartsRead(s, 16, [], ps);
    Lookahead.BlockAgrees(t, s, 16, []);
    WordOfBytes(check);
    assert data[|body|..|body| + 4] == Bytes(check);
    WordMoves(data, |body|);
  }

  /** A preset dictionary is asked for if the header says so, once its number is there. */
  lemma DictionaryWanted(wb: nat, level: nat, id: nat, post: seq<byte>, wbits: nat, looks: bool)
    requires 8 <= wb <= wbits <= 15 && level < 4 && id < ULONG
    ensures Zlib([MethodByte(wb), FlagByte(wb, level, true)] + Bytes(id) + post, 0, wbits, looks) == NeedsDictionary
  {
    hide Block, P2, Bytes;
  }

  /** Another method, a greater window or a wrong check of the two header bytes is refused. */
  lemma HeaderRefused(cm: nat, info: nat, f: byte, rest: seq<byte>, wbits: nat, looks: bool)
    requires cm < 16 && info < 16
    requires cm != DEFLATED || info + 8 > wbits || (256 * (16 * info + cm) + f) % 31 != 0
    ensures Zlib([16 * info + cm, f] + rest, 0, wbits, looks) == Corrupt([], 0)
  {
    hide Block, P2;
    assert (16 * info + cm) % 16 == cm && (16 * info + cm) / 16 == info;
  }
}
