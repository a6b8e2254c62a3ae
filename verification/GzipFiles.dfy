/** A gzip file as a compressor writes it (RFC 1952), and random access to what it holds. */
module GzipFiles {
  import opened BitMath
  import opened ZLib
  import opened ZlibFormat
  import opened BitStrings
  import opened DeflateWriter
  import opened GzipFormat
  import opened Crc32
  import opened Gzip
  import Checksums
  import GzipWriter
  import Deflate
  import ZlibInflate

  /** The blocks ps behind the header m, with the checksum and the size of the data behind them. */
  function GzipFile(m: GzipWriter.Member, ps: seq<Part>): seq<byte>
    requires m.Valid() && AllFormed(ps) && AllFollow(ps, [], P2(15))
  {
    var out := UnpackedAll(ps, [], P2(15));
    Checksums.CrcBound(out);
    m.Written() + Packed(PartsBits(ps, 8 * |m.Written()|))
    + (Checksums.LowFirst(Crc(0, out)) + Checksums.LowFirst(|out| % 0x1_0000_0000))
  }

  /** The header is found, and behind it the data that went in. */
  lemma GzipRoundTrip(m: GzipWriter.Member, ps: seq<Part>)
    requires m.Valid() && AllFormed(ps) && AllFollow(ps, [], P2(15))
    ensures var f, h, out := GzipFile(m, ps), |m.Written()|, UnpackedAll(ps, [], P2(15));
            && ReadHeader(f) == Body(h)
            && Unwrapped(f, h, 15, true, false) == Done(out, |f| - 8)
  {
    hide Deflate.Block, P2, AllFormed, AllFollow, PartsBits, UnpackedAll, Packed, Crc, Checksums.LowFirst, ReadHeader;
    var f, head, out := GzipFile(m, ps), m.Written(), UnpackedAll(ps, [], P2(15));
    var b := PartsBits(ps, 8 * |head|);
    Checksums.CrcBound(out);
    var tail := Checksums.LowFirst(Crc(0, out)) + Checksums.LowFirst(|out| % 0x1_0000_0000);
    assert f == head + Packed(b) + tail;
    GzipWriter.HeaderSkipped(m, Packed(b) + tail);
    assert f == head + (Packed(b) + tail);
    var s := Deflate.Stream(f, P2(15), false);
    PackedWritten(s, head, b, tail);
    PartsRead(s, 8 * |head|, [], ps);
  }

  /** Nothing before the buffer does harm if it is zero. */
  lemma TameZero(f: seq<byte>)
    ensures Tame(f, 0)
  {
    forall p: nat | p < |f|
      ensures Or(f[p], 0) == f[p]
    {
      OrZero(f[p]);
    }
  }

  /** How many bytes to read, from a place in the data, or from some bytes after, or before, the end of the
      last reading. */
  datatype Request = From(pos: nat, len: nat) | Further(skip: int, len: nat)

  /** Where request n is to be read, the first one being read from the beginning on. */
  function Place(requests: seq<Request>, n: nat): int
    requires n < |requests|
    decreases n
  {
    match requests[n]
    case From(pos, _) => pos
    case Further(skip, _) => skip + if n == 0 then 0 else Place(requests, n - 1) + requests[n - 1].len
  }

  /** Where q is to be read when the last reading ended at end. */
  function Next(q: Request, end: nat): int {
    match q
    case From(pos, _) => pos
    case Further(skip, _) => skip + end
  }

  /** Where request n is to be read, the first one being read from the beginning on, and where it ends. */
  function Start(requests: seq<Request>, n: nat): int
    requires n < |requests|
    decreases n, 1
  {
    Next(requests[n], End(requests, n))
  }

  function End(requests: seq<Request>, n: nat): (e: nat)
    requires n <= |requests|
    decreases n, 0
  {
    if n == 0 then 0
    else
      var p := Start(requests, n - 1);
      if p < 0 then 0 else p + requests[n - 1].len
  }

  /** One request: seek, and then read.  lseek is told 0 for places counted from the beginning, and 1 for
      others. */
  method Serve(bf: BooterFile, q: Request) returns (buf: seq<byte>)
    requires Gzip.Valid(bf) && bf.stream.z.front == 0
    requires 0 <= Next(q, |bf.stream.z.out|) && Next(q, |bf.stream.z.out|) + q.len < |Member(bf).out|
    modifies bf, bf.stream, bf.stream.z, bf.stream.z.window, bf.table, bf.table.entries
    ensures Gzip.Valid(bf) && bf.stream.z.front == 0
    ensures var p := Next(q, |old(bf.stream.z.out)|);
            buf == Member(bf).out[p..p + q.len] && |bf.stream.z.out| == p + q.len
    ensures bf.stream == old(bf.stream) || (fresh(bf.stream) && fresh(bf.stream.z) && fresh(bf.stream.z.window))
  {
    hide Gzip.Valid, Quiet, Tame, ZlibInflate.Spoilt, Unwrapped;
    TameZero(bf.file);
    var n, at;
    match q {
      case From(pos, _) => at := Lseek(bf, pos, 0);
      case Further(skip, _) => at := Lseek(bf, skip, 1);
    }
    n, buf := Read(bf, q.len);
  }

  /** All requests lie within data, before its last byte. */
  predicate Within(requests: seq<Request>, data: seq<byte>) {
    forall i :: 0 <= i < |requests| ==> 0 <= Start(requests, i) && Start(requests, i) + requests[i].len < |data|
  }

  /** The first n answers are what was asked for. */
  predicate Answered(requests: seq<Request>, data: seq<byte>, answers: seq<seq<byte>>, n: nat)
    requires n <= |requests| && Within(requests, data)
  {
    && |answers| == n
    && forall i :: 0 <= i < n ==>
         var p := Start(requests, i); answers[i] == data[p..p + requests[i].len]
  }

  lemma OneAnswered(requests: seq<Request>, data: seq<byte>, answers: seq<seq<byte>>, n: nat)
    requires n < |requests| && Within(requests, data) && Answered(requests, data, answers, n)
    ensures var p := Next(requests[n], End(requests, n));
            && 0 <= p && p + requests[n].len < |data|
            && End(requests, n + 1) == p + requests[n].len
            && Answered(requests, data, answers + [data[p..p + requests[n].len]], n + 1)
  {
    hide Next;
    assert Start(requests, n) == Next(requests[n], End(requests, n));
  }

  lemma NoneAnswered(requests: seq<Request>, data: seq<byte>)
    requires Within(requests, data)
    ensures Answered(requests, data, [], 0) && End(requests, 0) == 0
  {
  }

  /** One request after the other, from the beginning on. */
  method ServeAll(bf: BooterFile, ghost data: seq<byte>, requests: seq<Request>) returns (answers: seq<seq<byte>>)
    requires Member(bf).Done? && Member(bf).out == data && Within(requests, data)
    requires Gzip.Valid(bf) && bf.stream.z.front == 0 && bf.stream.z.out == []
    modifies bf, bf.stream, bf.stream.z, bf.stream.z.window, bf.table, bf.table.entries
    ensures Answered(requests, data, answers, |requests|)
  {
    hide Gzip.Valid, Next, Unwrapped, Start, Answered, Within, End;
    ghost var held := Member(bf);
    answers := [];
    NoneAnswered(requests, data);
    var n := 0;
    while n < |requests|
      invariant n <= |requests| && Gzip.Valid(bf) && bf.stream.z.front == 0 && Member(bf) == held
      invariant bf.stream == old(bf.stream) || (fresh(bf.stream) && fresh(bf.stream.z) && fresh(bf.stream.z.window))
      invariant |bf.stream.z.out| == End(requests, n) && Answered(requests, data, answers, n)
    {
      OneAnswered(requests, data, answers, n);
      var buf := Serve(bf, requests[n]);
      answers, n := answers + [buf], n + 1;
    }
  }

  /** Of a file whose header lies within its first whole buffers, any parts of the data can be read in any
      order, the last byte excepted. */
  method RandomAccess(m: GzipWriter.Member, ps: seq<Part>, requests: seq<Request>) returns (answers: seq<seq<byte>>)
    requires m.Valid() && AllFormed(ps) && AllFollow(ps, [], P2(15)) && UnpackedAll(ps, [], P2(15)) != []
    requires |m.Written()| <= |GzipFile(m, ps)| - |GzipFile(m, ps)| % 4096
    requires Within(requests, UnpackedAll(ps, [], P2(15)))
    ensures Answered(requests, UnpackedAll(ps, [], P2(15)), answers, |requests|)
  {
    hide AllFormed, AllFollow, UnpackedAll, GzipFile, P2, Unwrapped, ReadHeader, Readable, Gzip.Valid, Quiet,
      AtBeginning, Whole, Within, Answered;
    var file := GzipFile(m, ps);
    GzipRoundTrip(m, ps);
    HeaderFound(file, |m.Written()|);
    var bf := Open(file, 0);
    answers := ServeAll(bf, UnpackedAll(ps, [], P2(15)), requests);
  }
}
