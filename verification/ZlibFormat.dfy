/** RFC 1950: the zlib wrapper around deflate data, and deflate data on its own. */
module ZlibFormat {
  import opened BitMath
  import opened Words
  import opened Deflate
  import opened ZLib
  import opened Adler32

  /** Done: the stream is whole and ends at byte end.  Corrupt: it violates the format, or
      its check value is wrong; held bytes of the output may have to be delivered before that is found out.
      NeedsDictionary: it asks for a preset dictionary.  Short: it ends too soon.  Unspecified: the
      deflate data in it is Undefined. */
  datatype Contents =
    | Done(out: seq<byte>, end: nat)
    | Corrupt(out: seq<byte>, held: nat)
    | NeedsDictionary
    | Short(out: seq<byte>)
    | Unspecified

  /** What may be delivered of a stream. */
  function Output(c: Contents): seq<byte> {
    match c
    case Done(out, _) => out
    case Corrupt(out, _) => out
    case Short(out) => out
    case _ => []
  }

  /** The byte after bit position pos, unless pos is at a byte boundary. */
  function ByteAfter(pos: nat): nat { (pos + 7) / 8 }

  /** Deflate data without a wrapper. */
  function Raw(o: Outcome): Contents {
    match o
    case Complete(out, end) => Done(out, ByteAfter(end))
    case Bad(out, held) => Corrupt(out, held)
    case Truncated(out) => Short(out)
    case Undefined => Unspecified
  }

  /** Deflate data followed by the Adler-32 checksum of what it expands to. */
  function Checked(data: seq<byte>, o: Outcome): Contents {
    match Raw(o)
    case Done(out, e) =>
      if e + 4 > |data| then Short(out)
      else if Word(data, e) == Adler(1, out) then Done(out, e + 4)
      else Corrupt(out, |out|)
    case c => c
  }

  /** A zlib stream that starts at byte start, for a window of 2^wbits bytes, as a decoder that looks
      up tables sees it, or as it is. */
  function Zlib(data: seq<byte>, start: nat, wbits: nat, looks: bool): Contents {
    if start >= |data| then Short([])
    else if data[start] % 16 != 8 || data[start] / 16 + 8 > wbits then Corrupt([], 0)
    else if start + 1 >= |data| then Short([])
    else if (data[start] as nat * 256 + data[start + 1]) % 31 != 0 then Corrupt([], 0)
    else if data[start + 1] / 32 % 2 == 1 then (if start + 6 > |data| then Short([]) else NeedsDictionary)
    else Checked(data, Block(Stream(data, P2(wbits), looks), 8 * (start + 2), []))
  }

  /** A stream with or without wrapper. */
  function Unwrapped(data: seq<byte>, start: nat, wbits: nat, nowrap: bool, looks: bool): Contents {
    if nowrap then Raw(Block(Stream(data, P2(wbits), looks), 8 * start, [])) else Zlib(data, start, wbits, looks)
  }
}
