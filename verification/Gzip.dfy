/** gzip.c: reading a compressed file as if it were not, at any position. */
module Gzip {
  import opened BitMath
  import opened Words
  import opened Deflate
  import opened InfUtil
  import opened ZLib
  import opened ZlibFormat
  import opened ZlibInflate
  import opened Crc32
  import opened GzipFormat
  import opened Sessions
  import opened Lookahead
  import InfState

  const Z_BUFSIZE := 4096
  const EOF := -1
  const SEEK_SET := 0
  const SEEK_CUR := 1

  /** struct booter_files, with the file as boot_read delivers it, in order, up to fpos so far.  All reads
      go to one buffer of Z_BUFSIZE bytes; next_in counts in the file, and first is where what the buffer
      holds begins.  astray: next_in does not point to the bytes at hand, because the read that fetched
      them was short, or because there has been none. */
  class BooterFile {
    const file: seq<byte>
    const table: CrcTable
    var stream: Inflater
    var fpos: nat
    var z_err: int
    var z_eof: bool
    var crc: nat
    var transparent: bool
    var astray: bool
    ghost const start: nat   // where the deflate data starts

    constructor (file: seq<byte>, ghost start: nat, front: byte)
      requires start <= |file| && Unwrapped(file, start, 15, true, true) != Unspecified
      ensures stream.z.front == front && stream.z.out == [] && astray && !transparent
      ensures this.file == file && this.start == start && fpos == 0 && !z_eof && z_err == Z_OK && crc == 0
      ensures table.Valid() && fresh(table) && fresh(table.entries) && fresh(stream) && fresh(stream.z)
      ensures fresh(stream.z.window)
      ensures Opening(this) && stream.z.next_in == 0 && Ready(stream, start) && Separate(this)
    {
      hide Block, P2;
      this.file := file;
      table := new CrcTable();
      stream := new Inflater(file, 0, start, -15, front);
      this.start := start;
      fpos, z_err, z_eof, crc, transparent, astray := 0, Z_OK, false, 0, false, true;
    }
  }

  ghost predicate Separate(bf: BooterFile)
    reads bf`stream
  {
    bf.table.entries as object != bf.stream.z.window as object
  }

  /** The part of the file that get_byte can see: it reads whole buffers only. */
  function Readable(file: seq<byte>): seq<byte> {
    file[..|file| - |file| % Z_BUFSIZE]
  }

  /** While the header is being read. */
  ghost predicate Opening(bf: BooterFile)
    reads bf`stream, bf`fpos, bf`z_eof, bf`astray, bf.stream, bf.stream.z, bf.stream.z.window
  {
    var z := bf.stream.z;
    && bf.stream.mode == BLOCKS && z.nowrap && z.input == bf.file && bf.stream.wbits == 15
    && z.first % Z_BUFSIZE == 0 && (!bf.z_eof && bf.fpos > 0 ==> !bf.astray)
    && (!bf.z_eof ==>
          Fresh(z) && bf.fpos == Limit(z) <= |Readable(bf.file)| && bf.fpos % Z_BUFSIZE == 0)
  }

  /** How far the header has been read; beyond the readable part once it has run out. */
  ghost function Cursor(bf: BooterFile): nat
    reads bf`stream, bf`z_eof, bf.stream, bf.stream.z
  {
    if bf.z_eof then |Readable(bf.file)| + 1 else bf.stream.z.next_in
  }

  lemma Chunks(limit: nat, size: nat)
    requires limit % Z_BUFSIZE == 0 && limit <= size
    ensures size - limit >= Z_BUFSIZE <==> limit < size - size % Z_BUFSIZE
    ensures size - limit >= Z_BUFSIZE ==> limit + Z_BUFSIZE <= size - size % Z_BUFSIZE
    ensures size - limit < Z_BUFSIZE ==> limit == size - size % Z_BUFSIZE
  {
  }

  /** boot_read of a buffer; the count is short only at the end of the file, which is noted. */
  method BootRead(bf: BooterFile) returns (n: nat)
    requires bf.fpos <= |bf.file|
    modifies bf`fpos, bf`z_eof
    ensures n == if |bf.file| - old(bf.fpos) < Z_BUFSIZE then |bf.file| - old(bf.fpos) else Z_BUFSIZE
    ensures bf.fpos == old(bf.fpos) + n <= |bf.file| && bf.z_eof == (old(bf.z_eof) || n != Z_BUFSIZE)
  {
    n := if |bf.file| - bf.fpos < Z_BUFSIZE then |bf.file| - bf.fpos else Z_BUFSIZE;
    bf.fpos := bf.fpos + n;
    if n != Z_BUFSIZE {
      bf.z_eof := true;
    }
  }

  /** get_byte. */
  method GetByte(bf: BooterFile) returns (c: int)
    requires Opening(bf)
    modifies bf`fpos, bf`z_eof, bf`astray, bf.stream.z`first, bf.stream.z`avail_in, bf.stream.z`next_in
    ensures Opening(bf)
    ensures var d := Readable(bf.file);
            if old(Cursor(bf)) < |d| then c == d[old(Cursor(bf))] && Cursor(bf) == old(Cursor(bf)) + 1
            else c == EOF && Cursor(bf) == |d| + 1 && bf.z_eof
    ensures c == EOF ==> bf.stream.z.next_in == old(bf.stream.z.next_in)
    ensures c == EOF && old(bf.fpos) == 0 ==> bf.astray == old(bf.astray)
    ensures c == EOF && old(bf.fpos) == 0 && !old(bf.z_eof) ==> bf.stream.z.avail_in == |bf.file| < Z_BUFSIZE
    ensures c != EOF ==> !bf.astray
  {
    hide Opening, Readable;
    if bf.z_eof {
      return EOF;
    }
    OpeningIs(bf);
    if bf.stream.z.avail_in == 0 {
      NextBuffer(bf);
      if bf.z_eof {
        return EOF;
      }
      OpeningIs(bf);
    }
    c := TakeByteOf(bf);
    OpeningIs(bf);
  }

  lemma OpeningIs(bf: BooterFile)
    requires Opening(bf) && !bf.z_eof
    ensures Limit(bf.stream.z) <= |Readable(bf.file)| <= |bf.file| && bf.fpos == Limit(bf.stream.z)
    ensures bf.stream.z.next_in == |Readable(bf.file)| ==> bf.stream.z.avail_in == 0
    ensures bf.fpos > 0 ==> !bf.astray
  {
    hide WindowOK, BitsOK;
  }

  /** Fetch a buffer while the header is being read. */
  method NextBuffer(bf: BooterFile)
    requires Opening(bf) && !bf.z_eof && bf.stream.z.avail_in == 0
    modifies bf`fpos, bf`z_eof, bf`astray, bf.stream.z`first, bf.stream.z`avail_in
    ensures Opening(bf) && (bf.z_eof <==> old(bf.stream.z.next_in) >= |Readable(bf.file)|)
    ensures !bf.z_eof ==> bf.stream.z.avail_in > 0
    ensures bf.z_eof && old(bf.fpos) == 0 ==>
              bf.astray == old(bf.astray) && bf.stream.z.avail_in == |bf.file| < Z_BUFSIZE
  {
    hide WindowOK, Low, Shr, Num;
    Chunks(bf.fpos, |bf.file|);
    var n := BootRead(bf);
    bf.stream.z.first, bf.stream.z.avail_in := bf.stream.z.next_in, n;
    if n == Z_BUFSIZE {
      bf.astray := false;                 // next_in = inbuf
    } else if bf.fpos > n {
      bf.astray := true;                  // next_in is left at the end of the buffer before
    }
  }

  method TakeByteOf(bf: BooterFile) returns (c: byte)
    requires Opening(bf) && !bf.z_eof && bf.stream.z.avail_in > 0
    modifies bf.stream.z`avail_in, bf.stream.z`next_in
    ensures Opening(bf) && bf.stream.z.next_in == old(bf.stream.z.next_in) + 1 <= |Readable(bf.file)|
    ensures c == Readable(bf.file)[old(bf.stream.z.next_in)]
  {
    hide WindowOK, Low, Shr, Num;
    c := InByte(bf.stream.z);
  }

  // ---- check_header ----

  /** (void)get_byte(bf), n times. */
  method SkipBytes(bf: BooterFile, n: nat)
    requires Opening(bf)
    modifies bf`fpos, bf`z_eof, bf`astray, bf.stream.z`first, bf.stream.z`avail_in, bf.stream.z`next_in
    ensures Opening(bf) && Cursor(bf) == Skip(Readable(bf.file), old(Cursor(bf)), n)
  {
    hide Opening, Readable;
    CursorBound(bf);
    var len := 0;
    while len < n
      invariant len <= n && Opening(bf) && Cursor(bf) == Skip(Readable(bf.file), old(Cursor(bf)), len)
    {
      var _ := GetByte(bf);
      len := len + 1;
    }
  }

  lemma CursorBound(bf: BooterFile)
    requires Opening(bf)
    ensures Cursor(bf) <= |Readable(bf.file)| + 1
    ensures bf.z_eof <==> Cursor(bf) == |Readable(bf.file)| + 1
  {
    hide WindowOK;
  }

  /** while (len-- != 0 && get_byte(bf) != EOF), after reading len; a length read past the end of the
      file is garbage, but then the loop ends at once. */
  method SkipExtraField(bf: BooterFile)
    requires Opening(bf)
    modifies bf`fpos, bf`z_eof, bf`astray, bf.stream.z`first, bf.stream.z`avail_in, bf.stream.z`next_in
    ensures Opening(bf) && Cursor(bf) == SkipExtra(Readable(bf.file), old(Cursor(bf)))
  {
    hide Opening, Readable;
    CursorBound(bf);
    ghost var d, p := Readable(bf.file), Cursor(bf);
    var c0 := GetByte(bf);
    var c1 := GetByte(bf);
    var len: nat := (c0 + 256 * c1) % 0x1_0000_0000;
    ghost var n := len;
    while len != 0
      invariant len <= n && Opening(bf) && Cursor(bf) == if p + 2 <= |d| then Skip(d, p + 2, n - len) else |d| + 1
    {
      len := len - 1;
      var c := GetByte(bf);
      if c == EOF {
        break;
      }
    }
  }

  /** while ((c = get_byte(bf)) != 0 && c != EOF) */
  method SkipToZero(bf: BooterFile)
    requires Opening(bf)
    modifies bf`fpos, bf`z_eof, bf`astray, bf.stream.z`first, bf.stream.z`avail_in, bf.stream.z`next_in
    ensures Opening(bf) && Cursor(bf) == SkipString(Readable(bf.file), old(Cursor(bf)))
  {
    hide Opening, Readable;
    CursorBound(bf);
    ghost var d, p := Readable(bf.file), Cursor(bf);
    var c := GetByte(bf);
    while c != 0 && c != EOF
      invariant Opening(bf) && Cursor(bf) <= |d| + 1
      invariant c == EOF ==> Cursor(bf) == |d| + 1 == SkipString(d, p)
      invariant c == 0 ==> Cursor(bf) == SkipString(d, p)
      invariant c != 0 && c != EOF ==> SkipString(d, Cursor(bf)) == SkipString(d, p)
      decreases c != EOF, |d| + 1 - Cursor(bf)
    {
      c := GetByte(bf);
    }
  }

  /** The optional fields of the header. */
  method SkipFields(bf: BooterFile, flags: nat)
    requires Opening(bf) && Cursor(bf) == 4
    modifies bf`fpos, bf`z_eof, bf`astray, bf.stream.z`first, bf.stream.z`avail_in, bf.stream.z`next_in
    ensures Opening(bf) && Cursor(bf) == Fields(Readable(bf.file), flags)
  {
    hide Opening, Readable, Skip, SkipExtra, SkipString, Flag;
    SkipBytes(bf, 6);
    if Flag(flags, 4) {
      SkipExtraField(bf);
    }
    if Flag(flags, 8) {
      SkipToZero(bf);
    }
    if Flag(flags, 16) {
      SkipToZero(bf);
    }
    if Flag(flags, 2) {
      SkipBytes(bf, 2);
    }
  }

  /** Not the magic number: the file is not compressed, and the byte c is given back. */
  method BeTransparent(bf: BooterFile, c: int)
    requires c != EOF ==> bf.stream.z.next_in > 0
    modifies bf`transparent, bf`z_err, bf.stream.z`avail_in, bf.stream.z`next_in
    ensures bf.transparent && bf.z_err == if bf.stream.z.avail_in != 0 then Z_OK else Z_STREAM_END
    ensures bf.stream.z.next_in == old(bf.stream.z.next_in) - if c != EOF then 1 else 0
    ensures bf.stream.z.avail_in == old(bf.stream.z.avail_in) + if c != EOF then 1 else 0
  {
    bf.transparent := true;
    if c != EOF {
      bf.stream.z.avail_in := bf.stream.z.avail_in + 1;
      bf.stream.z.next_in := bf.stream.z.next_in - 1;
    }
    bf.z_err := if bf.stream.z.avail_in != 0 then Z_OK else Z_STREAM_END;
  }

  /** A file without header can be read from its beginning: it is empty, or it fills a buffer and its first
      byte is not the first one of the magic number. */
  predicate Whole(file: seq<byte>) {
    file == [] || (|file| >= Z_BUFSIZE && file[0] != 0x1f)
  }

  /** The bytes at hand, if any, are the first ones of the file. */
  predicate AtBeginning(bf: BooterFile)
    reads bf, bf.stream, bf.stream.z
  {
    bf.stream.z.avail_in == 0 || (!bf.astray && bf.stream.z.next_in == 0)
  }

  /** check_header.  A file without header is read from its beginning if and only if it is empty, or fills
      a buffer and its first byte is not 1f: of a shorter file the bytes are at hand but next_in was never set,
      and otherwise only the byte that differs from the magic number is given back. */
  method CheckHeader(bf: BooterFile)
    requires Opening(bf) && Cursor(bf) == 0 && bf.fpos == 0
    modifies bf`fpos, bf`z_eof, bf`astray, bf`z_err, bf`transparent
    modifies bf.stream.z`first, bf.stream.z`avail_in, bf.stream.z`next_in
    ensures bf.transparent <==> ReadHeader(Readable(bf.file)) == NotGzip
    ensures bf.transparent ==> bf.z_err == if bf.stream.z.avail_in != 0 then Z_OK else Z_STREAM_END
    ensures bf.transparent && old(bf.astray) ==> (AtBeginning(bf) <==> Whole(bf.file))
    ensures ReadHeader(Readable(bf.file)) == Malformed ==> bf.z_err == Z_DATA_ERROR
    ensures var h := ReadHeader(Readable(bf.file));
            h.Body? ==> bf.z_err == Z_OK && Opening(bf) && !bf.z_eof && bf.stream.z.next_in == h.at
  {
    hide Opening, Readable, Fields;
    WholeIs(bf.file);
    CursorBound(bf);
    bf.transparent := false;
    var c := GetByte(bf);
    if c != 0x1f {
      BeTransparent(bf, c);
      return;
    }
    c := GetByte(bf);
    if c != 0x8b {
      BeTransparent(bf, c);
      return;
    }
    var m := GetByte(bf);
    var flags := GetByte(bf);
    if m != 8 || flags == EOF || flags / 32 != 0 {
      bf.z_err := Z_DATA_ERROR;
      return;
    }
    SkipFields(bf, flags);
    CursorBound(bf);
    bf.z_err := if bf.z_eof then Z_DATA_ERROR else Z_OK;
  }

  lemma WholeIs(file: seq<byte>)
    ensures |Readable(file)| >= 2 <==> |file| >= Z_BUFSIZE
    ensures |Readable(file)| < 2 ==> Readable(file) == []
    ensures |file| >= Z_BUFSIZE ==> Readable(file)[0] == file[0]
  {
  }

  /** Files without header that are not read from their beginning: a short one, and one that begins like
      a header. */
  lemma NotWhole()
    ensures var short := [65 as byte]; ReadHeader(Readable(short)) == NotGzip && !Whole(short)
    ensures var long := [0x1f as byte] + seq(Z_BUFSIZE, _ => 0 as byte);
            ReadHeader(Readable(long)) == NotGzip && !Whole(long)
  {
  }

  /** A header is found if and only if the file has one that ends within the whole buffers of the file;
      a file shorter than a buffer is never taken for a compressed one. */
  lemma HeaderFound(file: seq<byte>, h: nat)
    ensures ReadHeader(Readable(file)) == Body(h) <==> ReadHeader(file) == Body(h) && h <= |file| - |file| % Z_BUFSIZE
    ensures |file| < Z_BUFSIZE ==> ReadHeader(Readable(file)) == NotGzip
  {
    hide ReadHeader;
    HeaderWithin(file, Readable(file), h);
    if |file| < Z_BUFSIZE {
      NoHeader();
    }
  }

  lemma NoHeader()
    ensures ReadHeader([]) == NotGzip
  {
  }

  // ---- An open file ----

  /** What the member holds. */
  ghost function Member(bf: BooterFile): Contents {
    if bf.start <= |bf.file| then Unwrapped(bf.file, bf.start, 15, true, true) else Unspecified
  }

  /** The file is one whole gzip member; the header lies in the part that get_byte sees. */
  ghost predicate Compressed(bf: BooterFile) {
    ReadHeader(Readable(bf.file)) == Body(bf.start) && Member(bf).Done? && Member(bf).out != []
  }

  /** Set up to read: position |out| has been reached. */
  ghost predicate Reading(bf: BooterFile)
    reads bf`stream, bf`fpos, bf`z_eof, bf.stream, bf.stream.z, bf.stream.z.window
  {
    var i := bf.stream;
    && ZlibInflate.Valid(i) && i.goal == Member(bf) && i.z.nowrap && i.z.input == bf.file
    && bf.fpos == Limit(i.z) && (bf.z_eof ==> bf.fpos == |bf.file|)
    && i.z.first % Z_BUFSIZE == 0 && (!bf.z_eof ==> bf.fpos % Z_BUFSIZE == 0)
  }

  /** Between calls, with the last byte of the member not yet delivered. */
  ghost predicate Intact(bf: BooterFile)
    reads bf, bf.stream, bf.stream.z, bf.stream.z.window, bf.table, bf.table.entries
  {
    && Compressed(bf) && Separate(bf) && bf.table.Valid() && Reading(bf)
    && !bf.transparent && bf.z_err == Z_OK
    && |bf.stream.z.out| < |Member(bf).out| && bf.crc == Crc(0, bf.stream.z.out)
  }

  /** And nothing is lost that is still needed. */
  ghost predicate Valid(bf: BooterFile)
    reads bf, bf.stream, bf.stream.z, bf.stream.z.window, bf.table, bf.table.entries
  {
    Intact(bf) && !Spoilt(bf.stream)
  }

  // ---- The input buffer is used again ----

  /** No buffer can be left to the front with harm: what stands in front of the buffer adds no bit to the
      last byte of any buffer of the file. */
  predicate Tame(file: seq<byte>, front: byte) {
    forall p: nat {:trigger file[p]} :: p < |file| && (p + 1) % Z_BUFSIZE == 0 ==> Or(file[p], front) == file[p]
  }

  /** The next call of gzboot_read will not leave the buffer to the front.  When it has to fetch a new
      buffer at once, then fewer than eight of the pending bits can be left when something is given back:
      so it is with up to eight bits, and with any number if the decompressor waits for input rather than
      for room. */
  ghost predicate Quiet(bf: BooterFile)
    reads bf`stream, bf.stream, bf.stream.z
  {
    var z := bf.stream.z;
    if z.avail_in == 0 then InfState.Reads(z.mode) ==> z.bitk <= InfState.Slack(z) else InfState.Safe(z)
  }

  /** Seven pending bits never do harm. */
  lemma FewPending(bf: BooterFile)
    requires bf.stream.z.avail_in == 0 && bf.stream.z.bitk <= 7
    ensures Quiet(bf)
  {
    hide InfState.RepeatBits;
  }

  lemma TameKeeps(bf: BooterFile)
    requires Reading(bf) && Tame(bf.file, bf.stream.z.front)
    ensures !Spoilt(bf.stream)
  {
    hide WindowOK, InfState.ModeOK, InfState.BufferOK, InfState.Meaning, Raw, Block, Adler32.Adler;
    if Spoilt(bf.stream) {
      BlocksBits(bf.stream);
      NextToFirst(bf.stream.z);
    }
  }

  lemma BlocksBits(i: Inflater)
    requires ZlibInflate.Valid(i) && i.mode == BLOCKS
    ensures BitsOK(i.z)
  {
    hide WindowOK, InfState.ModeOK, InfState.BufferOK, InfState.Meaning, Raw, Block, BitsOK;
  }

  lemma NextToFirst(z: State)
    requires BitsOK(z) && z.next_in < z.first
    ensures z.next_in + 1 == z.first <= |z.input|
  {
    hide Low, Shr, Num, At;
  }

  /** The failing state.  When inflate_fast has given back what it did not need and eight or more of the
      bits before the buffer are still to come (of fourteen that were pending, say, it used two), then the
      byte that holds them is no longer in memory.  Taking up what stands there spoils the bit buffer if
      and only if it has a bit that the byte did not have. */
  lemma LeftToFront(z: State)
    requires BitsOK(z) && z.avail_in > 0 && z.bitk < 8 && Pos(z) + 8 <= 8 * z.first
    ensures z.next_in == z.first - 1 && Fetched(z) == z.front
    ensures z.bitb == Bits(Str(z), Pos(z), z.kk) && z.bitk + 8 <= z.kk
    ensures Or(z.bitb, Shl(z.front, z.bitk)) == z.bitb <==> Or(z.input[z.next_in], z.front) == z.input[z.next_in]
  {
    hide Low, Shr, Shl, Num, Or, At, P2, Bits;
    FetchedRight(z);
  }

  /** Before the end the blocks are being decompressed, and total_out counts what was delivered. */
  lemma InBlocks(bf: BooterFile)
    requires Compressed(bf) && Reading(bf) && |bf.stream.z.out| < |Member(bf).out|
    ensures bf.stream.mode == BLOCKS && bf.stream.z.total_out == |bf.stream.z.out|
  {
    hide Block, Adler32.Adler, InfState.Carried, InfState.Delivered, Word;
  }

  /** The header has been read: ready to decompress. */
  lemma HeaderRead(bf: BooterFile)
    requires Compressed(bf) && Opening(bf) && !bf.z_eof && bf.stream.z.next_in == bf.start && Ready(bf.stream, bf.start)
    ensures Reading(bf) && bf.stream.z.out == []
  {
    hide Block, WindowOK, Readable, P2, ZlibInflate.Valid;
    Begin(bf.stream);
  }

  lemma AtStart(bf: BooterFile)
    requires Compressed(bf) && Opening(bf) && !bf.z_eof && bf.stream.z.next_in == bf.start && Ready(bf.stream, bf.start)
    requires Separate(bf) && bf.table.Valid() && !bf.transparent && bf.z_err == Z_OK && bf.crc == 0
    ensures Valid(bf) && Quiet(bf) && bf.stream.z.out == []
  {
    hide Block, WindowOK, Readable, P2, ZlibInflate.Valid, Ready, Crc, Reading, Separate, Quiet;
    HeaderRead(bf);
    CrcOfNothing();
    NothingPending(bf.stream.z);
    QuietIs(bf);
  }

  lemma QuietIs(bf: BooterFile)
    ensures InfState.Safe(bf.stream.z) && bf.stream.z.bitk <= InfState.Slack(bf.stream.z) ==> Quiet(bf)
  {
    hide InfState.Slack, InfState.Safe;
  }

  lemma NothingPending(z: State)
    requires Fresh(z)
    ensures z.first <= z.next_in && !Misses(z) && InfState.Safe(z) && z.bitk <= InfState.Slack(z)
  {
    hide WindowOK, Num, Low, Shr;
  }

  /** Where the deflate data starts; at the end of a file that has none, or none whose meaning is defined. */
  ghost function DataStart(file: seq<byte>): (start: nat)
    ensures start <= |file| && Unwrapped(file, start, 15, true, true) != Unspecified
  {
    hide *;
    NoData(file);
    var h := ReadHeader(Readable(file));
    if h.Body? && h.at <= |file| && Unwrapped(file, h.at, 15, true, true) != Unspecified then h.at else |file|
  }

  lemma NoData(file: seq<byte>)
    ensures Unwrapped(file, |file|, 15, true, true) == Short([])
  {
    hide P2;
  }

  /** gzboot_open.  Any file can be opened.  What check_header makes of it is recorded, and a gzip member
      that is whole by the format, and not empty, is ready to be read from position 0. */
  method Open(file: seq<byte>, front: byte) returns (bf: BooterFile)
    ensures fresh(bf) && fresh(bf.table) && fresh(bf.table.entries) && fresh(bf.stream) && fresh(bf.stream.z)
    ensures fresh(bf.stream.z.window)
    ensures bf.file == file && bf.stream.z.front == front && bf.stream.z.out == []
    ensures bf.transparent <==> ReadHeader(Readable(file)) == NotGzip
    ensures bf.transparent ==> (AtBeginning(bf) <==> Whole(file))
    ensures ReadHeader(Readable(file)) == Malformed ==> bf.z_err == Z_DATA_ERROR
    ensures var h := ReadHeader(Readable(file));
            h.Body? ==>
              && bf.z_err == Z_OK && bf.stream.z.next_in == h.at <= |file|
              && (var m := Unwrapped(file, h.at, 15, true, false);
                  m.Done? && m.end < |file| && m.out != [] ==> Valid(bf) && Quiet(bf) && Member(bf) == m)
  {
    hide Block, Readable, Opening, Ready, Valid, Quiet, ReadHeader, Separate, Unwrapped, AtBeginning, Whole;
    ghost var start := DataStart(file);
    bf := new BooterFile(file, start, front);
    CheckHeader(bf);
    var h := ReadHeader(Readable(file));
    if h.Body? {
      OpeningIs(bf);
      var m := Unwrapped(file, h.at, 15, true, false);
      if m.Done? && m.end < |file| && m.out != [] {
        EndSeen(file, h.at, 15, true);
        AtStart(bf);
      }
    }
  }

  // ---- gzboot_read ----

  /** Make sure that there is input, unless the file is used up. */
  method Feed(bf: BooterFile)
    requires Compressed(bf) && Reading(bf)
    modifies bf`fpos, bf`z_eof, bf`astray, bf.stream.z`first, bf.stream.z`avail_in
    ensures Reading(bf) && bf.fpos >= old(bf.fpos) && (old(bf.z_eof) ==> bf.z_eof)
    ensures old(Quiet(bf)) && bf.stream.mode == BLOCKS ==> InfState.Safe(bf.stream.z)
    ensures bf.stream.z.avail_in > 0 || bf.z_eof
    ensures old(bf.stream.z.avail_in) == 0 ==> bf.fpos > old(bf.fpos) || bf.z_eof
    ensures old(bf.stream.z.avail_in) > 0 ==>
              bf.fpos == old(bf.fpos) && bf.stream.z.avail_in == old(bf.stream.z.avail_in)
  {
    hide ZlibInflate.Valid, Compressed, InfState.Slack;
    LimitBound(bf.stream);
    if bf.stream.mode == BLOCKS && bf.stream.z.avail_in == 0 {
      SafeAtLimit(bf);
    }
    if bf.stream.z.avail_in == 0 && !bf.z_eof {
      Refill(bf);
    }
  }

  /** With no input at hand a quiet decompressor is safe in the buffer that it is in. */
  lemma SafeAtLimit(bf: BooterFile)
    requires Compressed(bf) && Reading(bf) && bf.stream.z.avail_in == 0 && bf.stream.mode == BLOCKS
    ensures Quiet(bf) ==> InfState.Safe(bf.stream.z)
  {
    hide ZlibInflate.Valid, Compressed, InfState.Slack, Bits;
    BlocksBits(bf.stream);
  }

  lemma LimitBound(i: Inflater)
    requires ZlibInflate.Valid(i)
    ensures Limit(i.z) <= |i.z.input|
  {
    hide ZlibInflate.ModeOK;
  }

  method Refill(bf: BooterFile)
    requires Reading(bf) && bf.stream.z.avail_in == 0 && !bf.z_eof && Limit(bf.stream.z) <= |bf.file|
    modifies bf`fpos, bf`z_eof, bf`astray, bf.stream.z`first, bf.stream.z`avail_in
    ensures Reading(bf) && bf.fpos >= old(bf.fpos) && (old(Quiet(bf)) ==> InfState.Safe(bf.stream.z))
    ensures bf.stream.z.avail_in > 0 || bf.z_eof
    ensures bf.fpos > old(bf.fpos) || bf.z_eof
  {
    hide ZlibInflate.Valid;
    var n := BootRead(bf);
    Reuse(bf.stream);
    MoreInput(bf.stream, n);
    bf.astray := false;                   // next_in = inbuf
  }

  /** One call of inflate before the end of the member: it fills the buffer, or uses up the input. */
  lemma MustGoOn(bf: BooterFile, r: int)
    requires Compressed(bf) && Reading(bf) && ZlibInflate.Verdict(bf.stream.mode, bf.stream.goal, r)
    requires |bf.stream.z.out| + bf.stream.z.avail_out < |Member(bf).out|
    requires r == Z_OK || r == Z_BUF_ERROR ==> Full(bf.stream) || Hungry(bf.stream) || Spoilt(bf.stream)
    ensures r == Z_OK || r == Z_BUF_ERROR
    ensures bf.stream.z.avail_out == 0 || (bf.stream.z.avail_in == 0 && !bf.z_eof && Quiet(bf)) || Spoilt(bf.stream)
  {
    hide ZlibInflate.Valid, InfState.Slack;
    VerdictMeans(bf.stream, r);
    InBlocks(bf);
  }

  /** One call of inflate by a decompressor that is safe in its buffer. */
  lemma StaySafe(i: Inflater)
    requires i.mode == BLOCKS && InfState.Safe(i.z)
    ensures !Spoilt(i)
  {
    hide InfState.Slack;
  }

  /** bf->z_err = inflate(&(bf->stream), Z_NO_FLUSH) */
  method CallInflate(bf: BooterFile)
    requires Compressed(bf) && Reading(bf) && |bf.stream.z.out| + bf.stream.z.avail_out < |Member(bf).out|
    requires bf.stream.z.avail_out > 0 && (bf.stream.z.avail_in > 0 || bf.z_eof)
    modifies bf`z_err, bf.stream, bf.stream.z, bf.stream.z.window
    ensures Reading(bf) && bf.stream == old(bf.stream) && (bf.z_err == Z_OK || Spoilt(bf.stream))
    ensures |bf.stream.z.out| + bf.stream.z.avail_out == |old(bf.stream.z.out)| + old(bf.stream.z.avail_out)
    ensures old(bf.stream.z.out) <= bf.stream.z.out
    ensures bf.stream.z.avail_out == 0 || (bf.stream.z.avail_in == 0 && !bf.z_eof && Quiet(bf)) || Spoilt(bf.stream)
    ensures old(InfState.Safe(bf.stream.z)) ==> !Spoilt(bf.stream)
  {
    hide ZlibInflate.Valid, Compressed, Quiet, Spoilt, InfState.Safe, Full, Hungry;
    InBlocks(bf);
    bf.z_err := Inflate(bf.stream);
    MustGoOn(bf, bf.z_err);
    InBlocks(bf);
    if InfState.Safe(bf.stream.z) {
      StaySafe(bf.stream);
    }
  }

  /** One pass of the loop of gzboot_read. */
  method Pump(bf: BooterFile)
    requires Compressed(bf) && Reading(bf) && bf.stream.z.avail_out > 0
    requires |bf.stream.z.out| + bf.stream.z.avail_out < |Member(bf).out|
    modifies bf`fpos, bf`z_eof, bf`astray, bf`z_err, bf.stream, bf.stream.z, bf.stream.z.window
    ensures Reading(bf) && bf.stream == old(bf.stream) && (bf.z_err == Z_OK || Spoilt(bf.stream))
    ensures |bf.stream.z.out| + bf.stream.z.avail_out == |old(bf.stream.z.out)| + old(bf.stream.z.avail_out)
    ensures old(bf.stream.z.out) <= bf.stream.z.out
    ensures bf.stream.z.avail_out == 0 || (bf.stream.z.avail_in == 0 && !bf.z_eof && Quiet(bf)) || Spoilt(bf.stream)
    ensures old(Quiet(bf)) ==> !Spoilt(bf.stream)
    ensures bf.fpos >= old(bf.fpos)
    ensures old(bf.stream.z.avail_in) == 0 && bf.stream.z.avail_out > 0 && !Spoilt(bf.stream) ==> bf.fpos > old(bf.fpos)
  {
    hide Reading, Compressed, Quiet, Spoilt, InfState.Safe;
    InBlocks(bf);
    Feed(bf);
    CallInflate(bf);
  }

  /** The bytes of the member from position p on. */
  ghost function Slice(bf: BooterFile, p: nat, n: nat): seq<byte>
    requires Member(bf).Done? && p + n <= |Member(bf).out|
  {
    Member(bf).out[p..p + n]
  }

  /** The loop of gzboot_read: it runs until the buffer is full.  Nothing is claimed about what the C
      program does with a wrong byte; here that ends the loop. */
  method Fill(bf: BooterFile)
    requires Compressed(bf) && Reading(bf) && bf.z_err == Z_OK
    requires |bf.stream.z.out| + bf.stream.z.avail_out < |Member(bf).out| && !Spoilt(bf.stream)
    modifies bf`fpos, bf`z_eof, bf`astray, bf`z_err, bf.stream, bf.stream.z, bf.stream.z.window
    ensures Reading(bf) && bf.stream == old(bf.stream) && (bf.z_err == Z_OK || Spoilt(bf.stream))
    ensures bf.stream.z.avail_out == 0 || Spoilt(bf.stream)
    ensures old(Quiet(bf)) ==> !Spoilt(bf.stream)
    ensures old(bf.stream.z.out) <= bf.stream.z.out
    ensures |bf.stream.z.out| + bf.stream.z.avail_out == |old(bf.stream.z.out)| + old(bf.stream.z.avail_out)
  {
    hide ZlibInflate.Valid, Compressed, Quiet, Spoilt;
    while bf.stream.z.avail_out != 0
      invariant Reading(bf) && bf.stream == old(bf.stream) && (bf.z_err == Z_OK || Spoilt(bf.stream))
      invariant old(bf.stream.z.out) <= bf.stream.z.out
      invariant |bf.stream.z.out| + bf.stream.z.avail_out == |old(bf.stream.z.out)| + old(bf.stream.z.avail_out)
      invariant old(Quiet(bf)) && bf.stream.z.avail_out > 0 ==> Quiet(bf)
      invariant old(Quiet(bf)) ==> !Spoilt(bf.stream)
      decreases bf.stream.z.avail_out != 0, |bf.file| - bf.fpos, bf.stream.z.avail_in
    {
      LimitBound(bf.stream);
      Pump(bf);
      LimitBound(bf.stream);
      if bf.z_err != Z_OK || bf.z_eof || Spoilt(bf.stream) {
        break;
      }
    }
  }

  lemma Delivered(bf: BooterFile)
    requires Compressed(bf) && Reading(bf)
    ensures bf.stream.z.out <= Member(bf).out
  {
    hide ZlibInflate.Valid;
    DeliveredRight(bf.stream);
  }

  /** gzboot_read, up to before the last byte.  What it stores are the next bytes of the member, and they
      are len, unless a byte that was given back has been lost with the buffer it was in.  That never
      happens to a call that begins quietly, and never to a tame file. */
  method Read(bf: BooterFile, len: nat) returns (n: int, buf: seq<byte>)
    requires Valid(bf) && |bf.stream.z.out| + len < |Member(bf).out|
    modifies bf, bf.stream, bf.stream.z, bf.stream.z.window, bf.table, bf.table.entries
    ensures bf.stream == old(bf.stream) && 0 <= n <= len && |bf.stream.z.out| == |old(bf.stream.z.out)| + n
    ensures buf == Slice(bf, |old(bf.stream.z.out)|, n)
    ensures Spoilt(bf.stream) || (Valid(bf) && n == len)
    ensures old(Quiet(bf)) || Tame(bf.file, bf.stream.z.front) ==> !Spoilt(bf.stream)
  {
    hide ZlibInflate.Valid, Crc, Quiet, Spoilt, Tame, Reading, Compressed;
    ghost var before := bf.stream.z.out;
    var start := |bf.stream.z.out|;
    ValidIs(bf);
    Roomy(bf, len);
    Fill(bf);
    Delivered(bf);
    if Tame(bf.file, bf.stream.z.front) {
      TameKeeps(bf);
    }
    buf := bf.stream.z.out[start..];
    CrcConcat(0, before, buf);
    assert before + buf == bf.stream.z.out;
    bf.crc := Crc32.Crc32(bf.table, bf.crc, buf);
    n := len - bf.stream.z.avail_out;
  }

  /** next_out = buf;  avail_out = len */
  method Roomy(bf: BooterFile, len: nat)
    requires Reading(bf)
    modifies bf.stream.z`avail_out
    ensures Reading(bf) && bf.stream.z.avail_out == len
    ensures Quiet(bf) == old(Quiet(bf)) && Spoilt(bf.stream) == old(Spoilt(bf.stream))
  {
    hide ZlibInflate.Valid, InfState.RepeatBits;
    GiveRoom(bf.stream, len);
  }

  // ---- gzboot_lseek ----

  /** boot_lseek to 0 and a new stream (gzip.c:259-278). */
  method Restart(bf: BooterFile)
    requires bf.start <= |bf.file| && Member(bf) != Unspecified
    modifies bf`stream, bf`fpos, bf`z_err, bf`z_eof, bf`crc, bf`astray
    ensures bf.stream.z.front == old(bf.stream.z.front) && bf.fpos == 0
    ensures fresh(bf.stream) && fresh(bf.stream.z) && fresh(bf.stream.z.window)
    ensures Opening(bf) && Ready(bf.stream, bf.start) && bf.stream.z.next_in == 0
    ensures bf.z_err == Z_OK && !bf.z_eof && bf.crc == 0
  {
    hide Block, Raw, Readable, Ready, P2, WindowOK;
    bf.stream := new Inflater(bf.file, 0, bf.start, -15, bf.stream.z.front);
    bf.fpos, bf.z_err, bf.z_eof, bf.crc := 0, Z_OK, false, 0;
    bf.astray := false;                   // next_in = inbuf
  }

  /** Start over from the beginning of the file (gzip.c:258-280). */
  method Rewind(bf: BooterFile)
    requires Valid(bf)
    modifies bf`stream, bf`fpos, bf`z_err, bf`z_eof, bf`crc, bf`astray, bf`transparent
    ensures Valid(bf) && Quiet(bf) && bf.stream.z.out == [] && bf.stream.z.front == old(bf.stream.z.front)
    ensures fresh(bf.stream) && fresh(bf.stream.z) && fresh(bf.stream.z.window)
  {
    hide Readable, Ready, ReadHeader, ZlibInflate.Valid, Unwrapped, Opening, Reading;
    Restart(bf);
    CheckHeader(bf);
    AtStart(bf);
  }

  /** Throw away data up to pos. */
  method SkipTo(bf: BooterFile, pos: nat) returns (ok: bool)
    requires Valid(bf) && |bf.stream.z.out| <= pos < |Member(bf).out|
    modifies bf, bf.stream, bf.stream.z, bf.stream.z.window, bf.table, bf.table.entries
    ensures bf.stream == old(bf.stream)
    ensures Spoilt(bf.stream) || (Valid(bf) && ok && |bf.stream.z.out| == pos)
    ensures Tame(bf.file, bf.stream.z.front) ==> !Spoilt(bf.stream)
  {
    hide Valid, Spoilt, Tame, Quiet;
    ValidIs(bf);
    var toskip := pos - |bf.stream.z.out|;
    while toskip > 0
      invariant Valid(bf) && bf.stream == old(bf.stream) && 0 <= toskip && |bf.stream.z.out| + toskip == pos
    {
      var len := if toskip > Z_BUFSIZE then Z_BUFSIZE else toskip;
      var r, _ := Read(bf, len);
      if r != len || Spoilt(bf.stream) {
        return false;
      }
      toskip := toskip - len;
    }
    ValidIs(bf);
    ok := true;
  }

  lemma ValidIs(bf: BooterFile)
    requires Valid(bf)
    ensures !Spoilt(bf.stream)
  {
    hide Intact, Spoilt;
  }

  lemma Total(bf: BooterFile)
    requires Valid(bf)
    ensures bf.stream.z.total_out == |bf.stream.z.out|
  {
    hide Reading, Compressed;
    InBlocks(bf);
  }

  /** gzboot_lseek, as far as no byte is lost.  The C code compares pos with the unsigned total_out, so
      that a negative position counts as a large one; it is then returned as it is and nothing is skipped. */
  method Lseek(bf: BooterFile, pos: int, whence: int) returns (r: int)
    requires Valid(bf)
    requires whence == SEEK_SET ==> pos < |Member(bf).out|
    requires whence == SEEK_CUR ==> pos + |bf.stream.z.out| < |Member(bf).out|
    modifies bf, bf.stream, bf.stream.z, bf.stream.z.window, bf.table, bf.table.entries
    ensures bf.stream == old(bf.stream) || (fresh(bf.stream) && fresh(bf.stream.z) && fresh(bf.stream.z.window))
    ensures bf.stream.z.front == old(bf.stream.z.front)
    ensures Tame(bf.file, bf.stream.z.front) ==> !Spoilt(bf.stream)
    ensures !Spoilt(bf.stream) ==>
              && Valid(bf)
              && (whence == SEEK_SET ==> r == pos)
              && (whence == SEEK_CUR ==> r == pos + |old(bf.stream.z.out)|)
              && ((whence == SEEK_SET || whence == SEEK_CUR) && r >= 0 ==> |bf.stream.z.out| == r)
              && (whence != SEEK_SET && whence != SEEK_CUR ==> r == -1 && bf.stream == old(bf.stream))
              && (r < 0 ==> |bf.stream.z.out| == |old(bf.stream.z.out)|)
  {
    hide Valid, Spoilt, Tame, Quiet;
    Total(bf);
    ValidIs(bf);
    if whence != SEEK_CUR && whence != SEEK_SET {
      return -1;
    }
    r := if whence == SEEK_CUR then pos + bf.stream.z.total_out else pos;
    if 0 <= r < bf.stream.z.total_out {
      Rewind(bf);
      Total(bf);
      ValidIs(bf);
    }
    if r > bf.stream.z.total_out {
      var ok := SkipTo(bf, r);
      if !ok {
        return -1;
      }
    }
  }

  /** Random access: whatever was read and sought before, seeking to pos and reading len bytes gives
      the bytes pos to pos + len of the decompressed data, if the file is tame; if not, then at least as
      long as no byte has been lost. */
  method ReadAt(bf: BooterFile, pos: nat, len: nat) returns (r: int, buf: seq<byte>)
    requires Valid(bf) && pos + len < |Member(bf).out|
    modifies bf, bf.stream, bf.stream.z, bf.stream.z.window, bf.table, bf.table.entries
    ensures !Spoilt(bf.stream) ==> Valid(bf) && r == len && buf == Member(bf).out[pos..pos + len]
    ensures Tame(bf.file, bf.stream.z.front) ==> !Spoilt(bf.stream)
    ensures bf.stream.z.front == old(bf.stream.z.front)
    ensures bf.stream == old(bf.stream) || (fresh(bf.stream) && fresh(bf.stream.z) && fresh(bf.stream.z.window))
  {
    hide Valid, Spoilt, Tame, Quiet;
    var at := Lseek(bf, pos, SEEK_SET);
    if Spoilt(bf.stream) {
      return -1, [];
    }
    r, buf := Read(bf, len);
  }
}
