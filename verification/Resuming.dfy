/** After damaged data: the marker is what a flush leaves behind, and from there on decompression can go on. */
module Resuming {
  import opened BitMath
  import opened Deflate
  import opened ZLib
  import opened ZlibFormat
  import opened BitStrings
  import opened DeflateWriter
  import opened ZlibInflate
  import opened InflateSync
  import RoundTrips

  lemma FirstByte(b: byte, d: seq<byte>)
    ensures BytesBits([b] + d) == Lsb(b, 8) + BytesBits(d)
  {
    assert ([b] + d)[1..] == d;
  }

  lemma FourBytes(a: byte, b: byte, c: byte, d: byte)
    ensures BytesBits([a, b, c, d]) == (Lsb(a, 8) + Lsb(b, 8)) + (Lsb(c, 8) + Lsb(d, 8))
  {
    NoBytes();
    hide Lsb, BytesBits;
    FirstByte(d, []);
    FirstByte(c, [d]);
    FirstByte(b, [c, d]);
    FirstByte(a, [b, c, d]);
    assert [d] + [] == [d] && [c] + [d] == [c, d] && [b] + [c, d] == [b, c, d] && [a] + [b, c, d] == [a, b, c, d];
    var l := Lsb(a, 8) + (Lsb(b, 8) + (Lsb(c, 8) + (Lsb(d, 8) + [])));
    assert l == (Lsb(a, 8) + Lsb(b, 8)) + (Lsb(c, 8) + Lsb(d, 8));
  }

  lemma MarkerBits()
    ensures BytesBits(MARKER) == Lsb(0, 16) + Lsb(0xffff, 16)
  {
    hide Lsb, BytesBits;
    FourBytes(0, 0, 0xff, 0xff);
    LsbHalves(0, 0);
    LsbHalves(0xff, 0xff);
  }

  lemma {:induction false} LsbParts(q: nat, r: nat, a: nat, b: nat)
    requires r < P2(b)
    ensures Lsb(Shl(q, b) + r, a + b) == Lsb(r, b) + Lsb(q, a)
    decreases b
  {
    if b == 0 {
      NoShift(q);
    } else {
      var v := Shl(q, b) + r;
      assert v / 2 == Shl(q, b - 1) + r / 2 && v % 2 == r % 2;
      LsbParts(q, r / 2, a, b - 1);
      assert a + (b - 1) == a + b - 1;
    }
  }

  lemma LsbHalves(q: nat, r: nat)
    requires r < 256
    ensures Lsb(256 * q + r, 16) == Lsb(r, 8) + Lsb(q, 8)
  {
    P2Small();
    RoundTrips.ShlEight(q);
    hide Lsb, Shl, P2;
    LsbParts(q, r, 8, 8);
  }

  /** A flush ends with an empty stored block, and that with the marker. */
  lemma FlushEndsInMarker(s: Stream, pos: nat, last: bool)
    requires Written(s, pos, PartBits(Plain([]), last, pos))
    ensures var p := (pos + |PartBits(Plain([]), last, pos)|) / 8;
            && 8 * p == pos + |PartBits(Plain([]), last, pos)| && 4 <= p <= |s.data| && s.data[p - 4..p] == MARKER
  {
    MarkerBits();
    hide Lsb, Written, BytesBits;
    var h := HeaderBits(Plain([]), last);
    var z := Zeros((8 - (pos + 3) % 8) % 8);
    assert BytesBits([]) == [] by { NoBytes(); }
    var m := Lsb(0, 16) + (Lsb(0xffff, 16) + []);
    assert m == Lsb(0, 16) + Lsb(0xffff, 16);
    assert PartBits(Plain([]), last, pos) == h + (z + m);
    WrittenParts(s, pos, h, z + m);
    WrittenParts(s, pos + 3, z, m);
    assert Align(pos + 3) == pos + 3 + |z|;
    var p := (pos + 3 + |z|) / 8;
    BytesRead(s, p, MARKER);
  }

  lemma NoBytes()
    ensures BytesBits([]) == []
  {
  }

  /** Damaged data, a marker and blocks that look back to nothing before it: the search stops where the
      blocks begin, and they hold what went in. */
  method SkipDamage(damaged: seq<byte>, ps: seq<Part>, post: seq<byte>, portions: seq<nat>) returns (next: nat)
    requires NoneBefore(damaged + MARKER) && AllFormed(ps) && AllFollow(ps, [], P2(15))
    requires Total(portions) == |damaged + MARKER + Packed(PartsBits(ps, 8 * (|damaged| + 4))) + post|
    ensures next == |damaged| + 4
    ensures var input := damaged + MARKER + Packed(PartsBits(ps, 8 * next)) + post;
            Unwrapped(input, next, 15, true, false) == Done(UnpackedAll(ps, [], P2(15)), |input| - |post|)
  {
    hide Block, P2, AllFormed, AllFollow, PartsBits, UnpackedAll, Packed, NoneBefore, EndsWith, Written;
    var b := PartsBits(ps, 8 * (|damaged| + 4));
    var input := damaged + MARKER + Packed(b) + post;
    var s := new SyncStream(input, 0, 0, BLOCKS);
    var found := SyncAll(s, portions);
    next := s.next_in;
    assert input[0..0 + Total(portions)] == input;
    FirstMarker(input, damaged, Packed(b) + post, found, next);
    var t := Stream(input, P2(15), false);
    PackedWritten(t, damaged + MARKER, b, post);
    PartsRead(t, 8 * next, [], ps);
  }

  /** The search stops at the first marker. */
  lemma FirstMarker(input: seq<byte>, damaged: seq<byte>, rest: seq<byte>, found: bool, next: nat)
    requires input == damaged + MARKER + rest && NoneBefore(damaged + MARKER) && next <= |input|
    requires found <==> Occurs(input)
    requires found ==> EndsWith(input[0..next], 4) && NoneBefore(input[0..next])
    ensures found && next == |damaged| + 4
  {
    hide EndsWith;
    Prefixes(input, damaged, rest, next);
    var n := |damaged| + 4;
    if found && next > n {
      assert false;
    }
  }

  lemma Prefixes(input: seq<byte>, damaged: seq<byte>, rest: seq<byte>, next: nat)
    requires input == damaged + MARKER + rest && next <= |input|
    ensures var d, n := damaged + MARKER, |damaged| + 4;
            && EndsWith(input[..n], 4) && EndsWith(d, 4)
            && (next < n ==> d[..next] == input[0..next])
            && (next > n ==> input[0..next][..n] == input[..n])
  {
    var d, n := damaged + MARKER, |damaged| + 4;
    assert input[..n] == d && d[|d| - 4..] == MARKER;
  }
}
