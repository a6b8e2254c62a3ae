/** What the checksums are of particular data, and what their constants stand for. */
module Checksums {
  import opened BitMath
  import opened Words
  import opened ZLib
  import opened Crc32
  import opened Adler32
  import RoundTrips

  // ---- CRC-32 ----

  lemma HighPowers()
    ensures P2(19) == 0x8_0000 && P2(20) == 0x10_0000 && P2(21) == 0x20_0000 && P2(23) == 0x80_0000
    ensures P2(24) == 0x100_0000 && P2(26) == 0x400_0000 && P2(27) == 0x800_0000 && P2(29) == 0x2000_0000
    ensures P2(30) == 0x4000_0000 && P2(31) == 0x8000_0000
  {
    P2Small();
    assert P2(18) == 4 * P2(16);
    assert P2(20) == 4 * P2(18);
    assert P2(22) == 4 * P2(20);
    assert P2(24) == 4 * P2(22);
    assert P2(26) == 4 * P2(24);
    assert P2(28) == 4 * P2(26);
    assert P2(30) == 4 * P2(28);
  }

  /** The generator polynomial has the terms of zlib/crc32.c, the highest exponent in the lowest bit. */
  lemma PolyIs()
    ensures POLY == P2(31 - 0) + P2(31 - 1) + P2(31 - 2) + P2(31 - 4) + P2(31 - 5) + P2(31 - 7) + P2(31 - 8)
                    + P2(31 - 10) + P2(31 - 11) + P2(31 - 12) + P2(31 - 16) + P2(31 - 22) + P2(31 - 23) + P2(31 - 26)
  {
    HighPowers();
    P2Small();
    hide P2;
  }

  lemma {:induction false} ShiftsLast(c: nat, n: nat)
    ensures Shifts(c, n + 1) == Shift(Shifts(c, n))
    decreases n
  {
    hide Shift;
    if n > 0 {
      ShiftsLast(Shift(c), n - 1);
    } else {
      ShiftsNone(c);
      ShiftsNone(Shift(c));
    }
  }

  lemma {:induction false} ShiftsPower(k: nat, n: nat)
    ensures Shifts(P2(k), k + n) == Shifts(1, n)
    decreases k
  {
    hide Xor;
    if k > 0 {
      assert Shift(P2(k)) == P2(k - 1);
      ShiftsPower(k - 1, n);
    }
  }

  lemma FirstShifts()
    ensures Shift(1) == 0xedb8_8320 && Shift(0xedb8_8320) == 0x76dc_4190 && Shift(0x76dc_4190) == 0x3b6e_20c8
    ensures Shift(0x3b6e_20c8) == 0x1db7_1064 && Shift(0x1db7_1064) == 0x0edb_8832
    ensures Shift(0x0edb_8832) == 0x076d_c419 && Shift(0x076d_c419) == Xor(0x03b6_e20c, 0xedb8_8320)
  {
    hide Xor;
    XorZero(POLY);
    XorComm(0, POLY);
  }

  lemma EntryOfPower(k: nat, n: nat)
    requires k + n == 7
    ensures Shifts(P2(k), 8) == Shift(Shifts(1, n))
  {
    hide Shift, Shifts, P2;
    ShiftsPower(k, n + 1);
    ShiftsLast(1, n);
  }

  /** Entries of crc_table at powers of two.  Every entry is a sum of these and of that at 1 (EntrySum). */
  lemma TableBasis()
    ensures Shifts(128, 8) == 0xedb8_8320 && Shifts(64, 8) == 0x76dc_4190 && Shifts(32, 8) == 0x3b6e_20c8
    ensures Shifts(16, 8) == 0x1db7_1064 && Shifts(8, 8) == 0x0edb_8832 && Shifts(4, 8) == 0x076d_c419
    ensures Shifts(2, 8) == Xor(0x03b6_e20c, 0xedb8_8320) && Shifts(1, 8) == Shift(Xor(0x03b6_e20c, 0xedb8_8320))
  {
    P2Small();
    hide Xor, P2, Shifts, Shift;
    FirstShifts();
    ShiftsNone(1);
    EntryOfPower(7, 0);
    ShiftsLast(1, 0);
    EntryOfPower(6, 1);
    ShiftsLast(1, 1);
    EntryOfPower(5, 2);
    ShiftsLast(1, 2);
    EntryOfPower(4, 3);
    ShiftsLast(1, 3);
    EntryOfPower(3, 4);
    ShiftsLast(1, 4);
    EntryOfPower(2, 5);
    ShiftsLast(1, 5);
    EntryOfPower(1, 6);
    ShiftsLast(1, 6);
    EntryOfPower(0, 7);
  }

  /** The entry of a sum is the sum of the entries. */
  lemma EntrySum(a: nat, b: nat)
    ensures Shifts(Xor(a, b), 8) == Xor(Shifts(a, 8), Shifts(b, 8))
  {
    ShiftsXor(a, b, 8);
  }

  // ---- A checksum behind its data ----

  /** The bytes of a checksum as they are stored in a gzip member, the lowest first. */
  function LowFirst(w: nat): (d: seq<byte>)
    requires w < 0x1_0000_0000
    ensures |d| == 4
  {
    var b := Bytes(w);
    [b[3], b[2], b[1], b[0]]
  }

  lemma LowFirstIs(w: nat)
    requires w < 0x1_0000_0000
    ensures Num(LowFirst(w)) == w
  {
    var d := LowFirst(w);
    WordOfBytes(w);
    assert d[1..][1..][1..][1..] == [];
    assert d[1..][1..][1..][0] == d[3] && d[1..][1..][0] == d[2] && d[1..][0] == d[1];
    RoundTrips.ShlEight(Num(d[1..][1..][1..][1..]));
    RoundTrips.ShlEight(Num(d[1..][1..][1..]));
    RoundTrips.ShlEight(Num(d[1..][1..]));
    RoundTrips.ShlEight(Num(d[1..]));
    hide Shl;
  }

  lemma {:induction false} FeedBound(c: nat, b: nat, n: nat)
    requires c < P2(32)
    ensures Feed(c, b, n) < P2(32)
    decreases n
  {
    hide Xor, Shift, P2;
    if n > 0 {
      XorZero(0);
      assert 2 <= P2(32) by { P2Is32(); }
      XorBound(c, b % 2, 32);
      var x := Xor(c, b % 2);
      if x > 0 {
        ShiftKeeps(x);
      } else {
        assert Shift(0) == 0 by { ShiftOfZero(); }
      }
      FeedBound(Shift(x), b / 2, n - 1);
    }
  }

  lemma ShiftOfZero()
    ensures Shift(0) == 0
  {
  }

  lemma {:induction false} RegisterBound(c: nat, d: seq<byte>)
    requires c < P2(32)
    ensures Register(c, d) < P2(32)
    decreases |d|
  {
    hide Feed, P2;
    if d != [] {
      RegisterBound(c, d[..|d| - 1]);
      FeedBound(Register(c, d[..|d| - 1]), d[|d| - 1], 8);
    }
  }

  lemma CrcBound(d: seq<byte>)
    ensures Crc(0, d) < 0x1_0000_0000
  {
    hide Xor, Register, P2;
    P2Is32();
    XorBound(0, ONES, 32);
    RegisterBound(Xor(0, ONES), d);
    XorBound(Register(Xor(0, ONES), d), ONES, 32);
  }

  /** Feeding the register with four bytes. */
  lemma FourBytes(c: nat, b: seq<byte>)
    requires |b| == 4
    ensures Register(c, b) == Shifts(Xor(c, Num(b)), 32)
  {
    hide Xor, Register, Num, Feed, Shifts, P2, Shr;
    RegisterIsFeed(c, b);
    NumBound(b);
    LowSmall(Num(b), 32);
    FeedIs(c, Num(b), 32);
    XorZero(Feed(c, Num(b), 32));
  }

  lemma FourZeros()
    ensures Num([0, 0, 0, 0]) == 0
  {
    LowFirstIs(0);
    assert LowFirst(0) == [0, 0, 0, 0];
  }

  /** Data with their checksum behind them have the checksum of four zeros, whatever they are. */
  lemma Residue(d: seq<byte>)
    ensures Crc(0, d) < 0x1_0000_0000 && Crc(0, d + LowFirst(Crc(0, d))) == Crc(0, [0, 0, 0, 0])
  {
    hide Xor, Register, Num, Shifts, LowFirst;
    CrcBound(d);
    var c := Register(Xor(0, ONES), d);
    var w := Crc(0, d);
    RegisterConcat(Xor(0, ONES), d, LowFirst(w));
    FourBytes(c, LowFirst(w));
    LowFirstIs(w);
    XorAssoc(c, c, ONES);
    XorZero(c);
    XorComm(0, ONES);
    XorZero(ONES);
    FourBytes(Xor(0, ONES), [0, 0, 0, 0]);
    FourZeros();
  }

  /** Four bytes 255 cancel what the register begins with. */
  lemma AllOnes()
    ensures Crc(0, [0xff, 0xff, 0xff, 0xff]) == 0xffff_ffff
  {
    hide Xor, Register, Num, Shifts, LowFirst;
    LowFirstIs(0xffff_ffff);
    assert LowFirst(0xffff_ffff) == [0xff, 0xff, 0xff, 0xff] by { OnesBytes(); }
    XorComm(0, ONES);
    XorZero(ONES);
    FourBytes(ONES, [0xff, 0xff, 0xff, 0xff]);
    ShiftsOfZero(32);
  }

  lemma OnesBytes()
    ensures LowFirst(0xffff_ffff) == [0xff, 0xff, 0xff, 0xff]
  {
  }

  lemma {:induction false} ShiftsOfZero(n: nat)
    ensures Shifts(0, n) == 0
    decreases n
  {
    hide Shift;
    if n > 0 {
      ShiftOfZero();
      ShiftsOfZero(n - 1);
    }
  }

  // ---- Adler-32 ----

  /** n bytes 255. */
  function Ones(n: nat): (d: seq<byte>)
    ensures |d| == n
  {
    seq(n, _ => 255)
  }

  lemma {:induction false} SumsOfOnes(n: nat)
    ensures SumA(1, Ones(n)) == 1 + 255 * n && SumB(1, 0, Ones(n)) == n + 255 * Triangle(n)
  {
    var d := Ones(n);
    if n > 0 {
      assert d[..n - 1] == Ones(n - 1);
      SumsOfOnes(n - 1);
    }
  }

  /** Of 300 bytes 255 both sums pass 65521. */
  lemma SumsReduced()
    ensures Adler(1, Ones(300)) == 0xb90f_2ae4
  {
    hide SumA, SumB, Triangle;
    SumsOfOnes(300);
    TriangleIs(300);
    assert Triangle(300) == 45150;
  }

  /** NMAX is the greatest number of bytes that can be summed up, from sums below BASE, in 32 bits. */
  lemma GreatestChunk(n: nat)
    ensures (BASE - 1) * (n + 1) + 255 * Triangle(n) < ULONG <==> n <= NMAX
  {
    hide Triangle;
    TriangleIs(NMAX);
    TriangleIs(NMAX + 1);
    if n <= NMAX {
      TriangleMono(n, NMAX);
    } else {
      TriangleMono(NMAX + 1, n);
    }
  }
}
