/** zlib/crc32.c: the CRC-32 checksum (section 8 of RFC 1952). */
module Crc32 {
  import opened BitMath
  import opened Words
  import opened ZLib

  // ---- Exclusive or ----

  function Xor(x: nat, y: nat): nat {
    if x == 0 && y == 0 then 0 else (x + y) % 2 + 2 * Xor(x / 2, y / 2)
  }

  lemma XorHalf(x: nat, y: nat)
    ensures Xor(x, y) % 2 == (x + y) % 2 && Xor(x, y) / 2 == Xor(x / 2, y / 2)
  {
    var q := Xor(x / 2, y / 2);
    assert Xor(x, y) == (x + y) % 2 + 2 * q;
    LastBit((x + y) % 2, q);
  }

  lemma FromHalf(x: nat, y: nat)
    requires x % 2 == y % 2 && x / 2 == y / 2
    ensures x == y
  {
  }

  lemma {:induction false} XorZero(x: nat)
    ensures Xor(x, 0) == x && Xor(x, x) == 0
  {
    if x > 0 {
      XorZero(x / 2);
    }
  }

  lemma {:induction false} XorComm(x: nat, y: nat)
    ensures Xor(x, y) == Xor(y, x)
    decreases x + y
  {
    if x + y > 0 {
      XorComm(x / 2, y / 2);
    }
  }

  lemma Parity(x: nat, y: nat, z: nat)
    ensures ((x + y) % 2 + z) % 2 == (x + (y + z) % 2) % 2
  {
  }

  lemma {:induction false} XorAssoc(x: nat, y: nat, z: nat)
    ensures Xor(Xor(x, y), z) == Xor(x, Xor(y, z))
    decreases x + y + z
  {
    hide Xor;
    if x + y + z == 0 {
      XorZero(0);
    } else {
      var a, b := Xor(x, y), Xor(y, z);
      XorAssoc(x / 2, y / 2, z / 2);
      XorHalf(x, y);
      XorHalf(y, z);
      XorHalf(a, z);
      XorHalf(x, b);
      Parity(x, y, z);
      FromHalf(Xor(a, z), Xor(x, b));
    }
  }

  lemma XorCancels(x: nat, p: nat)
    ensures Xor(Xor(x, p), p) == x
  {
    hide Xor;
    XorAssoc(x, p, p);
    XorZero(p);
    XorZero(x);
  }

  /** Equal terms may be moved around. */
  lemma XorSwap(a: nat, b: nat, p: nat, q: nat)
    ensures Xor(Xor(a, p), Xor(b, q)) == Xor(Xor(a, b), Xor(p, q))
  {
    hide Xor;
    XorAssoc(a, p, Xor(b, q));
    XorAssoc(p, b, q);
    XorComm(p, b);
    XorAssoc(b, p, q);
    XorAssoc(a, b, Xor(p, q));
  }

  // ---- The definition, one bit at a time ----

  const POLY := 0xedb8_8320
  const ONES := 0xffff_ffff

  /** Shift the register by one bit. */
  function Shift(c: nat): nat {
    if c % 2 == 1 then Xor(c / 2, POLY) else c / 2
  }

  /** Feed the n lowest bits of b to the register, the lowest first. */
  function Feed(c: nat, b: nat, n: nat): nat
    decreases n
  {
    if n == 0 then c else Feed(Shift(Xor(c, b % 2)), b / 2, n - 1)
  }

  /** The register after the bytes of bs. */
  function Register(c: nat, bs: seq<byte>): nat {
    if bs == [] then c else Feed(Register(c, bs[..|bs| - 1]), bs[|bs| - 1], 8)
  }

  /** The checksum of bs, continued from crc. */
  function Crc(crc: nat, bs: seq<byte>): nat {
    Xor(Register(Xor(crc, ONES), bs), ONES)
  }

  // ---- Laws ----

  lemma {:induction false} RegisterConcat(c: nat, x: seq<byte>, y: seq<byte>)
    ensures Register(c, x + y) == Register(Register(c, x), y)
    decreases |y|
  {
    hide Feed;
    if y == [] {
      assert x + y == x;
    } else {
      assert (x + y)[..|x + y| - 1] == x + y[..|y| - 1];
      RegisterConcat(c, x, y[..|y| - 1]);
    }
  }

  /** The checksum of a concatenation is that of the second part continued from the first. */
  lemma CrcConcat(crc: nat, x: seq<byte>, y: seq<byte>)
    ensures Crc(Crc(crc, x), y) == Crc(crc, x + y)
  {
    hide Register, Xor;
    RegisterConcat(Xor(crc, ONES), x, y);
    XorCancels(Register(Xor(crc, ONES), x), ONES);
  }

  lemma CrcOfNothing()
    ensures Crc(0, []) == 0
  {
    hide Xor;
    XorCancels(0, ONES);
  }

  /** Shifting is linear. */
  lemma ShiftXor(a: nat, b: nat)
    ensures Shift(Xor(a, b)) == Xor(Shift(a), Shift(b))
  {
    hide Xor;
    XorHalf(a, b);
    var x, y := a / 2, b / 2;
    if a % 2 == 1 && b % 2 == 1 {
      XorSwap(x, y, POLY, POLY);
      XorZero(POLY);
      XorZero(Xor(x, y));
    } else if a % 2 == 1 {
      XorAssoc(x, POLY, y);
      XorComm(POLY, y);
      XorAssoc(x, y, POLY);
    } else if b % 2 == 1 {
      XorAssoc(x, y, POLY);
    }
  }

  // ---- A byte at a time ----

  function Shifts(c: nat, n: nat): nat
    decreases n
  {
    if n == 0 then c else Shifts(Shift(c), n - 1)
  }

  lemma {:induction false} ShiftsXor(a: nat, b: nat, n: nat)
    ensures Shifts(Xor(a, b), n) == Xor(Shifts(a, n), Shifts(b, n))
    decreases n
  {
    hide Shift, Xor;
    if n > 0 {
      ShiftXor(a, b);
      ShiftsXor(Shift(a), Shift(b), n - 1);
    }
  }

  /** A number is the sum of its lowest bit and the rest. */
  lemma SplitBit(b: nat)
    ensures Xor(b % 2, b - b % 2) == b
  {
    hide Xor;
    XorHalf(b % 2, b - b % 2);
    XorZero(b / 2);
    XorComm(b / 2, 0);
  }

  lemma FeedBit(c: nat, b: nat)
    ensures Shift(Xor(c, b)) == Xor(Shift(Xor(c, b % 2)), b / 2)
  {
    hide Xor;
    SplitBit(b);
    XorAssoc(c, b % 2, b - b % 2);
    ShiftXor(Xor(c, b % 2), b - b % 2);
  }

  /** Feeding bits one by one is feeding them all at once. */
  lemma {:induction false} FeedIs(c: nat, b: nat, n: nat)
    ensures Shifts(Xor(c, b), n) == Xor(Feed(c, b, n), Shr(b, n))
    decreases n
  {
    hide Shift, Xor, Shr;
    if n > 0 {
      FeedBit(c, b);
      FeedIs(Shift(Xor(c, b % 2)), b / 2, n - 1);
      ShrNext(b, n);
    } else {
      NoBits(b);
    }
  }

  lemma {:induction false} ShiftsZeros(q: nat, n: nat)
    ensures Shifts(Shl(q, n), n) == q
    decreases n
  {
    hide Xor;
    if n > 0 {
      ShlDouble(q, n - 1);
      ShiftsZeros(q, n - 1);
    }
  }

  lemma {:induction false} XorLow(x: nat, y: nat, n: nat)
    ensures Low(Xor(x, y), n) == Xor(Low(x, n), Low(y, n))
    decreases n
  {
    hide Xor, P2, Low;
    if n == 0 {
      XorZero(0);
      NoBits(x);
      NoBits(y);
      NoBits(Xor(x, y));
    } else {
      var l, r := Low(Xor(x, y), n), Xor(Low(x, n), Low(y, n));
      LowHalf(x, n);
      LowHalf(y, n);
      assert l / 2 == r / 2 && l % 2 == r % 2 by {
        XorHalf(x, y);
        XorLow(x / 2, y / 2, n - 1);
        LowHalf(Xor(x, y), n);
        XorHalf(Low(x, n), Low(y, n));
      }
      FromHalf(l, r);
    }
  }

  lemma {:induction false} XorShr(x: nat, y: nat, n: nat)
    ensures Shr(Xor(x, y), n) == Xor(Shr(x, n), Shr(y, n))
    decreases n
  {
    hide Xor, Shr;
    if n == 0 {
      NoBits(x);
      NoBits(y);
      NoBits(Xor(x, y));
    } else {
      XorHalf(x, y);
      ShrNext(x, n);
      ShrNext(y, n);
      ShrNext(Xor(x, y), n);
      XorShr(x / 2, y / 2, n - 1);
    }
  }

  lemma {:induction false} XorBound(x: nat, y: nat, n: nat)
    requires x < P2(n) && y < P2(n)
    ensures Xor(x, y) < P2(n)
    decreases n
  {
    if n == 0 {
      XorZero(0);
    } else {
      XorHalf(x, y);
      XorBound(x / 2, y / 2, n - 1);
    }
  }

  /** The low bits and the rest. */
  lemma SplitLow(x: nat, n: nat)
    ensures Xor(Low(x, n), Shl(Shr(x, n), n)) == x
  {
    hide Low, Shl, Shr;
    ShrLow(x, n);
    XorDisjoint(Low(x, n), Shr(x, n), n);
  }

  lemma {:induction false} XorDisjoint(x: nat, q: nat, n: nat)
    requires x < P2(n)
    ensures Xor(x, Shl(q, n)) == x + Shl(q, n)
    decreases n
  {
    hide Xor;
    if n == 0 {
      XorZero(q);
      XorComm(0, q);
    } else {
      XorHalf(x, Shl(q, n));
      XorDisjoint(x / 2, q, n - 1);
    }
  }

  /** A byte is fed by shifting its sum with the low byte of the register, and adding the rest. */
  lemma FeedByte(c: nat, b: byte)
    ensures Feed(c, b, 8) == Xor(Shifts(Low(Xor(c, b), 8), 8), Shr(c, 8))
  {
    hide Shift, Feed, Shifts, Shr, Low, Shl, Xor, P2;
    var x := Xor(c, b);
    assert P2(8) == 256 by { P2Small(); }
    LowSmall(b, 8);
    FeedIs(c, b, 8);
    XorZero(Feed(c, b, 8));
    XorShr(c, b, 8);
    XorZero(Shr(c, 8));
    SplitLow(x, 8);
    ShiftsXor(Low(x, 8), Shl(Shr(x, 8), 8), 8);
    ShiftsZeros(Shr(x, 8), 8);
  }

  // ---- The table ----

  /** crc_table and crc_table_empty. */
  class CrcTable {
    const entries: array<nat>
    var empty: bool

    constructor ()
      ensures Valid() && fresh(entries)
    {
      entries := new nat[256];
      empty := true;
    }

    /** Once made, entry n is what eight shifts make of n. */
    ghost predicate Valid()
      reads this, entries
    {
      entries.Length == 256 && (!empty ==> forall n :: 0 <= n < 256 ==> entries[n] == Shifts(n, 8))
    }

    /** make_crc_table. */
    method Make()
      requires Valid()
      modifies this, entries
      ensures Valid() && !empty
    {
      hide Shift, Shifts;
      for n := 0 to 256
        invariant entries.Length == 256
        invariant forall j :: 0 <= j < n ==> entries[j] == Shifts(j, 8)
      {
        var c := Entry(n);
        entries[n] := c;
      }
      empty := false;
    }
  }

  /** The inner loop of make_crc_table. */
  method Entry(n: nat) returns (c: nat)
    ensures c == Shifts(n, 8)
  {
    hide Shift, Shifts, Xor;
    c := n;
    for k := 0 to 8
      invariant Shifts(c, 8 - k) == Shifts(n, 8)
    {
      ShiftsNext(c, 8 - k);
      c := if c % 2 == 1 then Xor(POLY, c / 2) else c / 2;
    }
    ShiftsNone(c);
  }

  lemma ShiftsNext(c: nat, n: nat)
    requires n > 0
    ensures Shifts(c, n) == Shifts(if c % 2 == 1 then Xor(POLY, c / 2) else c / 2, n - 1)
  {
    hide Xor;
    XorComm(POLY, c / 2);
  }

  lemma ShiftsNone(c: nat)
    ensures Shifts(c, 0) == c
  {
  }

  /** DO1: one byte by one look at the table. */
  method Do1(t: CrcTable, c: nat, b: byte) returns (r: nat)
    requires t.Valid() && !t.empty
    ensures r == Feed(c, b, 8)
  {
    hide Shift, Feed, Shifts, Xor, P2, Shr, Low;
    FeedByte(c, b);
    assert P2(8) == 256 by { P2Small(); }
    r := Xor(t.entries[Low(Xor(c, b), 8)], Shr(c, 8));
  }

  lemma RegisterNext(c: nat, bs: seq<byte>, i: nat)
    requires i < |bs|
    ensures Register(c, bs[..i + 1]) == Feed(Register(c, bs[..i]), bs[i], 8)
  {
    hide Feed;
    assert bs[..i + 1][..i] == bs[..i];
  }

  /** crc32: the table form computes the checksum. */
  method Crc32(t: CrcTable, crc: nat, buf: seq<byte>) returns (r: nat)
    requires t.Valid()
    modifies t, t.entries
    ensures t.Valid() && r == Crc(crc, buf)
  {
    hide Feed, Register, Xor;
    if t.empty {
      t.Make();
    }
    var c := Xor(crc, ONES);
    ghost var c0 := c;
    RegisterNone(c);
    var len, i := |buf|, 0;
    while len >= 8
      invariant t.Valid() && !t.empty && 0 <= i && 0 <= len && len + i == |buf| && c == Register(c0, buf[..i])
    {
      for j := i to i + 8
        invariant t.Valid() && !t.empty && c == Register(c0, buf[..j])
      {
        RegisterNext(c0, buf, j);
        c := Do1(t, c, buf[j]);
      }
      i, len := i + 8, len - 8;
    }
    while len > 0
      invariant t.Valid() && !t.empty && 0 <= i && 0 <= len && len + i == |buf| && c == Register(c0, buf[..i])
    {
      RegisterNext(c0, buf, i);
      c := Do1(t, c, buf[i]);
      i, len := i + 1, len - 1;
    }
    assert buf[..i] == buf;
    r := Xor(c, ONES);
  }

  lemma RegisterNone(c: nat)
    ensures Register(c, []) == c
  {
  }

  // ---- What the checksum detects ----

  /** A register of 32 bits that is not zero does not become zero. */
  lemma {:induction false} ShiftsKeep(d: nat, n: nat)
    requires 0 < d < P2(32)
    ensures 0 < Shifts(d, n) < P2(32)
    decreases n
  {
    hide P2, Xor;
    if n > 0 {
      ShiftKeeps(d);
      ShiftsKeep(Shift(d), n - 1);
    }
  }

  lemma ShiftKeeps(d: nat)
    requires 0 < d < P2(32)
    ensures 0 < Shift(d) < P2(32)
  {
    hide Xor;
    assert P2(32) == 0x1_0000_0000 by { P2Is32(); }
    if d % 2 == 1 {
      XorBound(d / 2, POLY, 32);
      if Xor(d / 2, POLY) == 0 {
        XorCancels(d / 2, POLY);
        XorZero(POLY);
        XorComm(0, POLY);
        assert false;
      }
    }
  }

  lemma P2Is32()
    ensures P2(32) == 0x1_0000_0000
  {
    assert P2(16) == 65536 by { P2Small(); }
    assert P2(20) == 16 * P2(16);
    assert P2(24) == 16 * P2(20);
    assert P2(28) == 16 * P2(24);
    assert P2(32) == 16 * P2(28);
  }

  lemma {:induction false} FeedLow(c: nat, b: nat, n: nat)
    ensures Feed(c, b, n) == Feed(c, Low(b, n), n)
    decreases n
  {
    hide Shift, Xor;
    if n > 0 {
      assert Low(b, n) % 2 == b % 2 && Low(b, n) / 2 == Low(b / 2, n - 1);
      FeedLow(Shift(Xor(c, b % 2)), b / 2, n - 1);
    }
  }

  lemma {:induction false} FeedSplit(c: nat, b: nat, m: nat, n: nat)
    ensures Feed(c, b, m + n) == Feed(Feed(c, b, m), Shr(b, m), n)
    decreases m
  {
    hide Shift, Xor;
    if m > 0 {
      FeedSplit(Shift(Xor(c, b % 2)), b / 2, m - 1, n);
    }
  }

  /** Feeding bytes is feeding the bits of the word they form. */
  lemma {:induction false} RegisterIsFeed(c: nat, bs: seq<byte>)
    ensures Register(c, bs) == Feed(c, Num(bs), 8 * |bs|)
    decreases |bs|
  {
    hide Shift, Xor, Shl, Shr, Low, P2, Feed;
    if bs == [] {
      FeedNone(c);
    } else {
      assert P2(8) == 256 by { P2Small(); }
      assert bs == [bs[0]] + bs[1..];
      RegisterConcat(c, [bs[0]], bs[1..]);
      RegisterNone(c);
      RegisterNext(c, [bs[0]], 0);
      assert [bs[0]][..1] == [bs[0]] && [bs[0]][..0] == [];
      RegisterIsFeed(Feed(c, bs[0], 8), bs[1..]);
      ShrLowUnique(Num(bs), 8, Num(bs[1..]), bs[0]);
      FeedLow(c, Num(bs), 8);
      LowSmall(bs[0], 8);
      FeedSplit(c, Num(bs), 8, 8 * (|bs| - 1));
    }
  }

  lemma FeedNone(c: nat)
    ensures Feed(c, 0, 0) == c && Num([]) == 0
  {
  }

  lemma XorNonzero(x: nat, y: nat)
    requires Xor(x, y) == 0
    ensures x == y
  {
    hide Xor;
    XorCancels(x, y);
    XorComm(0, y);
    XorZero(y);
  }

  /** How two registers differ after the same n bits, or after different words of n bits. */
  lemma FeedDifference(c: nat, d: nat, v: nat, w: nat, n: nat)
    requires v < P2(n) && w < P2(n)
    ensures Xor(Feed(c, v, n), Feed(d, w, n)) == Shifts(Xor(Xor(c, d), Xor(v, w)), n)
  {
    hide Xor, Feed, Shifts, Shr, P2;
    LowSmall(v, n);
    LowSmall(w, n);
    FeedIs(c, v, n);
    FeedIs(d, w, n);
    XorZero(Feed(c, v, n));
    XorZero(Feed(d, w, n));
    ShiftsXor(Xor(c, v), Xor(d, w), n);
    XorSwap(c, d, v, w);
  }

  lemma {:induction false} DifferenceStays(c: nat, d: nat, bs: seq<byte>)
    requires 0 < Xor(c, d) < P2(32)
    ensures 0 < Xor(Register(c, bs), Register(d, bs)) < P2(32)
    decreases |bs|
  {
    hide Xor, Feed, Shifts, P2;
    if bs != [] {
      var c', d', b := Register(c, bs[..|bs| - 1]), Register(d, bs[..|bs| - 1]), bs[|bs| - 1];
      DifferenceStays(c, d, bs[..|bs| - 1]);
      assert P2(8) == 256 by { P2Small(); }
      FeedDifference(c', d', b, b, 8);
      XorZero(b);
      XorZero(Xor(c', d'));
      ShiftsKeep(Xor(c', d'), 8);
    }
  }

  /** Two data that differ only within a stretch of four bytes have different checksums: every burst
      of at most 32 changed bits in such a stretch is detected. */
  lemma DetectsBursts(crc: nat, before: seq<byte>, x: seq<byte>, y: seq<byte>, after: seq<byte>)
    requires |x| == |y| <= 4 && x != y
    ensures Crc(crc, before + x + after) != Crc(crc, before + y + after)
  {
    hide Xor, Feed, Shifts, P2, Register, Num;
    var c := Register(Xor(crc, ONES), before);
    var n := 8 * |x|;
    RegisterConcat(Xor(crc, ONES), before, x);
    RegisterConcat(Xor(crc, ONES), before, y);
    RegisterConcat(Xor(crc, ONES), before + x, after);
    RegisterConcat(Xor(crc, ONES), before + y, after);
    RegisterIsFeed(c, x);
    RegisterIsFeed(c, y);
    NumBound(x);
    NumBound(y);
    FeedDifference(c, c, Num(x), Num(y), n);
    XorZero(c);
    XorZero(Xor(Num(x), Num(y)));
    XorComm(0, Xor(Num(x), Num(y)));
    if Xor(Num(x), Num(y)) == 0 {
      XorNonzero(Num(x), Num(y));
      NumInjective(x, y);
    }
    XorBound(Num(x), Num(y), n);
    P2Mono(n, 32);
    ShiftsKeep(Xor(Num(x), Num(y)), n);
    DifferenceStays(Register(c, x), Register(c, y), after);
    var rx, ry := Register(Register(c, x), after), Register(Register(c, y), after);
    if Xor(rx, ONES) == Xor(ry, ONES) {
      XorCancels(rx, ONES);
      XorCancels(ry, ONES);
      XorZero(rx);
    }
  }
}
