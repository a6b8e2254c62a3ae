/** zlib/adler32.c: the Adler-32 checksum (section 9 of RFC 1950). */
module Adler32 {
  import opened ZLib

  const BASE := 65521
  const NMAX := 5552
  const ULONG := 0x1_0000_0000   // sums are kept in 32-bit words

  /** The sum of the bytes, starting at a. */
  function SumA(a: nat, bs: seq<byte>): nat {
    if bs == [] then a else SumA(a, bs[..|bs| - 1]) + bs[|bs| - 1]
  }

  /** The sum of all the values that sum goes through, starting at b. */
  function SumB(a: nat, b: nat, bs: seq<byte>): nat {
    if bs == [] then b else SumB(a, b, bs[..|bs| - 1]) + SumA(a, bs)
  }

  /** The checksum of bs, continued from adler. */
  function Adler(adler: nat, bs: seq<byte>): nat {
    var a, b := adler % 65536, (adler / 65536) % 65536;
    if bs == [] then b * 65536 + a
    else (SumB(a, b, bs) % BASE) * 65536 + SumA(a, bs) % BASE
  }

  // ---- Continuing a sum ----

  lemma ModAdd(x: int, y: int, z: int)
    requires x % BASE == y % BASE
    ensures (x + z) % BASE == (y + z) % BASE
  {
  }

  lemma ModAdd2(x: int, y: int, z: int, t: int)
    requires x % BASE == y % BASE && z % BASE == t % BASE
    ensures (x + z) % BASE == (y + t) % BASE
  {
    ModAdd(x, y, z);
    ModAdd(z, t, y);
  }

  /** Sums over x + y may be continued from sums over x that are only known modulo BASE. */
  lemma {:induction false} SumsContinue(a: nat, b: nat, x: seq<byte>, a2: nat, b2: nat, y: seq<byte>)
    requires a2 % BASE == SumA(a, x) % BASE && b2 % BASE == SumB(a, b, x) % BASE
    ensures SumA(a2, y) % BASE == SumA(a, x + y) % BASE
    ensures SumB(a2, b2, y) % BASE == SumB(a, b, x + y) % BASE
    decreases |y|
  {
    if y == [] {
      assert x + y == x;
    } else {
      var y' := y[..|y| - 1];
      SumsContinue(a, b, x, a2, b2, y');
      assert (x + y)[..|x + y| - 1] == x + y';
      ModAdd(SumA(a2, y'), SumA(a, x + y'), y[|y| - 1]);
      ModAdd2(SumB(a2, b2, y'), SumB(a, b, x + y'), SumA(a2, y), SumA(a, x + y));
    }
  }

  /** The two sums can be told apart. */
  lemma Unpack(a: nat, b: nat)
    requires a < 65536 && b < 65536
    ensures (b * 65536 + a) % 65536 == a && ((b * 65536 + a) / 65536) % 65536 == b && b * 65536 + a < ULONG
  {
    assert (b * 65536 + a) / 65536 == b;
  }

  /** The checksum of a concatenation is the checksum of the second part continued from the first. */
  lemma AdlerConcat(adler: nat, x: seq<byte>, y: seq<byte>)
    requires adler < ULONG
    ensures Adler(adler, x) < ULONG && Adler(Adler(adler, x), y) == Adler(adler, x + y)
  {
    hide SumA, SumB;
    var a, b := adler % 65536, (adler / 65536) % 65536;
    if x == [] {
      assert x + y == y;
      Unpack(a, b);
      assert Adler(adler, x) == b * 65536 + a;
    } else {
      var a', b' := SumA(a, x) % BASE, SumB(a, b, x) % BASE;
      Unpack(a', b');
      assert Adler(adler, x) == b' * 65536 + a';
      if y == [] {
        assert x + y == x;
      } else {
        SumsContinue(a, b, x, a', b', y);
      }
    }
  }

  // ---- No sum overflows ----

  function Triangle(n: nat): nat {
    if n == 0 then 0 else Triangle(n - 1) + n
  }

  lemma {:induction false} TriangleIs(n: nat)
    ensures 2 * Triangle(n) == n * (n + 1)
  {
    if n > 0 {
      TriangleIs(n - 1);
    }
  }

  lemma {:induction false} TriangleMono(m: nat, n: nat)
    requires m <= n
    ensures Triangle(m) <= Triangle(n)
  {
    if m < n {
      TriangleMono(m, n - 1);
    }
  }

  /** NMAX bytes can be summed up from any 16-bit sums without reaching 2^32. */
  lemma NoOverflow(n: nat)
    requires n <= NMAX
    ensures 65535 + 255 * n < ULONG && 65535 * (n + 1) + 255 * Triangle(n) < ULONG
  {
    hide Triangle;
    TriangleIs(NMAX);
    TriangleMono(n, NMAX);
  }

  lemma SumStep(a: nat, b: nat, bs: seq<byte>, i: nat)
    requires i < |bs|
    ensures SumA(a, bs[..i + 1]) == SumA(a, bs[..i]) + bs[i]
    ensures SumB(a, b, bs[..i + 1]) == SumB(a, b, bs[..i]) + SumA(a, bs[..i + 1])
  {
    assert bs[..i + 1][..i] == bs[..i];
  }

  /** One pass of the inner loops: sum up n bytes of buf from position i on.  s1 and s2 never
      leave the range of a 32-bit word. */
  method SumChunk(buf: seq<byte>, i: nat, n: nat, a: nat, b: nat) returns (s1: nat, s2: nat)
    requires n <= NMAX && i + n <= |buf| && a < 65536 && b < 65536
    ensures s1 == SumA(a, buf[i..i + n]) && s2 == SumB(a, b, buf[i..i + n])
  {
    hide SumA, SumB;
    var bs := buf[i..i + n];
    s1, s2 := a, b;
    var k, p := n, 0;
    NothingSummed(a, b);
    while k >= 16
      invariant k == n - p && 0 <= p <= n
      invariant s1 == SumA(a, bs[..p]) && s2 == SumB(a, b, bs[..p])
      invariant s1 <= 65535 + 255 * p && s2 <= 65535 * (p + 1) + 255 * Triangle(p)
    {
      s1, s2 := Sum16(bs, p, a, b, s1, s2);
      p := p + 16;
      k := k - 16;
    }
    while k != 0
      invariant k == n - p && 0 <= p <= n
      invariant s1 == SumA(a, bs[..p]) && s2 == SumB(a, b, bs[..p])
      invariant s1 <= 65535 + 255 * p && s2 <= 65535 * (p + 1) + 255 * Triangle(p)
    {
      NoOverflow(p + 1);
      SumStep(a, b, bs, p);
      s1 := s1 + bs[p];
      s2 := s2 + s1;
      assert s1 < ULONG && s2 < ULONG;
      p := p + 1;
      k := k - 1;
    }
    assert bs[..n] == bs;
  }

  /** DO16. */
  method Sum16(bs: seq<byte>, p: nat, ghost a: nat, ghost b: nat, t1: nat, t2: nat) returns (s1: nat, s2: nat)
    requires |bs| <= NMAX && p + 16 <= |bs| && a < 65536 && b < 65536
    requires t1 == SumA(a, bs[..p]) && t2 == SumB(a, b, bs[..p])
    requires t1 <= 65535 + 255 * p && t2 <= 65535 * (p + 1) + 255 * Triangle(p)
    ensures s1 == SumA(a, bs[..p + 16]) && s2 == SumB(a, b, bs[..p + 16])
    ensures s1 <= 65535 + 255 * (p + 16) && s2 <= 65535 * (p + 17) + 255 * Triangle(p + 16)
  {
    hide SumA, SumB;
    s1, s2 := t1, t2;
    for j := p to p + 16
      invariant s1 == SumA(a, bs[..j]) && s2 == SumB(a, b, bs[..j])
      invariant s1 <= 65535 + 255 * j && s2 <= 65535 * (j + 1) + 255 * Triangle(j)
    {
      NoOverflow(j + 1);
      SumStep(a, b, bs, j);
      s1 := s1 + bs[j];
      s2 := s2 + s1;
      assert s1 < ULONG && s2 < ULONG;
    }
  }

  /** Between reductions s1 and s2 stand for the sums over the first i bytes. */
  ghost predicate Reduced(a: nat, b: nat, buf: seq<byte>, i: nat, s1: nat, s2: nat)
    requires i <= |buf|
  {
    && s1 % BASE == SumA(a, buf[..i]) % BASE && s2 % BASE == SumB(a, b, buf[..i]) % BASE
    && if i == 0 then s1 == a && s2 == b else s1 < BASE && s2 < BASE
  }

  lemma ReducedNext(a: nat, b: nat, buf: seq<byte>, i: nat, k: nat, s1: nat, s2: nat)
    requires 0 < k && i + k <= |buf| && Reduced(a, b, buf, i, s1, s2)
    ensures Reduced(a, b, buf, i + k, SumA(s1, buf[i..i + k]) % BASE, SumB(s1, s2, buf[i..i + k]) % BASE)
  {
    hide SumA, SumB;
    SumsContinue(a, b, buf[..i], s1, s2, buf[i..i + k]);
    assert buf[..i] + buf[i..i + k] == buf[..i + k];
  }

  lemma ReducedAll(adler: nat, buf: seq<byte>, s1: nat, s2: nat)
    requires Reduced(adler % 65536, (adler / 65536) % 65536, buf, |buf|, s1, s2)
    ensures s2 * 65536 + s1 == Adler(adler, buf) < ULONG
  {
    hide SumA, SumB;
    assert buf[..|buf|] == buf;
  }

  /** adler32: the sums are reduced only every NMAX bytes. */
  method Adler32(adler: nat, buf: seq<byte>) returns (r: nat)
    requires adler < ULONG
    ensures r == Adler(adler, buf) < ULONG
  {
    hide SumA, SumB, Adler;
    var s1: nat, s2: nat := adler % 65536, (adler / 65536) % 65536;
    ghost var a, b := s1, s2;
    var len, i := |buf|, 0;
    NothingSummed(a, b);
    while len > 0
      invariant 0 <= i && 0 <= len && len + i == |buf| && s1 < 65536 && s2 < 65536 && Reduced(a, b, buf, i, s1, s2)
    {
      var k := if len < NMAX then len else NMAX;
      len := len - k;
      ReducedNext(a, b, buf, i, k, s1, s2);
      s1, s2 := SumChunk(buf, i, k, s1, s2);
      i := i + k;
      s1 := s1 % BASE;
      s2 := s2 % BASE;
    }
    ReducedAll(adler, buf, s1, s2);
    r := s2 * 65536 + s1;
  }

  lemma NothingSummed(a: nat, b: nat)
    ensures SumA(a, []) == a && SumB(a, b, []) == b
  {
  }
}
