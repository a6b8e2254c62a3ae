/** Bytes read as numbers, the first byte lowest as deflate does, or highest as in a check value and on
    the m68k. */
module Words {
  import opened BitMath
  import opened ZLib

  /** The bytes as one number, the first byte lowest. */
  function Num(d: seq<byte>): nat {
    if d == [] then 0 else d[0] + Shl(Num(d[1..]), 8)
  }

  lemma {:induction false} NumBound(d: seq<byte>)
    ensures Num(d) < P2(8 * |d|)
  {
    hide Shl, P2;
    if d == [] {
      P2Small();
    } else {
      var n := 8 * (|d| - 1);
      NumBound(d[1..]);
      assert P2(8) == 256 by { P2Small(); }
      ShlMono(Num(d[1..]) + 1, P2(n), 8);
      ShlNext(Num(d[1..]), 8);
      ShlP2(n, 8);
    }
  }

  lemma {:induction false} NumInjective(x: seq<byte>, y: seq<byte>)
    requires |x| == |y| && Num(x) == Num(y)
    ensures x == y
  {
    hide Shl, P2;
    if x != [] {
      assert P2(8) == 256 by { P2Small(); }
      ShrLowUnique(Num(x), 8, Num(x[1..]), x[0]);
      ShrLowUnique(Num(x), 8, Num(y[1..]), y[0]);
      NumInjective(x[1..], y[1..]);
    }
  }

  lemma {:induction false} NumConcat(a: seq<byte>, b: seq<byte>)
    ensures Num(a + b) == Num(a) + Shl(Num(b), 8 * |a|)
  {
    hide Shl, P2;
    if a == [] {
      NoShift(Num(b));
      assert a + b == b;
    } else {
      NumConcat(a[1..], b);
      assert (a + b)[1..] == a[1..] + b;
      var n := 8 * |a[1..]|;
      ShlPlus(Num(a[1..]), Shl(Num(b), n), 8);
      ShlShl(Num(b), n, 8);
    }
  }

  /** The big-endian word at p. */
  function Word(d: seq<byte>, p: nat): (w: nat)
    requires p + 4 <= |d|
    ensures w < 0x1_0000_0000
  {
    d[p] as nat * 0x100_0000 + d[p + 1] as nat * 0x1_0000 + d[p + 2] as nat * 0x100 + d[p + 3]
  }

  /** The four bytes of a word, the highest first. */
  function Bytes(w: nat): (d: seq<byte>)
    requires w < 0x1_0000_0000
    ensures |d| == 4
  {
    [w / 0x100_0000, w / 0x1_0000 % 0x100, w / 0x100 % 0x100, w % 0x100]
  }

  /** The digits of a word, one at a time. */
  lemma WordOfBytes(w: nat)
    requires w < 0x1_0000_0000
    ensures Word(Bytes(w), 0) == w
  {
    hide Word;
    var a, b, c, d := w / 0x100_0000, w / 0x1_0000 % 0x100, w / 0x100 % 0x100, w % 0x100;
    Digit(w, 0x100);
    Digit(w / 0x100, 0x100);
    Digit(w / 0x1_0000, 0x100);
    assert w / 0x100 / 0x100 == w / 0x1_0000 && w / 0x1_0000 / 0x100 == a;
    assert w == a * 0x100_0000 + b * 0x1_0000 + c * 0x100 + d;
    WordIs(Bytes(w), a, b, c, d);
  }

  lemma Digit(x: nat, n: nat)
    requires n > 0
    ensures x == x / n * n + x % n
  {
  }

  lemma WordIs(e: seq<byte>, a: nat, b: nat, c: nat, d: nat)
    requires |e| == 4 && e[0] as nat == a && e[1] as nat == b && e[2] as nat == c && e[3] as nat == d
    ensures Word(e, 0) == a * 0x100_0000 + b * 0x1_0000 + c * 0x100 + d
  {
  }
}
