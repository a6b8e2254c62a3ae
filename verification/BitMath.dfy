/** The C operators << , >> and & inflate_mask[n] on unbounded numbers, defined one bit at a
    time so that reasoning about them stays linear. */
module BitMath {

  /** 2 to the n. */
  function P2(n: nat): (p: nat)
    ensures p >= 1
  {
    if n == 0 then 1 else 2 * P2(n - 1)
  }

  /** x << n. */
  function Shl(x: nat, n: nat): (r: nat)
    ensures r >= x
  {
    if n == 0 then x else 2 * Shl(x, n - 1)
  }

  /** x >> n. */
  function Shr(x: nat, n: nat): nat
    decreases n
  {
    if n == 0 then x else Shr(x / 2, n - 1)
  }

  /** x & inflate_mask[n]: the low n bits. */
  function Low(x: nat, n: nat): (r: nat)
    ensures r < P2(n) && r <= x
    decreases n
  {
    if n == 0 then 0 else x % 2 + 2 * Low(x / 2, n - 1)
  }

  lemma {:induction false} P2Mono(a: nat, b: nat)
    requires a <= b
    ensures P2(a) <= P2(b)
  {
    if a < b {
      P2Mono(a, b - 1);
    }
  }

  lemma P2Small()
    ensures P2(0) == 1 && P2(1) == 2 && P2(2) == 4 && P2(3) == 8 && P2(4) == 16
    ensures P2(5) == 32 && P2(6) == 64 && P2(7) == 128 && P2(8) == 256 && P2(9) == 512
    ensures P2(10) == 1024 && P2(11) == 2048 && P2(12) == 4096 && P2(13) == 8192
    ensures P2(14) == 16384 && P2(15) == 32768 && P2(16) == 65536
  {
    assert P2(4) == 16;
    assert P2(8) == 256;
    assert P2(12) == 4096;
  }

  lemma {:induction false} ShlOne(n: nat)
    ensures Shl(1, n) == P2(n) && Shl(0, n) == 0
  {
    if n > 0 {
      ShlOne(n - 1);
    }
  }

  lemma {:induction false} ShlPlus(x: nat, y: nat, n: nat)
    ensures Shl(x + y, n) == Shl(x, n) + Shl(y, n)
  {
    if n > 0 {
      ShlPlus(x, y, n - 1);
    }
  }

  lemma {:induction false} ShlMono(x: nat, y: nat, n: nat)
    requires x <= y
    ensures Shl(x, n) <= Shl(y, n)
  {
    ShlPlus(x, y - x, n);
  }

  /** Steps of Shl are of size 2^n. */
  lemma ShlNext(x: nat, n: nat)
    ensures Shl(x + 1, n) == Shl(x, n) + P2(n)
  {
    ShlPlus(x, 1, n);
    ShlOne(n);
  }

  lemma {:induction false} ShlShl(x: nat, a: nat, b: nat)
    ensures Shl(Shl(x, a), b) == Shl(x, a + b)
  {
    if b > 0 {
      ShlShl(x, a, b - 1);
      assert a + b - 1 == a + (b - 1);
    }
  }

  lemma ShlP2(a: nat, b: nat)
    ensures Shl(P2(a), b) == P2(a + b)
  {
    ShlOne(a);
    ShlShl(1, a, b);
    ShlOne(a + b);
  }

  lemma {:induction false} ShrLow(x: nat, n: nat)
    ensures x == Shl(Shr(x, n), n) + Low(x, n)
    decreases n
  {
    if n > 0 {
      ShrLow(x / 2, n - 1);
    }
  }

  /** A number is determined by its low bits and the rest. */
  lemma {:induction false} ShrLowUnique(x: nat, n: nat, q: nat, r: nat)
    requires r < P2(n) && x == Shl(q, n) + r
    ensures Shr(x, n) == q && Low(x, n) == r
    decreases n
  {
    if n > 0 {
      ShrLowUnique(x / 2, n - 1, q, r / 2);
    }
  }

  lemma LowSmall(x: nat, n: nat)
    requires x < P2(n)
    ensures Low(x, n) == x && Shr(x, n) == 0
  {
    ShlOne(n);
    ShrLowUnique(x, n, 0, x);
  }

  lemma {:induction false} ShrMono(x: nat, y: nat, n: nat)
    requires x <= y
    ensures Shr(x, n) <= Shr(y, n)
    decreases n
  {
    if n > 0 {
      ShrMono(x / 2, y / 2, n - 1);
    }
  }

  /** Cutting at a and again at b is cutting once at a + b. */
  lemma {:induction false} CutTwice(x: nat, a: nat, b: nat)
    ensures Shr(Shr(x, a), b) == Shr(x, a + b)
    ensures Low(x, a + b) == Low(x, a) + Shl(Low(Shr(x, a), b), a)
    decreases a
  {
    if a > 0 {
      CutTwice(x / 2, a - 1, b);
      assert a + b - 1 == (a - 1) + b;
    }
  }

  /** The low a bits of the low c bits, and the bits a..c of x. */
  lemma LowOfLow(x: nat, a: nat, c: nat)
    requires a <= c
    ensures Low(Low(x, c), a) == Low(x, a)
    ensures Shr(Low(x, c), a) == Low(Shr(x, a), c - a)
  {
    hide Low, Shr, Shl, P2;
    assert a + (c - a) == c;
    CutTwice(x, a, c - a);
    ShrLowUnique(Low(x, c), a, Low(Shr(x, a), c - a), Low(x, a));
  }

  lemma ShlDouble(f: nat, n: nat)
    ensures Shl(2 * f, n) == Shl(f, n + 1)
  {
    ShlShl(f, 1, n);
    assert Shl(f, 1) == 2 * f;
  }

  lemma {:induction false} ShlNarrower(x: nat, a: nat, b: nat)
    requires a <= b
    ensures Shl(x, a) <= Shl(x, b)
  {
    if a < b {
      ShlNarrower(x, a, b - 1);
    }
  }

  /** x | y. */
  function Or(x: nat, y: nat): nat
    decreases x + y
  {
    if x == 0 && y == 0 then 0
    else (if x % 2 == 1 || y % 2 == 1 then 1 else 0) + 2 * Or(x / 2, y / 2)
  }

  lemma OrNext(x: nat, y: nat)
    ensures Or(x, y) == (if x % 2 == 1 || y % 2 == 1 then 1 else 0) + 2 * Or(x / 2, y / 2)
  {
    if x == 0 && y == 0 {
      assert Or(0, 0) == 0;
    }
  }

  lemma {:induction false} OrZero(x: nat)
    ensures Or(x, 0) == x && Or(0, x) == x
  {
    if x > 0 {
      OrZero(x / 2);
    }
  }

  lemma LastBit(b: nat, q: nat)
    requires b < 2
    ensures (b + 2 * q) % 2 == b && (b + 2 * q) / 2 == q
  {
  }

  lemma LowHalf(x: nat, n: nat)
    requires n > 0
    ensures Low(x, n) == x % 2 + 2 * Low(x / 2, n - 1)
    ensures Low(x, n) % 2 == x % 2 && Low(x, n) / 2 == Low(x / 2, n - 1)
  {
    hide P2;
    LastBit(x % 2, Low(x / 2, n - 1));
  }

  lemma ShrNext(b: nat, n: nat)
    requires n > 0
    ensures Shr(b, n) == Shr(b / 2, n - 1)
  {
  }

  lemma NoBits(x: nat)
    ensures Low(x, 0) == 0 && Shr(x, 0) == x
  {
  }

  lemma {:induction false} OrLows(x: nat, a: nat, b: nat)
    ensures Or(Low(x, a), Low(x, b)) == Low(x, if a >= b then a else b)
    decreases a + b
  {
    hide Or, Low, P2;
    if a == 0 || b == 0 {
      NoBits(x);
      OrZero(Low(x, a));
      OrZero(Low(x, b));
    } else {
      LowHalf(x, a);
      LowHalf(x, b);
      OrNext(Low(x, a), Low(x, b));
      OrLows(x / 2, a - 1, b - 1);
    }
  }

  /** Putting n bits of x at position k into a buffer that holds kk >= k bits of x already: the
      bits that were there anyway do no harm. */
  lemma {:induction false} OrInto(x: nat, kk: nat, k: nat, n: nat)
    requires k <= kk
    ensures Or(Low(x, kk), Shl(Low(Shr(x, k), n), k)) == Low(x, if kk >= k + n then kk else k + n)
    decreases k
  {
    hide Or, Low, Shr, P2;
    if k == 0 {
      NoBits(x);
      OrLows(x, kk, n);
    } else {
      OrInto(x / 2, kk - 1, k - 1, n);
      ShrNext(x, k);
      var v := Low(Shr(x, k), n);
      LowHalf(x, kk);
      LowHalf(x, if kk >= k + n then kk else k + n);
      LastBit(0, Shl(v, k - 1));
      OrNext(Low(x, kk), Shl(v, k));
    }
  }

  lemma {:induction false} OrAssoc(x: nat, y: nat, z: nat)
    ensures Or(Or(x, y), z) == Or(x, Or(y, z))
    decreases x + y + z
  {
    hide Or;
    OrNext(x, y);
    OrNext(y, z);
    OrNext(Or(x, y), z);
    OrNext(x, Or(y, z));
    if x + y + z > 0 {
      OrAssoc(x / 2, y / 2, z / 2);
    } else {
      OrZero(0);
    }
  }

  /** Shifting both operands. */
  lemma {:induction false} ShlOr(x: nat, y: nat, n: nat)
    ensures Shl(Or(x, y), n) == Or(Shl(x, n), Shl(y, n))
  {
    hide Or;
    if n > 0 {
      ShlOr(x, y, n - 1);
      OrNext(Shl(x, n), Shl(y, n));
    }
  }

  lemma {:induction false} ShrOr(x: nat, y: nat, n: nat)
    ensures Shr(Or(x, y), n) == Or(Shr(x, n), Shr(y, n))
    decreases n
  {
    hide Or, Shr;
    if n == 0 {
      NoBits(x);
      NoBits(y);
      NoBits(Or(x, y));
    } else {
      OrNext(x, y);
      ShrNext(x, n);
      ShrNext(y, n);
      ShrNext(Or(x, y), n);
      ShrOr(x / 2, y / 2, n - 1);
    }
  }

  lemma {:induction false} LowOr(x: nat, y: nat, n: nat)
    ensures Low(Or(x, y), n) == Or(Low(x, n), Low(y, n))
    decreases n
  {
    hide Or, Low, P2;
    if n == 0 {
      NoBits(x);
      NoBits(y);
      NoBits(Or(x, y));
      OrZero(0);
    } else {
      OrNext(x, y);
      LowHalf(x, n);
      LowHalf(y, n);
      LowHalf(Or(x, y), n);
      OrNext(Low(x, n), Low(y, n));
      LowOr(x / 2, y / 2, n - 1);
    }
  }

  /** Putting f where a buffer holds the n bits d changes nothing if and only if f has no bits that d
      does not have. */
  lemma OrOver(b: nat, d: nat, f: nat, k: nat, n: nat)
    requires d == Low(Shr(b, k), n) && f < P2(n) && Or(b, Shl(d, k)) == b
    ensures Or(b, Shl(f, k)) == b <==> Or(d, f) == d
  {
    hide Or, Shl, Shr, Low, P2;
    if Or(d, f) == d {
      ShlOr(d, f, k);
      OrAssoc(b, Shl(d, k), Shl(f, k));
    }
    if Or(b, Shl(f, k)) == b {
      ShrOr(b, Shl(f, k), k);
      assert 0 < P2(k);
      ShrLowUnique(Shl(f, k), k, f, 0);
      LowOr(Shr(b, k), f, n);
      LowSmall(f, n);
    }
  }

  lemma NoShift(x: nat)
    ensures Shl(x, 0) == x && P2(0) == 1
  {
  }
}
