/** Canonical Huffman codes as section 3.2.2 of RFC 1951 defines them, and what a
    prefix of a bit stream decodes to.  A stream is a number whose lowest bit comes first. */
module Huffman {
  import opened BitMath

  const MAX_BITS := 15   // BMAX in zlib/inftrees.c

  /** The first n bits of the stream x, the first bit read being the most significant. */
  function Msb(x: nat, n: nat): nat {
    if n == 0 then 0 else 2 * Msb(x, n - 1) + Shr(x, n - 1) % 2
  }

  type Lengths = s: seq<nat> | forall i :: 0 <= i < |s| ==> s[i] <= MAX_BITS

  /** How many of the first n symbols have codes of k bits. */
  function Count(lens: Lengths, n: nat, k: nat): (r: nat)
    requires n <= |lens|
  {
    if n == 0 then 0 else Count(lens, n - 1, k) + if lens[n - 1] == k then 1 else 0
  }

  /** bl_count of the RFC: how many codes of each length there are. */
  function Counts(lens: Lengths): (c: seq<nat>)
    ensures |c| == MAX_BITS + 1
  {
    seq(MAX_BITS + 1, k requires 0 <= k <= MAX_BITS => Count(lens, |lens|, k))
  }

  /** next_code of the RFC: the first code of k bits. */
  function NextCode(c: seq<nat>, k: nat): nat
    requires |c| == MAX_BITS + 1 && k <= MAX_BITS
  {
    if k <= 1 then 0 else 2 * (NextCode(c, k - 1) + c[k - 1])
  }

  /** The canonical code of symbol s. */
  function Code(lens: Lengths, s: nat): nat
    requires s < |lens|
  {
    NextCode(Counts(lens), lens[s]) + Count(lens, s, lens[s])
  }

  /** The stream x begins with the code of symbol s. */
  predicate Matches(lens: Lengths, s: nat, x: nat) {
    s < |lens| && lens[s] > 0 && Msb(x, lens[s]) == Code(lens, s)
  }

  datatype Symbol = NoSymbol | Symbol(value: nat)

  function FindSymbol(lens: Lengths, n: nat, x: nat): (r: Symbol)
    requires n <= |lens|
    ensures r.Symbol? ==> Matches(lens, r.value, x)
    ensures r.NoSymbol? ==> forall s | 0 <= s < n :: !Matches(lens, s, x)
  {
    if n == 0 then NoSymbol
    else if Matches(lens, n - 1, x) then Symbol(n - 1)
    else FindSymbol(lens, n - 1, x)
  }

  /** The symbol whose code the stream begins with. */
  function Decode(lens: Lengths, x: nat): (r: Symbol)
    ensures r.Symbol? ==> Matches(lens, r.value, x)
    ensures r.NoSymbol? ==> forall s | 0 <= s < |lens| :: !Matches(lens, s, x)
  {
    FindSymbol(lens, |lens|, x)
  }

  /** The sum of 2^(15 - length) over the codes shorter than k bits, which is also where the codes of
      k bits start when every code is padded on the right to 15 bits. */
  function Start(c: seq<nat>, k: nat): nat
    requires |c| == MAX_BITS + 1 && k <= MAX_BITS + 1
  {
    if k <= 1 then 0 else Start(c, k - 1) + Shl(c[k - 1], MAX_BITS - (k - 1))
  }

  /** The Kraft sum of a code, scaled so that a complete code has sum 2^15. */
  function Kraft(lens: Lengths): nat {
    Start(Counts(lens), MAX_BITS + 1)
  }

  /** Where code number idx among the codes of k bits starts, padded to 15 bits. */
  function Lo(c: seq<nat>, k: nat, idx: nat): nat
    requires |c| == MAX_BITS + 1 && 1 <= k <= MAX_BITS
  {
    Start(c, k) + Shl(idx, MAX_BITS - k)
  }

  /** The greatest length in use among those up to k. */
  function Longest(c: seq<nat>, k: nat): (r: nat)
    requires k < |c|
    ensures r <= k && (r > 0 ==> c[r] > 0) && forall j :: r < j <= k ==> c[j] == 0
  {
    if k == 0 || c[k] > 0 then k else Longest(c, k - 1)
  }

  /** The least length in use among those from k on. */
  function Shortest(c: seq<nat>, k: nat): (r: nat)
    requires k <= |c|
    ensures k <= r <= |c| && (r < |c| ==> c[r] > 0) && forall j :: k <= j < r ==> c[j] == 0
    decreases |c| - k
  {
    if k == |c| || c[k] > 0 then k else Shortest(c, k + 1)
  }

  /** A set of lengths that a decompressor accepts: complete, or a single code of one bit. */
  predicate Usable(b: Lengths) {
    Kraft(b) == P2(MAX_BITS) || (Kraft(b) < P2(MAX_BITS) && Longest(Counts(b), MAX_BITS) == 1)
  }

  /** No symbol has a code. */
  predicate Empty(b: Lengths) {
    Count(b, |b|, 0) == |b|
  }

  // ---- Facts about Msb ----

  lemma {:induction false} MsbBound(x: nat, n: nat)
    ensures Msb(x, n) < P2(n)
  {
    if n > 0 {
      MsbBound(x, n - 1);
    }
  }

  /** Bit j of x is one of the low m > j bits. */
  lemma BitOfLow(x: nat, j: nat, m: nat)
    requires j < m
    ensures Shr(Low(x, m), j) % 2 == Shr(x, j) % 2
  {
    LowOfLow(x, j, m);
    assert Low(Shr(x, j), m - j) % 2 == Shr(x, j) % 2;
  }

  /** Only the low m >= n bits matter. */
  lemma {:induction false} MsbLow(x: nat, n: nat, m: nat)
    requires n <= m
    ensures Msb(Low(x, m), n) == Msb(x, n)
  {
    if n > 0 {
      MsbLow(x, n - 1, m);
      BitOfLow(x, n - 1, m);
    }
  }

  lemma {:induction false} MsbPrefix(x: nat, k: nat, n: nat)
    requires k <= n
    ensures Shr(Msb(x, n), n - k) == Msb(x, k)
  {
    if k < n {
      MsbPrefix(x, k, n - 1);
      var y := Msb(x, n);
      CutTwice(y, 1, n - 1 - k);
      assert Shr(y, 1) == Msb(x, n - 1) by { ShrLowUnique(y, 1, Msb(x, n - 1), Shr(x, n - 1) % 2); }
    }
  }

  /** The last bit read, in Msb and in Low. */
  lemma MsbNext(x: nat, n: nat)
    requires n > 0
    ensures Msb(x, n) == Shr(x, n - 1) % 2 + 2 * Msb(x, n - 1)
    ensures Low(x, n) == Low(x, n - 1) + Shl(Shr(x, n - 1) % 2, n - 1)
  {
    hide Shr, Shl, P2;
    var b := Shr(x, n - 1);
    CutTwice(x, n - 1, 1);
    LowHalf(b, 1);
    NoBits(b / 2);
  }

  /** Distinct n-bit numbers read differently. */
  lemma {:induction false} MsbInjective(x: nat, y: nat, n: nat)
    requires Msb(x, n) == Msb(y, n)
    ensures Low(x, n) == Low(y, n)
  {
    hide Shr, Shl, P2, Low, Msb;
    if n > 0 {
      MsbNext(x, n);
      MsbNext(y, n);
      LastBit(Shr(x, n - 1) % 2, Msb(x, n - 1));
      LastBit(Shr(y, n - 1) % 2, Msb(y, n - 1));
      MsbInjective(x, y, n - 1);
    } else {
      NoBits(x);
      NoBits(y);
    }
  }

  lemma MsbEqual(x: nat, y: nat, n: nat)
    ensures Msb(x, n) == Msb(y, n) <==> Low(x, n) == Low(y, n)
  {
    if Low(x, n) == Low(y, n) {
      MsbLow(x, n, n);
      MsbLow(y, n, n);
    } else if Msb(x, n) == Msb(y, n) {
      MsbInjective(x, y, n);
    }
  }

  /** High zero bits are read last. */
  lemma {:induction false} MsbZeros(x: nat, k: nat, n: nat)
    requires k <= n && x < P2(k)
    ensures Msb(x, n) == Shl(Msb(x, k), n - k)
  {
    if k < n {
      MsbZeros(x, k, n - 1);
      P2Mono(k, n - 1);
      LowSmall(x, n - 1);
    }
  }

  // ---- Facts about counting ----

  lemma {:induction false} CountMono(lens: Lengths, m: nat, n: nat, k: nat)
    requires m <= n <= |lens|
    ensures Count(lens, m, k) <= Count(lens, n, k)
  {
    if m < n {
      CountMono(lens, m, n - 1, k);
    }
  }

  /** Symbols of equal length are numbered apart, and below the count. */
  lemma CountStrict(lens: Lengths, s: nat, t: nat)
    requires s < t <= |lens|
    ensures Count(lens, s, lens[s]) < Count(lens, t, lens[s])
  {
    CountMono(lens, s + 1, t, lens[s]);
  }

  /** The symbol numbered idx among those of length k. */
  lemma {:induction false} NthSymbol(lens: Lengths, n: nat, k: nat, idx: nat) returns (s: nat)
    requires n <= |lens| && idx < Count(lens, n, k)
    ensures s < n && lens[s] == k && Count(lens, s, k) == idx
  {
    if idx < Count(lens, n - 1, k) {
      s := NthSymbol(lens, n - 1, k, idx);
    } else {
      s := n - 1;
    }
  }

  // ---- Code intervals ----

  lemma {:induction false} StartMono(c: seq<nat>, j: nat, k: nat)
    requires |c| == MAX_BITS + 1 && j <= k <= MAX_BITS + 1
    ensures Start(c, j) <= Start(c, k)
  {
    if j < k && k > 1 {
      StartMono(c, if j <= k - 1 then j else k - 1, k - 1);
    }
  }

  lemma {:induction false} StartIsNextCode(c: seq<nat>, k: nat)
    requires |c| == MAX_BITS + 1 && 1 <= k <= MAX_BITS
    ensures Start(c, k) == Shl(NextCode(c, k), MAX_BITS - k)
  {
    if k > 1 {
      StartIsNextCode(c, k - 1);
      var v := NextCode(c, k - 1) + c[k - 1];
      ShlPlus(NextCode(c, k - 1), c[k - 1], MAX_BITS - (k - 1));
      assert Start(c, k) == Shl(v, MAX_BITS - (k - 1));
      ShlShl(v, 1, MAX_BITS - k);
      assert Shl(v, 1) == 2 * v;
    } else {
      ShlOne(MAX_BITS - k);
    }
  }

  /** The code (k, idx) is a prefix of x just when x, padded, falls into the code's interval. */
  lemma InInterval(c: seq<nat>, k: nat, idx: nat, x: nat)
    requires |c| == MAX_BITS + 1 && 1 <= k <= MAX_BITS
    ensures Msb(x, k) == NextCode(c, k) + idx
            <==> Lo(c, k, idx) <= Msb(x, MAX_BITS) < Lo(c, k, idx) + P2(MAX_BITS - k)
  {
    hide Shl, Shr, Low, P2, Msb, NextCode, Start;
    var y := Msb(x, MAX_BITS);
    var v := NextCode(c, k) + idx;
    StartIsNextCode(c, k);
    ShlPlus(NextCode(c, k), idx, MAX_BITS - k);
    MsbPrefix(x, k, MAX_BITS);
    ShrLow(y, MAX_BITS - k);
    if Lo(c, k, idx) <= y < Lo(c, k, idx) + P2(MAX_BITS - k) {
      ShrLowUnique(y, MAX_BITS - k, v, y - Lo(c, k, idx));
    }
  }

  /** The interval of a code lies below the codes of greater length. */
  lemma LoBelow(c: seq<nat>, k: nat, idx: nat)
    requires |c| == MAX_BITS + 1 && 1 <= k <= MAX_BITS && idx < c[k]
    ensures Start(c, k) <= Lo(c, k, idx)
    ensures Lo(c, k, idx) + P2(MAX_BITS - k) == Lo(c, k, idx + 1) <= Start(c, k + 1)
  {
    ShlNext(idx, MAX_BITS - k);
    ShlMono(idx + 1, c[k], MAX_BITS - k);
  }

  /** Two different codes have disjoint intervals, the earlier one lower. */
  lemma IntervalsOrdered(c: seq<nat>, k1: nat, i1: nat, k2: nat, i2: nat)
    requires |c| == MAX_BITS + 1 && 1 <= k1 <= MAX_BITS && 1 <= k2 <= MAX_BITS
    requires i1 < c[k1] && i2 < c[k2]
    requires k1 < k2 || (k1 == k2 && i1 < i2)
    ensures Lo(c, k1, i1) + P2(MAX_BITS - k1) <= Lo(c, k2, i2)
  {
    LoBelow(c, k1, i1);
    LoBelow(c, k2, i2);
    if k1 < k2 {
      StartMono(c, k1 + 1, k2);
    } else {
      ShlMono(i1 + 1, i2, MAX_BITS - k1);
    }
  }

  /** A position below the Kraft sum lies in the interval of some code. */
  lemma {:induction false} Covered(c: seq<nat>, k: nat, y: nat) returns (j: nat, idx: nat)
    requires |c| == MAX_BITS + 1 && k <= MAX_BITS + 1
    requires y < Start(c, k)
    ensures 1 <= j < k && idx < c[j]
    ensures Lo(c, j, idx) <= y < Lo(c, j, idx) + P2(MAX_BITS - j)
  {
    if y < Start(c, k - 1) {
      j, idx := Covered(c, k - 1, y);
    } else {
      j := k - 1;
      var z := y - Start(c, j);
      ShrLow(z, MAX_BITS - j);
      idx := Shr(z, MAX_BITS - j);
      if idx >= c[j] {
        ShlMono(c[j], idx, MAX_BITS - j);
      }
    }
  }

  // ---- The canonical code is a prefix code ----

  lemma MatchesInterval(lens: Lengths, s: nat, x: nat)
    requires s < |lens| && lens[s] > 0
    ensures Count(lens, s, lens[s]) < Counts(lens)[lens[s]]
    ensures Matches(lens, s, x)
            <==> Lo(Counts(lens), lens[s], Count(lens, s, lens[s])) <= Msb(x, MAX_BITS)
                 < Lo(Counts(lens), lens[s], Count(lens, s, lens[s])) + P2(MAX_BITS - lens[s])
  {
    CountStrict(lens, s, |lens|);
    InInterval(Counts(lens), lens[s], Count(lens, s, lens[s]), x);
  }

  /** No stream begins with the codes of two symbols. */
  lemma DecodeUnique(lens: Lengths, s: nat, t: nat, x: nat)
    requires Matches(lens, s, x) && Matches(lens, t, x)
    ensures s == t
  {
    MatchesInterval(lens, s, x);
    MatchesInterval(lens, t, x);
    var c := Counts(lens);
    var ks, kt := lens[s], lens[t];
    var ns, nt := Count(lens, s, ks), Count(lens, t, kt);
    if ks < kt || (ks == kt && ns < nt) {
      IntervalsOrdered(c, ks, ns, kt, nt);
    } else if kt < ks || nt < ns {
      IntervalsOrdered(c, kt, nt, ks, ns);
    } else if s < t {
      CountStrict(lens, s, t);
    } else if t < s {
      CountStrict(lens, t, s);
    }
  }

  /** Decode finds the symbol whose code the stream begins with. */
  lemma DecodeIs(lens: Lengths, s: nat, x: nat)
    requires Matches(lens, s, x)
    ensures Decode(lens, x) == Symbol(s)
  {
    DecodeUnique(lens, s, Decode(lens, x).value, x);
  }

  /** Every stream begins with a code just when the Kraft sum reaches 2^15. */
  lemma CompleteDecodes(lens: Lengths)
    ensures Kraft(lens) >= P2(MAX_BITS) <==> forall x: nat :: Decode(lens, x).Symbol?
  {
    hide Shl, Shr, Low, P2, Msb, NextCode, Start, Count, Lo;
    if Kraft(lens) >= P2(MAX_BITS) {
      forall x: nat
        ensures Decode(lens, x).Symbol?
      {
        MsbBound(x, MAX_BITS);
        var j, idx := Covered(Counts(lens), MAX_BITS + 1, Msb(x, MAX_BITS));
        var s := NthSymbol(lens, |lens|, j, idx);
        MatchesInterval(lens, s, x);
        assert Matches(lens, s, x);
      }
    } else {
      var x := FromMsb(Kraft(lens), MAX_BITS);
      var r := Decode(lens, x);
      if r.Symbol? {
        var k := lens[r.value];
        MatchesInterval(lens, r.value, x);
        LoBelow(Counts(lens), k, Count(lens, r.value, k));
        StartMono(Counts(lens), k + 1, MAX_BITS + 1);
      }
    }
  }

  /** Every n-bit number is the reading of some stream. */
  lemma {:induction false} FromMsb(y: nat, n: nat) returns (x: nat)
    requires y < P2(n)
    ensures x < P2(n) && Msb(x, n) == y
  {
    if n == 0 {
      x := 0;
    } else {
      var lo := FromMsb(y / 2, n - 1);
      var hi := P2(n - 1);
      x := if y % 2 == 1 then lo + hi else lo;
      ShlOne(n - 1);
      ShrLowUnique(x, n - 1, y % 2, lo);
      MsbLow(x, n - 1, n - 1);
    }
  }
}
