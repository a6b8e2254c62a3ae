/** The first part of huft_build in zlib/inftrees.c: counting code lengths, the Kraft check, and
    listing the symbols in the order of their codes. */
module CodeCounts {
  import opened BitMath
  import opened Huffman

  /** The total number of codes of fewer than k bits. */
  function Rank(c: seq<nat>, k: nat): nat
    requires k <= |c|
  {
    if k <= 1 then 0 else Rank(c, k - 1) + c[k - 1]
  }

  lemma RankNext(c: seq<nat>, k: nat)
    requires 1 <= k < |c|
    ensures Rank(c, k + 1) == Rank(c, k) + c[k]
  {
  }

  /** Generate counts for each bit length: zlib/inftrees.c:138-147. */
  method CountLengths(b: Lengths, c: array<nat>)
    requires c.Length == MAX_BITS + 1
    modifies c
    ensures c[..] == Counts(b)
  {
    for j := 0 to c.Length
      invariant forall k :: 0 <= k < j ==> c[k] == 0
    {
      c[j] := 0;
    }
    for i := 0 to |b|
      invariant forall k :: 0 <= k <= MAX_BITS ==> c[k] == Count(b, i, k)
    {
      c[b[i]] := c[b[i]] + 1;
    }
  }

  /** The table width huft_build settles on when asked for m: zlib/inftrees.c:156-170. */
  function Width(b: Lengths, m: nat): nat {
    var c := Counts(b);
    var l := if m < Shortest(c, 1) then Shortest(c, 1) else m;
    if l > Longest(c, MAX_BITS) then Longest(c, MAX_BITS) else l
  }

  /** How many codes of the greatest length the set lacks. */
  function Missing(b: Lengths): nat
    requires Kraft(b) <= P2(MAX_BITS)
  {
    Shr(P2(MAX_BITS) - Kraft(b), MAX_BITS - Longest(Counts(b), MAX_BITS))
  }

  /** The counts with y missing codes added at the greatest length g. */
  function Completed(c: seq<nat>, g: nat, y: nat): seq<nat>
    requires g < |c|
  {
    c[g := c[g] + y]
  }

  /** The counts of a set with the dummy codes that complete it. */
  function FullCounts(b: Lengths): (r: seq<nat>)
    requires Kraft(b) <= P2(MAX_BITS)
    ensures |r| == MAX_BITS + 1
  {
    Completed(Counts(b), Longest(Counts(b), MAX_BITS), Missing(b))
  }

  // ---- How far a decoder looks ahead ----

  /** The width of a table behind w bits whose codes end at hi, when l bits are the most: at least b,
      and the smallest that every code below the table fits in. */
  function TableWidth(c: seq<nat>, l: nat, w: nat, hi: nat, b: nat): (r: nat)
    requires |c| == MAX_BITS + 1
    ensures r >= b && (b <= l ==> r <= l)
    decreases l - b
  {
    if b >= l || w + b >= MAX_BITS || Start(c, w + b + 1) >= hi then b else TableWidth(c, l, w, hi, b + 1)
  }

  /** Where the codes that share their first w bits with y end, padded to 15 bits like y. */
  function ClassEnd(y: nat, w: nat): nat
    requires w <= MAX_BITS
  {
    Shl(Shr(y, MAX_BITS - w) + 1, MAX_BITS - w)
  }

  /** How many bits a decoder that indexes tables of at most l bits has looked at once it knows the
      code that y begins with, from the table behind w bits on. */
  function LooksFrom(c: seq<nat>, l: nat, y: nat, w: nat): nat
    requires |c| == MAX_BITS + 1 && l >= 1 && w <= MAX_BITS
    decreases MAX_BITS - w
  {
    if w + l >= MAX_BITS || y < Start(c, w + l + 1) then w + TableWidth(c, l, w, ClassEnd(y, w), 1)
    else LooksFrom(c, l, y, w + l)
  }

  /** How many bits the tables of a code set, l being their nominal width, take a look at to decode
      the code that the stream x begins with. */
  function Looks(b: Lengths, l: nat, x: nat): nat {
    if l == 0 || Kraft(b) > P2(MAX_BITS) then 0 else LooksFrom(FullCounts(b), l, Msb(x, MAX_BITS), 0)
  }

  /** The width is j if j - 1 bits leave out a code below the table and j bits do not, or are the most. */
  lemma {:induction false} WidthFound(c: seq<nat>, l: nat, w: nat, hi: nat, b: nat, j: nat)
    requires |c| == MAX_BITS + 1 && 1 <= b <= j <= l && w + j <= MAX_BITS
    requires Start(c, w + j) < hi && (j == l || Start(c, w + j + 1) >= hi)
    requires Start(c, MAX_BITS + 1) >= hi
    ensures TableWidth(c, l, w, hi, b) == j
    decreases j - b
  {
    hide Start;
    if b < j {
      StartMono(c, w + b + 1, w + j);
      WidthFound(c, l, w, hi, b + 1, j);
    }
  }

  /** Find minimum and maximum length: zlib/inftrees.c:158-167. */
  method LengthRange(c: array<nat>) returns (kmin: nat, g: nat)
    requires c.Length == MAX_BITS + 1 && exists k :: 1 <= k <= MAX_BITS && c[k] > 0
    ensures kmin == Shortest(c[..], 1) && g == Longest(c[..], MAX_BITS) && 1 <= kmin <= g
  {
    kmin := 1;
    while kmin <= MAX_BITS && c[kmin] == 0
      invariant 1 <= kmin <= MAX_BITS + 1 && Shortest(c[..], kmin) == Shortest(c[..], 1)
    {
      kmin := kmin + 1;
    }
    g := MAX_BITS;
    while g > 0 && c[g] == 0
      invariant g <= MAX_BITS && Longest(c[..], g) == Longest(c[..], MAX_BITS)
    {
      g := g - 1;
    }
  }

  lemma {:induction false} StartZero(c: seq<nat>, k: nat)
    requires |c| == MAX_BITS + 1 && k <= MAX_BITS + 1 && forall j :: 1 <= j < k ==> c[j] == 0
    ensures Start(c, k) == 0 && Rank(c, k) == 0
  {
    if k > 1 {
      StartZero(c, k - 1);
      ShlOne(MAX_BITS - (k - 1));
    }
  }

  lemma {:induction false} StartSame(c: seq<nat>, g: nat, k: nat)
    requires |c| == MAX_BITS + 1 && g <= k <= MAX_BITS + 1 && forall j :: g <= j <= MAX_BITS ==> c[j] == 0
    ensures Start(c, k) == Start(c, g) && (g >= 1 ==> Rank(c, k) == Rank(c, g))
  {
    if g < k && k > 1 {
      StartSame(c, g, k - 1);
      ShlOne(MAX_BITS - (k - 1));
    }
  }

  lemma StartNext(c: seq<nat>, k: nat)
    requires |c| == MAX_BITS + 1 && 1 <= k <= MAX_BITS
    ensures Start(c, k + 1) == Start(c, k) + Shl(c[k], MAX_BITS - k)
  {
  }

  /** How many patterns of g bits are left over, or that there are too many codes:
      zlib/inftrees.c:173-178. */
  method Leftover(c: seq<nat>, kmin: nat, g: nat) returns (over: bool, y: nat)
    requires |c| == MAX_BITS + 1 && 1 <= kmin <= g <= MAX_BITS
    requires kmin == Shortest(c, 1) && g == Longest(c, MAX_BITS)
    ensures over <==> Start(c, MAX_BITS + 1) > P2(MAX_BITS)
    ensures !over ==> Start(c, MAX_BITS + 1) + Shl(y, MAX_BITS - g) == P2(MAX_BITS)
  {
    hide Shl, P2, Longest, Shortest, Start;
    var j := kmin;
    y := P2(j);
    over := false;
    StartZero(c, kmin);
    StartSame(c, g + 1, MAX_BITS + 1);
    ShlP2(j, MAX_BITS - j);
    while j < g
      invariant kmin <= j <= g
      invariant Start(c, j) + Shl(y, MAX_BITS - j) == P2(MAX_BITS)
    {
      StartNext(c, j);
      if y < c[j] {
        ShlStrict(y, c[j], MAX_BITS - j);
        StartMono(c, j + 1, MAX_BITS + 1);
        over := true;
        return;
      }
      ShlPlus(y - c[j], c[j], MAX_BITS - j);
      ShlDouble(y - c[j], MAX_BITS - (j + 1));
      y := 2 * (y - c[j]);
      j := j + 1;
    }
    StartNext(c, g);
    if y < c[g] {
      ShlStrict(y, c[g], MAX_BITS - g);
      over := true;
      return;
    }
    ShlPlus(y - c[g], c[g], MAX_BITS - g);
    y := y - c[g];
  }

  lemma ShlStrict(x: nat, y: nat, n: nat)
    requires x < y
    ensures Shl(x, n) < Shl(y, n)
  {
    ShlNext(x, n);
    ShlMono(x + 1, y, n);
  }

  lemma {:induction false} RankMono(c: seq<nat>, j: nat, k: nat)
    requires j <= k <= |c|
    ensures Rank(c, j) <= Rank(c, k)
  {
    if j < k && k > 1 {
      RankMono(c, if j <= k - 1 then j else k - 1, k - 1);
    }
  }

  lemma {:induction false} RankSame(c: seq<nat>, c': seq<nat>, k: nat)
    requires |c| == |c'| && k <= |c| && forall j :: 1 <= j < k ==> c[j] == c'[j]
    ensures Rank(c, k) == Rank(c', k)
  {
    if k > 1 {
      RankSame(c, c', k - 1);
    }
  }

  lemma {:induction false} StartAgrees(c: seq<nat>, c': seq<nat>, k: nat)
    requires |c| == |c'| == MAX_BITS + 1 && k <= MAX_BITS + 1 && forall j :: 1 <= j < k ==> c[j] == c'[j]
    ensures Start(c, k) == Start(c', k)
  {
    if k > 1 {
      StartAgrees(c, c', k - 1);
    }
  }

  /** The place of symbol s in the order of codes. */
  function Place(b: Lengths, s: nat): nat
    requires s < |b|
  {
    Rank(Counts(b), b[s]) + Count(b, s, b[s])
  }

  /** Different symbols have different places. */
  lemma PlacesApart(b: Lengths, s: nat, t: nat)
    requires s < t < |b| && b[s] > 0 && b[t] > 0
    ensures Place(b, s) != Place(b, t)
  {
    hide Rank;
    var c := Counts(b);
    CountStrict(b, s, |b|);
    CountStrict(b, t, |b|);
    CountStrict(b, s, t);
    RankNext(c, b[s]);
    RankNext(c, b[t]);
    if b[s] < b[t] {
      RankMono(c, b[s] + 1, b[t]);
    } else if b[t] < b[s] {
      RankMono(c, b[t] + 1, b[s]);
    }
  }

  /** How many of the first n symbols have each length. */
  function CountsTo(b: Lengths, n: nat): (c: seq<nat>)
    requires n <= |b|
    ensures |c| == MAX_BITS + 1
  {
    seq(MAX_BITS + 1, k requires 0 <= k <= MAX_BITS => Count(b, n, k))
  }

  lemma {:induction false} RankBump(c: seq<nat>, c': seq<nat>, len: nat, k: nat)
    requires |c| == |c'| && k <= |c| && 1 <= len < |c| && c' == c[len := c[len] + 1]
    ensures Rank(c', k) == Rank(c, k) + if len < k then 1 else 0
  {
    if k > 1 {
      RankBump(c, c', len, k - 1);
    }
  }

  /** The symbols with and without codes are all the symbols. */
  lemma {:induction false} CountTotal(b: Lengths, n: nat)
    requires n <= |b|
    ensures Rank(CountsTo(b, n), MAX_BITS + 1) + Count(b, n, 0) == n
  {
    hide Rank;
    if n == 0 {
      StartZero(CountsTo(b, 0), MAX_BITS + 1);
    } else {
      CountTotal(b, n - 1);
      var c, c' := CountsTo(b, n - 1), CountsTo(b, n);
      if b[n - 1] == 0 {
        RankSame(c, c', MAX_BITS + 1);
      } else {
        assert c' == c[b[n - 1] := c[b[n - 1]] + 1];
        RankBump(c, c', b[n - 1], MAX_BITS + 1);
      }
    }
  }

  lemma PlaceBound(b: Lengths, s: nat)
    requires s < |b| && b[s] > 0
    ensures Place(b, s) < |b|
  {
    hide Rank;
    CountStrict(b, s, |b|);
    RankNext(Counts(b), b[s]);
    RankMono(Counts(b), b[s] + 1, MAX_BITS + 1);
    assert CountsTo(b, |b|) == Counts(b);
    CountTotal(b, |b|);
  }

  /** Make a table of values in order of bit lengths: zlib/inftrees.c:182-195. */
  method SortValues(b: Lengths, c: seq<nat>, g: nat, v: array<nat>)
    requires |c| == MAX_BITS + 1 && v.Length == |b| && 1 <= g <= MAX_BITS
    requires forall k :: 0 <= k < g ==> c[k] == Counts(b)[k]
    requires forall k :: g < k <= MAX_BITS ==> Counts(b)[k] == 0
    modifies v
    ensures forall s {:trigger b[s]} :: 0 <= s < |b| && b[s] > 0 ==> Place(b, s) < |b| && v[Place(b, s)] == s
  {
    hide Rank, Counts;
    var x := new nat[MAX_BITS + 1];
    x[1] := 0;
    RankOne(c);
    var j := 1;
    while j < g
      invariant 1 <= j <= g
      invariant forall k :: 1 <= k <= j ==> x[k] == Rank(c, k)
    {
      RankNext(c, j);
      x[j + 1] := x[j] + c[j];
      j := j + 1;
    }
    OffsetsAgree(b, c, g);
    var i := 0;
    while i < |b|
      invariant 0 <= i <= |b|
      invariant forall k :: 1 <= k <= g ==> x[k] == Rank(Counts(b), k) + Count(b, i, k)
      invariant forall s {:trigger b[s]} :: 0 <= s < i && b[s] > 0 ==> Place(b, s) < |b| && v[Place(b, s)] == s
    {
      var k := b[i];
      if k != 0 {
        CountStrict(b, i, |b|);
        LengthUsed(b, i, g);
        PlaceBound(b, i);
        forall s | 0 <= s < i && b[s] > 0
          ensures Place(b, s) != Place(b, i)
        {
          PlacesApart(b, s, i);
        }
        v[x[k]] := i;
        x[k] := x[k] + 1;
      }
      i := i + 1;
    }
  }

  lemma RankOne(c: seq<nat>)
    requires |c| > 0
    ensures Rank(c, 1) == 0
  {
  }

  lemma LengthUsed(b: Lengths, i: nat, g: nat)
    requires i < |b| && b[i] > 0 && forall k :: g < k <= MAX_BITS ==> Counts(b)[k] == 0
    ensures b[i] <= g
  {
    CountStrict(b, i, |b|);
    assert Counts(b)[b[i]] > 0;
  }

  lemma OffsetsAgree(b: Lengths, c: seq<nat>, g: nat)
    requires |c| == MAX_BITS + 1 && g <= MAX_BITS && forall k :: 0 <= k < g ==> c[k] == Counts(b)[k]
    ensures forall k :: 1 <= k <= g ==> Rank(c, k) == Rank(Counts(b), k)
  {
    forall k | 1 <= k <= g
      ensures Rank(c, k) == Rank(Counts(b), k)
    {
      RankSame(c, Counts(b), k);
    }
  }
}
