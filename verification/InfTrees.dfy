/** zlib/inftrees.c: building the decoding tables of a set of code lengths. */
module InfTrees {
  import opened BitMath
  import opened Huffman
  import opened HuftTables
  import opened CodeCounts
  import opened TableBuilder
  import opened ZLib
  import Deflate

  /** The size hypothesis: subtables of the requested width suffice.  Every complete set that the
      decompressor builds meets it. */
  predicate Roomy(b: Lengths, m: nat)
    requires Kraft(b) <= P2(MAX_BITS)
  {
    || Longest(Counts(b), MAX_BITS) <= 2 * Width(b, m)
    || |b| - Count(b, |b|, 0) + Missing(b) < P2(Width(b, m) + 1)
  }

  /** The return code, decided by the Kraft sum. */
  function Status(b: Lengths): int {
    if Empty(b) then Z_OK
    else if Kraft(b) > P2(MAX_BITS) then Z_DATA_ERROR
    else if Usable(b) then Z_OK
    else Z_BUF_ERROR
  }

  lemma SomeLength(b: Lengths)
    requires Count(b, |b|, 0) != |b|
    ensures exists k :: 1 <= k <= MAX_BITS && Counts(b)[k] > 0
  {
    CountTotal(b, |b|);
    assert CountsTo(b, |b|) == Counts(b);
    if forall k :: 1 <= k <= MAX_BITS ==> Counts(b)[k] == 0 {
      StartZero(Counts(b), MAX_BITS + 1);
    }
  }

  /** Which sets are accepted, by counts: the complete ones, and a single code of one bit. */
  lemma UsableByCounts(b: Lengths)
    ensures Usable(b) <==> Kraft(b) == P2(MAX_BITS) || (Count(b, |b|, 1) == 1 && Count(b, |b|, 0) == |b| - 1)
  {
    hide Shl, P2, Count, Start, Rank, Longest;
    var c := Counts(b);
    CountTotal(b, |b|);
    CountsAll(b);
    OneBitSums(c);
    if Count(b, |b|, 1) == 1 && Count(b, |b|, 0) == |b| - 1 {
      OthersNone(c);
      StartSame(c, 2, MAX_BITS + 1);
    } else if Longest(c, MAX_BITS) == 1 {
      StartSame(c, 2, MAX_BITS + 1);
      if c[1] >= 2 {
        ShlMono(2, c[1], MAX_BITS - 1);
      }
    }
  }

  lemma OneBitSums(c: seq<nat>)
    requires |c| == MAX_BITS + 1
    ensures Start(c, 2) == Shl(c[1], MAX_BITS - 1) && Rank(c, 2) == c[1]
    ensures Shl(1, MAX_BITS - 1) < P2(MAX_BITS) == Shl(2, MAX_BITS - 1)
  {
    assert Start(c, 1) == 0 && Rank(c, 1) == 0;
    ShlOne(MAX_BITS - 1);
    ShlPlus(1, 1, MAX_BITS - 1);
    P2Small();
  }

  /** A single code of one bit is the only code. */
  lemma OthersNone(c: seq<nat>)
    requires |c| == MAX_BITS + 1 && c[1] == Rank(c, MAX_BITS + 1) == 1
    ensures Longest(c, MAX_BITS) == 1 && forall k :: 2 <= k <= MAX_BITS ==> c[k] == 0
  {
    OneBitSums(c);
    forall k | 2 <= k <= MAX_BITS
      ensures c[k] == 0
    {
      hide Rank;
      RankMono(c, 2, k);
      RankNext(c, k);
      RankMono(c, k + 1, MAX_BITS + 1);
    }
  }

  /** huft_build succeeds for exactly three kinds of sets: without codes, complete, and with one code, of
      one bit. */
  lemma Accepted(b: Lengths)
    ensures Status(b) == Z_OK
            <==> || Count(b, |b|, 0) == |b|
                 || Kraft(b) == P2(MAX_BITS)
                 || (Count(b, |b|, 1) == 1 && Count(b, |b|, 0) == |b| - 1)
    ensures Status(b) == Z_DATA_ERROR <==> Kraft(b) > P2(MAX_BITS)
  {
    hide P2, Count, Kraft, Longest;
    UsableByCounts(b);
    EmptyKraft(b);
    assert 0 < P2(MAX_BITS);
  }

  lemma EmptyKraft(b: Lengths)
    ensures Kraft(b) == 0 <==> Empty(b)
  {
    hide P2, Count, Start, Rank, Shl;
    var c := Counts(b);
    CountTotal(b, |b|);
    CountsAll(b);
    if Empty(b) {
      forall k | 1 <= k <= MAX_BITS
        ensures c[k] == 0
      {
        RankMono(c, k + 1, MAX_BITS + 1);
        RankNext(c, k);
      }
      StartZero(c, MAX_BITS + 1);
    } else {
      SomeLength(b);
      var k :| 1 <= k <= MAX_BITS && c[k] > 0;
      StartNext(c, k);
      StartMono(c, k + 1, MAX_BITS + 1);
      assert Shl(c[k], MAX_BITS - k) >= c[k];
    }
  }

  lemma CompletedShape(cs: CodeSet, g: nat, y: nat, l: nat)
    requires cs.Valid() && g == Longest(Counts(cs.lens), MAX_BITS) && 1 <= l <= g
    requires Kraft(cs.lens) + Shl(y, MAX_BITS - g) == P2(MAX_BITS)
    ensures var sh := Shape(cs, Completed(Counts(cs.lens), g, y), l);
            && sh.Valid() && Start(sh.c, g + 1) == P2(MAX_BITS) && sh.c[g] > 0
            && (forall k :: 1 <= k <= MAX_BITS && sh.c[k] > 0 ==> NextCode(sh.c, k) == NextCode(Counts(cs.lens), k))
  {
    hide Shl, P2, NextCode, Count, Counts, Longest;
    var c := Counts(cs.lens);
    var c' := Completed(c, g, y);
    StartSame(c, g + 1, MAX_BITS + 1);
    StartSame(c', g + 1, MAX_BITS + 1);
    StartAgrees(c, c', g);
    ShlPlus(c[g], y, MAX_BITS - g);
    forall k | 1 <= k <= MAX_BITS && c'[k] > 0
      ensures NextCode(c', k) == NextCode(c, k)
    {
      NextCodeSame(c, c', k);
    }
  }

  lemma CompletedSorted(cs: CodeSet, g: nat, y: nat, l: nat, v: seq<nat>)
    requires cs.Valid() && 1 <= g == Longest(Counts(cs.lens), MAX_BITS) && |v| == |cs.lens|
    requires Shape(cs, Completed(Counts(cs.lens), g, y), l).Valid()
    requires forall s {:trigger cs.lens[s]} :: 0 <= s < |cs.lens| && cs.lens[s] > 0 ==>
               Place(cs.lens, s) < |v| && v[Place(cs.lens, s)] == s
    ensures Sorted(Shape(cs, Completed(Counts(cs.lens), g, y), l), v)
  {
    hide Shl, P2, NextCode, Count, Counts, Longest, Start, Rank;
    var c := Counts(cs.lens);
    var c' := Completed(c, g, y);
    OffsetsAgree(cs.lens, c', g);
    forall s | 0 <= s < |cs.lens| && cs.lens[s] > 0
      ensures Rank(c', cs.lens[s]) == Rank(c, cs.lens[s])
    {
      LengthUsed(cs.lens, s, g);
    }
    RankNext(c, g);
    RankEnd(c, g);
    CountTotal(cs.lens, |cs.lens|);
    assert CountsTo(cs.lens, |cs.lens|) == c by { CountsAll(cs.lens); }
  }

  lemma CountsAt(b: Lengths, k: nat)
    requires k <= MAX_BITS
    ensures Counts(b)[k] == Count(b, |b|, k)
  {
  }

  lemma CountsAll(b: Lengths)
    ensures CountsTo(b, |b|) == Counts(b)
  {
  }

  lemma RankEnd(c: seq<nat>, g: nat)
    requires |c| == MAX_BITS + 1 && 1 <= g <= MAX_BITS && forall j :: g < j <= MAX_BITS ==> c[j] == 0
    ensures Rank(c, MAX_BITS + 1) == Rank(c, g + 1)
  {
    StartSame(c, g + 1, MAX_BITS + 1);
  }

  lemma RoomyFits(cs: CodeSet, g: nat, y: nat, m: nat)
    requires cs.Valid() && 1 <= g == Longest(Counts(cs.lens), MAX_BITS)
    requires Kraft(cs.lens) + Shl(y, MAX_BITS - g) == P2(MAX_BITS) && Roomy(cs.lens, m)
    requires Shape(cs, Completed(Counts(cs.lens), g, y), Width(cs.lens, m)).Valid()
    ensures Fits(Shape(cs, Completed(Counts(cs.lens), g, y), Width(cs.lens, m)), g)
  {
    hide Shl, P2, NextCode, Count, Longest, Start, Rank, Shr, Width;
    var c := Counts(cs.lens);
    var c' := Completed(c, g, y);
    RankNext(c, g);
    RankNext(c', g);
    RankSame(c, c', g);
    RankEnd(c, g);
    RankEnd(c', g);
    CountTotal(cs.lens, |cs.lens|);
    CountsAll(cs.lens);
    LeftoverMissing(cs.lens, g, y);
  }

  /** The patterns left over are the missing codes. */
  lemma LeftoverMissing(b: Lengths, g: nat, y: nat)
    requires g == Longest(Counts(b), MAX_BITS) && Kraft(b) + Shl(y, MAX_BITS - g) == P2(MAX_BITS)
    ensures y == Missing(b) && Completed(Counts(b), g, y) == FullCounts(b)
  {
    hide Shl, P2, Count, Longest, Start, Shr;
    ShrLowUnique(P2(MAX_BITS) - Kraft(b), MAX_BITS - g, y, 0);
  }

  /** huft_build: make the tables for a set of code lengths, m being the table width asked for. */
  method HuftBuild(cs: CodeSet, m: nat) returns (r: int, t: Tree)
    requires cs.Valid()
    ensures r == Status(cs.lens)
    ensures r == Z_OK <==> || Count(cs.lens, |cs.lens|, 0) == |cs.lens|
                           || Kraft(cs.lens) == P2(MAX_BITS)
                           || (Count(cs.lens, |cs.lens|, 1) == 1 && Count(cs.lens, |cs.lens|, 0) == |cs.lens| - 1)
    ensures r == Z_DATA_ERROR <==> Kraft(cs.lens) > P2(MAX_BITS)
    ensures Empty(cs.lens) ==> t == Tree([], 0, 0)
    ensures !Empty(cs.lens) && r != Z_DATA_ERROR ==>
              t.bits == Width(cs.lens, m) && (Roomy(cs.lens, m) ==> Decodes(cs, t))
  {
    hide Shl, P2, NextCode, Count, Counts, Longest, Shortest, Start, Rank, Shr, Low, Msb, Roomy;
    var c := new nat[MAX_BITS + 1];
    CountLengths(cs.lens, c);
    CountsAt(cs.lens, 0);
    Accepted(cs.lens);
    if c[0] == |cs.lens| {
      return Z_OK, Tree([], 0, 0);
    }
    SomeLength(cs.lens);
    var kmin, g := LengthRange(c);
    var l := if m < kmin then kmin else m;
    l := if l > g then g else l;
    var over, y := Leftover(c[..], kmin, g);
    if over {
      return Z_DATA_ERROR, Tree([], 0, 0);
    }
    c[g] := c[g] + y;
    assert c[..] == Completed(Counts(cs.lens), g, y);
    var v := new nat[|cs.lens|];
    SortValues(cs.lens, c[..], g, v);
    ghost var sh := Shape(cs, c[..], l);
    CompletedShape(cs, g, y, l);
    CompletedSorted(cs, g, y, l, v[..]);
    StartZero(sh.c, kmin);
    var pool, root; ghost var tabs;
    pool, root, tabs := BuildTables(Shape(cs, c[..], l), kmin, g, v);
    t := Tree(pool, root, l);
    if Roomy(cs.lens, m) {
      RoomyFits(cs, g, y, m);
      LeftoverMissing(cs.lens, g, y);
      TablesDecode(sh, pool, tabs);
    }
    LeftoverZero(y, g);
    r := if y != 0 && g != 1 then Z_BUF_ERROR else Z_OK;
  }

  lemma LeftoverZero(y: nat, g: nat)
    requires g <= MAX_BITS
    ensures Shl(y, MAX_BITS - g) == 0 <==> y == 0
  {
    ShlOne(MAX_BITS - g);
  }

  // ---- The sets the decompressor builds ----

  // zlib/inftrees.c:44-58
  const CPLENS: seq<nat> :=
    [3, 4, 5, 6, 7, 8, 9, 10, 11, 13, 15, 17, 19, 23, 27, 31,
     35, 43, 51, 59, 67, 83, 99, 115, 131, 163, 195, 227, 258, 0, 0]
  const CPLEXT: seq<nat> :=
    [0, 0, 0, 0, 0, 0, 0, 0, 1, 1, 1, 1, 2, 2, 2, 2, 3, 3, 3, 3, 4, 4, 4, 4, 5, 5, 5, 5, 0, 192, 192]
  const CPDIST: seq<nat> :=
    [1, 2, 3, 4, 5, 7, 9, 13, 17, 25, 33, 49, 65, 97, 129, 193,
     257, 385, 513, 769, 1025, 1537, 2049, 3073, 4097, 6145, 8193, 12289, 16385, 24577]
  const CPDEXT: seq<nat> :=
    [0, 0, 0, 0, 1, 1, 2, 2, 3, 3, 4, 4, 5, 5, 6, 6, 7, 7, 8, 8, 9, 9, 10, 10, 11, 11, 12, 12, 13, 13]

  function LitSet(b: Lengths): CodeSet {
    CodeSet(b, 257, CPLENS, CPLEXT)
  }

  function DistSet(b: Lengths): CodeSet {
    CodeSet(b, 0, CPDIST, CPDEXT)
  }

  function BitSet(b: Lengths): CodeSet {
    CodeSet(b, 19, [], [])
  }

  lemma ValidSets(b: Lengths)
    ensures 0 < |b| <= 288 ==> LitSet(b).Valid()
    ensures 0 < |b| <= 30 ==> DistSet(b).Valid()
    ensures |b| == 19 ==> BitSet(b).Valid()
  {
    assert forall i :: 0 <= i < |CPLEXT| ==> CPLEXT[i] <= 15 || CPLEXT[i] == 192;
    assert forall i :: 0 <= i < |CPDEXT| ==> CPDEXT[i] <= 15;
  }

  /** What the entry of a literal/length symbol says.  The fixed code has codes for 286 and 287, which
      must not occur; they are meant to be invalid, but 192 + 16 + 64 is cut to a byte, and so they read
      as a length of 0 without extra bits (Decoding.LengthZero says what comes of that).  A symbol beyond
      256 is a length that section 3.2.5 of RFC 1951 knows if and only if it is at most 285. */
  lemma SymbolsMean(b: Lengths, v: nat)
    requires 0 < |b| <= 288 && v < |b|
    ensures LitSet(b).Valid()
    ensures v < 256 ==> LitSet(b).Exop(v) == 0 && LitSet(b).Base(v) == v
    ensures v == 256 ==> IsEnd(LitSet(b).Exop(v)) && IsFinal(LitSet(b).Exop(v)) && !IsLength(LitSet(b).Exop(v))
    ensures v > 256 ==> IsLength(LitSet(b).Exop(v)) && (LitSet(b).Base(v) >= 3 <==> v <= 285)
    ensures v > 285 ==> LitSet(b).Exop(v) == 16 && LitSet(b).Base(v) == 0
  {
    ValidSets(b);
    hide CPLENS, CPLEXT, IsLength, IsEnd, IsFinal;
    ExopBits(96);
    if v > 256 {
      LengthTables(v - 257);
      ExopBits(LitSet(b).Exop(v));
    }
  }

  lemma LengthTables(i: nat)
    requires i < 31
    ensures |CPLENS| == |CPLEXT| == 31
    ensures i <= 28 ==> CPLENS[i] >= 3 && CPLEXT[i] <= 5
    ensures i > 28 ==> CPLENS[i] == 0 && CPLEXT[i] == 192
  {
  }

  lemma ExopBits(e: nat)
    ensures e == 96 ==> IsEnd(e) && IsFinal(e) && !IsLength(e)
    ensures e == 16 || 80 <= e <= 85 ==> IsLength(e)
  {
  }

  /** A tree ready for decoding: it decodes the set, with a root of the width that huft_build settles
      on when asked for m. */
  ghost predicate TreeFor(cs: CodeSet, t: Tree, m: nat) {
    cs.Valid() && Decodes(cs, t) && t.bits == Width(cs.lens, m) && 1 <= t.bits <= m
  }

  lemma LongestPositive(b: Lengths)
    requires !Empty(b)
    ensures 1 <= Shortest(Counts(b), 1) <= Longest(Counts(b), MAX_BITS) <= MAX_BITS
  {
    SomeLength(b);
  }

  /** A complete set of fewer than 2^n codes has a code shorter than n bits. */
  lemma ShortCode(b: Lengths, n: nat)
    requires !Empty(b) && Kraft(b) == P2(MAX_BITS) && |b| < P2(n)
    ensures Shortest(Counts(b), 1) < n
  {
    hide P2, Shl, Count, Counts, Start, Rank;
    var c := Counts(b);
    var k := Shortest(c, 1);
    LongestPositive(b);
    if k >= n {
      StartZero(c, k);
      LoEnds(c, k);
      SpanBound(c, k, 0, MAX_BITS + 1);
      CountTotal(b, |b|);
      CountsAll(b);
      P2Mono(n, k);
      ShlStrict(Rank(c, MAX_BITS + 1), P2(k), MAX_BITS - k);
      ShlP2(k, MAX_BITS - k);
      assert false;
    }
  }

  /** Usable sets of fewer than 2^m codes get tables no wider than the m bits asked for, and their
      subtables fit. */
  lemma UsableRoomy(b: Lengths, m: nat)
    requires !Empty(b) && Usable(b) && 1 <= m && |b| < P2(m)
    ensures 1 <= Width(b, m) <= m && Roomy(b, m)
    ensures Longest(Counts(b), MAX_BITS) <= m ==> Width(b, m) == Longest(Counts(b), MAX_BITS)
  {
    hide Shl, Count, Counts, Start, Rank, Longest, Shortest, Shr, P2, Kraft, Width, Missing;
    LongestPositive(b);
    WidthIs(b, m);
    if Kraft(b) == P2(MAX_BITS) {
      ShortCode(b, m);
      NoneMissing(b);
      if m <= Width(b, m) {
        P2Mono(m, Width(b, m) + 1);
      }
    }
  }

  lemma WidthIs(b: Lengths, m: nat)
    ensures var s, g := Shortest(Counts(b), 1), Longest(Counts(b), MAX_BITS);
            Width(b, m) == if g < (if m < s then s else m) then g else if m < s then s else m
  {
    hide Count, Counts, Shortest, Longest;
  }

  lemma NoneMissing(b: Lengths)
    requires Kraft(b) == P2(MAX_BITS)
    ensures Missing(b) == 0
  {
    hide Count, Counts, Longest, Start, P2;
    LowSmall(0, MAX_BITS - Longest(Counts(b), MAX_BITS));
  }

  /** Build the tree of the code length codes: zlib/inftrees.c:304-322. */
  method TreesBits(c: Lengths, bb: nat) returns (r: int, t: Tree)
    requires |c| == 19 && bb == 7 && forall i :: 0 <= i < |c| ==> c[i] <= 7
    ensures r == if Empty(c) || Usable(c) then Z_OK else Z_DATA_ERROR
    ensures r == Z_OK && !Empty(c) ==> TreeFor(BitSet(c), t, 7) && forall i :: 0 <= i < |c| ==> c[i] <= t.bits
  {
    hide Shl, Count, Counts, Start, Rank, Longest, Shortest, Shr, Usable, Empty, Decodes;
    ValidSets(c);
    r, t := HuftBuild(BitSet(c), bb);
    StatusIs(c);
    if r == Z_BUF_ERROR {
      r := Z_DATA_ERROR;
    }
    if r == Z_OK && !Empty(c) {
      P2Small();
      UsableRoomy(c, 7);
      LongestBound(c, 7);
    }
  }

  /** Build the trees of a dynamic block: zlib/inftrees.c:325-372. */
  method TreesDynamic(c: Lengths, nl: nat, nd: nat, bl: nat, bd: nat) returns (r: int, tl: Tree, td: Tree)
    requires 0 < nl <= 286 && 0 < nd <= 30 && |c| == nl + nd && bl == 9 && bd == 6
    ensures r == if (Empty(c[..nl]) || Usable(c[..nl])) && (Empty(c[nl..]) || Usable(c[nl..])) then Z_OK
                 else Z_DATA_ERROR
    ensures r == Z_OK && !Empty(c[..nl]) ==> TreeFor(LitSet(c[..nl]), tl, 9)
    ensures r == Z_OK && !Empty(c[nl..]) ==> TreeFor(DistSet(c[nl..]), td, 6)
    ensures r == Z_OK ==> td.bits <= 6
  {
    hide Shl, Count, Counts, Start, Rank, Longest, Shortest, Shr, Usable, Empty, Decodes;
    var lit: Lengths, dist: Lengths := c[..nl], c[nl..];
    ValidSets(lit);
    ValidSets(dist);
    StatusIs(lit);
    StatusIs(dist);
    P2Small();
    td := Tree([], 0, 0);
    r, tl := HuftBuild(LitSet(lit), bl);
    if r != Z_OK {
      r := Z_DATA_ERROR;
      return;
    }
    if !Empty(lit) {
      UsableRoomy(lit, 9);
    }
    r, td := HuftBuild(DistSet(dist), bd);
    if r != Z_OK {
      r := Z_DATA_ERROR;
      return;
    }
    if !Empty(dist) {
      UsableRoomy(dist, 6);
    }
  }

  lemma StatusIs(b: Lengths)
    ensures Status(b) == Z_OK <==> Empty(b) || Usable(b)
    ensures Status(b) in {Z_OK, Z_DATA_ERROR, Z_BUF_ERROR}
    ensures Status(b) == Z_DATA_ERROR ==> !Empty(b) && !Usable(b)
  {
    hide Count, Counts, Start, Longest;
  }

  lemma {:induction false} LongestBound(b: Lengths, m: nat)
    requires forall i :: 0 <= i < |b| ==> b[i] <= m
    requires m <= MAX_BITS
    ensures Longest(Counts(b), MAX_BITS) <= m
    ensures forall i :: 0 <= i < |b| ==> b[i] <= Longest(Counts(b), MAX_BITS)
  {
    var g := Longest(Counts(b), MAX_BITS);
    if g > m {
      var s := NthSymbol(b, |b|, g, 0);
    }
    forall i | 0 <= i < |b|
      ensures b[i] <= g
    {
      CountStrict(b, i, |b|);
      assert Counts(b)[b[i]] > 0;
    }
  }

  // ---- Fixed codes ----

  /** A run of symbols with codes of len bits. */
  lemma {:induction false} CountRun(b: Lengths, m: nat, n: nat, len: nat, k: nat)
    requires m <= n <= |b| && forall i :: m <= i < n ==> b[i] == len
    ensures Count(b, n, k) == Count(b, m, k) + if len == k then n - m else 0
  {
    if m < n {
      CountRun(b, m, n - 1, len, k);
    }
  }

  lemma FixedLitCounts(k: nat)
    requires k <= MAX_BITS
    ensures Counts(Deflate.FixedLit())[k] == if k == 7 then 24 else if k == 8 then 152 else if k == 9 then 112 else 0
  {
    var b := Deflate.FixedLit();
    CountRun(b, 0, 144, 8, k);
    CountRun(b, 144, 256, 9, k);
    CountRun(b, 256, 280, 7, k);
    CountRun(b, 280, 288, 8, k);
  }

  lemma FixedDistCounts(k: nat)
    requires k <= MAX_BITS
    ensures Counts(Deflate.FixedDist())[k] == if k == 5 then 30 else 0
  {
    CountRun(Deflate.FixedDist(), 0, 30, 5, k);
  }

  lemma FixedSums()
    ensures Shl(24, 8) + Shl(152, 7) + Shl(112, 6) == P2(MAX_BITS)
    ensures Shl(30, 10) < P2(MAX_BITS)
  {
    assert Shl(24, 8) == 6144 && Shl(152, 7) == 19456 && Shl(112, 6) == 7168 && Shl(30, 10) == 30720;
    P2Small();
  }

  /** The fixed literal code is complete, with codes of 7 to 9 bits. */
  lemma FixedLitShape()
    ensures var b := Deflate.FixedLit();
            Kraft(b) == P2(MAX_BITS) && !Empty(b) && Width(b, 7) == 7 && Roomy(b, 7)
  {
    hide Count, Counts, Start, P2, Shl, Longest, Shortest;
    var b := Deflate.FixedLit();
    var c := Counts(b);
    forall k | 0 <= k <= MAX_BITS
      ensures c[k] == if k == 7 then 24 else if k == 8 then 152 else if k == 9 then 112 else 0
    {
      FixedLitCounts(k);
    }
    StartZero(c, 7);
    StartNext(c, 7);
    StartNext(c, 8);
    StartNext(c, 9);
    StartSame(c, 10, MAX_BITS + 1);
    FixedSums();
    CountsAt(b, 0);
  }

  /** The fixed distance code lacks two codes of five bits. */
  lemma FixedDistShape()
    ensures var b := Deflate.FixedDist();
            Kraft(b) < P2(MAX_BITS) && !Empty(b) && Width(b, 5) == 5 && Roomy(b, 5)
  {
    hide Count, Counts, Start, P2, Shl, Longest, Shortest;
    var b := Deflate.FixedDist();
    var c := Counts(b);
    forall k | 0 <= k <= MAX_BITS
      ensures c[k] == if k == 5 then 30 else 0
    {
      FixedDistCounts(k);
    }
    StartZero(c, 5);
    StartNext(c, 5);
    StartSame(c, 6, MAX_BITS + 1);
    FixedSums();
    CountsAt(b, 0);
  }

  /** One less than x in 32 bits. */
  function Less(x: nat): (y: nat)
    requires x < 0x1_0000_0000
    ensures y < 0x1_0000_0000 && (x > 0 ==> y == x - 1)
  {
    (x + 0xffff_ffff) % 0x1_0000_0000
  }

  /** The copy of inflate_fast when the source lies before the write pointer, with its 32-bit counter
      (zlib/inffast.c:98-119): the number of bytes written for a length of c0.  That is the length just
      when it is at least three, as all lengths of the format are. */
  method Unrolled(c0: nat) returns (written: nat)
    requires c0 < 0x1_0000_0000
    ensures written == if c0 < 3 then 0x1_0000_0000 + c0 else c0
  {
    var c := c0;
    written := 1;                            // *q++ = *r++;  c--;
    c := Less(c);
    written := written + 1;                  // *q++ = *r++;  c--;
    c := Less(c);
    ghost var rest := if c == 0 then 0x1_0000_0000 else c;
    written := written + 1;                  // do { *q++ = *r++;
    c := Less(c);                            // } while (--c);
    while c != 0
      invariant c < 0x1_0000_0000 && written + c == 2 + rest
      decreases c
    {
      written := written + 1;
      c := Less(c);
    }
  }

  /** Where the codes of seven, eight and nine bits begin in a fixed block. */
  lemma FixedFirst()
    ensures var c := Counts(Deflate.FixedLit()); NextCode(c, 7) == 0 && NextCode(c, 8) == 48 && NextCode(c, 9) == 400
  {
    hide Count, Counts;
    var c := Counts(Deflate.FixedLit());
    forall k | 0 <= k <= MAX_BITS
      ensures c[k] == if k == 7 then 24 else if k == 8 then 152 else if k == 9 then 112 else 0
    {
      FixedLitCounts(k);
    }
    NextCodeZero(c, 7);
    assert NextCode(c, 8) == 48;
  }

  /** The codes of a fixed block, as section 3.2.6 of RFC 1951 lists them. */
  lemma FixedCode(v: nat)
    requires v < 288
    ensures var b := Deflate.FixedLit();
            && b[v] == (if v < 144 then 8 else if v < 256 then 9 else if v < 280 then 7 else 8)
            && Code(b, v) == if v < 144 then 0x30 + v
                             else if v < 256 then 0x190 + (v - 144)
                             else if v < 280 then v - 256
                             else 0xc0 + (v - 280)
  {
    hide Count, Counts, NextCode;
    var b := Deflate.FixedLit();
    var k := b[v];
    FixedFirst();
    CountNone(b, k);
    var m0, m1, m2 := if v < 144 then v else 144, if v < 256 then v else 256, if v < 280 then v else 280;
    CountRun(b, 0, m0, 8, k);
    if v >= 144 {
      CountRun(b, 144, m1, 9, k);
    }
    if v >= 256 {
      CountRun(b, 256, m2, 7, k);
    }
    if v >= 280 {
      CountRun(b, 280, v, 8, k);
    }
  }

  /** A distance code of a fixed block is the distance symbol in five bits. */
  lemma FixedDistanceCode(v: nat)
    requires v < 30
    ensures Deflate.FixedDist()[v] == 5 && Code(Deflate.FixedDist(), v) == v
  {
    hide Count, Counts, NextCode;
    var b := Deflate.FixedDist();
    forall k | 1 <= k < 5
      ensures Counts(b)[k] == 0
    {
      FixedDistCounts(k);
    }
    NextCodeZero(Counts(b), 5);
    CountNone(b, 5);
    CountRun(b, 0, v, 5, 5);
  }

  /** The codes of three symbols in a fixed block: a literal, the end of the block, and an invalid one. */
  lemma FixedCodes()
    ensures var b := Deflate.FixedLit();
            && b[65] == b[286] == 8 && b[256] == 7
            && Code(b, 65) == 0x71 && Code(b, 256) == 0 && Code(b, 286) == 0xc6
  {
    hide Code, Deflate.FixedLit;
    FixedCode(65);
    FixedCode(256);
    FixedCode(286);
  }

  lemma {:induction false} NextCodeZero(c: seq<nat>, k: nat)
    requires |c| == MAX_BITS + 1 && k <= MAX_BITS && forall j :: 1 <= j < k ==> c[j] == 0
    ensures NextCode(c, k) == 0
  {
    if k > 1 {
      NextCodeZero(c, k - 1);
    }
  }

  lemma CountNone(b: Lengths, k: nat)
    ensures Count(b, 0, k) == 0
  {
  }

  method SetRun(c: array<nat>, from: nat, to: nat, len: nat)
    requires from <= to <= c.Length
    modifies c
    ensures forall i :: 0 <= i < c.Length ==> c[i] == if from <= i < to then len else old(c[i])
  {
    for k := from to to
      invariant forall i :: 0 <= i < c.Length ==> c[i] == if from <= i < k then len else old(c[i])
    {
      c[k] := len;
    }
  }

  /** Build the fixed trees: zlib/inftrees.c:410-456. */
  method TreesFixed() returns (tl: Tree, td: Tree)
    ensures TreeFor(LitSet(Deflate.FixedLit()), tl, 7) && TreeFor(DistSet(Deflate.FixedDist()), td, 5)
  {
    hide Shl, Count, Counts, Start, Rank, Longest, Shortest, Shr, Usable, Empty, Decodes, Kraft, P2, Roomy, Width;
    FixedLitShape();
    FixedDistShape();
    ValidSets(Deflate.FixedLit());
    ValidSets(Deflate.FixedDist());
    StatusNotData(Deflate.FixedLit());
    StatusNotData(Deflate.FixedDist());
    var r;
    var c := new nat[288];
    SetRun(c, 0, 144, 8);
    SetRun(c, 144, 256, 9);
    SetRun(c, 256, 280, 7);
    SetRun(c, 280, 288, 8);
    assert c[..] == Deflate.FixedLit();
    r, tl := HuftBuild(LitSet(c[..]), 7);
    SetRun(c, 0, 30, 5);
    assert c[..30] == Deflate.FixedDist();
    r, td := HuftBuild(DistSet(c[..30]), 5);
  }

  lemma StatusNotData(b: Lengths)
    ensures !Empty(b) && Kraft(b) <= P2(MAX_BITS) ==> Status(b) != Z_DATA_ERROR
  {
    hide Count, Counts, Start, Longest, P2;
  }
}
