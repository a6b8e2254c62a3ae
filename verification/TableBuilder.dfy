/** The main loops of huft_build in zlib/inftrees.c: entering the codes of a set into tables. */
module TableBuilder {
  import opened BitMath
  import opened Huffman
  import opened HuftTables
  import opened TableInvariant
  import opened CodeCounts

  /** The variables of huft_build's main loop: pool holds the tables allocated so far, u and x are the
      table and code stacks, h and w the level and the bits decoded before it, i the code (its first bit
      lowest), q and z the start and size of the table being filled. */
  datatype Work = Work(pool: seq<Huft>, u: seq<nat>, x: seq<nat>, h: int, w: int, i: nat, q: nat, z: nat)

  /** Every code below t has at most t.w + t.bits bits, unless t has the full width. */
  ghost predicate Narrow(sh: Shape, t: Tab)
    requires sh.Valid() && t.w + t.bits <= MAX_BITS
  {
    t.bits >= sh.l || Start(sh.c, t.w + t.bits + 1) >= t.TabHi()
  }

  /** When subtables never outgrow the nominal width: see AddTable. */
  predicate Fits(sh: Shape, g: nat)
    requires sh.Valid()
  {
    g <= 2 * sh.l || Rank(sh.c, MAX_BITS + 1) < P2(sh.l + 1)
  }

  /** u and x hold the start and the path of the table at each level. */
  ghost predicate Recorded(tabs: seq<Tab>, stk: seq<nat>, u: seq<nat>, x: seq<nat>) {
    && |stk| <= |u| && |stk| <= |x|
    && forall t :: 0 <= t < |stk| && stk[t] < |tabs| ==> u[t] == tabs[stk[t]].start && x[t] == tabs[stk[t]].pfx
  }

  /** The stacks and the layout of the tables. */
  ghost predicate Shaped(sh: Shape, g: nat, wk: Work, tabs: seq<Tab>, stk: seq<nat>)
    requires sh.Valid()
  {
    && |wk.u| == MAX_BITS && |wk.x| == MAX_BITS + 1 && wk.x[0] == 0 && g <= MAX_BITS
    && wk.h == |stk| - 1 && Laid(wk.pool, tabs)
    && (|stk| == 0 ==> tabs == [] && wk.pool == [] && wk.w + sh.l == 0 && wk.i == 0)
    && (|stk| > 0 ==>
          && Stacked(sh, tabs, stk, wk.i) && stk[0] == 0 && tabs[0].w == 0
          && wk.h <= wk.w == tabs[Top(stk)].w && wk.w < MAX_BITS && wk.i < P2(wk.w + sh.l) && wk.i < P2(MAX_BITS)
          && Recorded(tabs, stk, wk.u, wk.x)
          && (forall t :: 0 <= t < |stk| ==> tabs[stk[t]].w + tabs[stk[t]].bits <= g && Narrow(sh, tabs[stk[t]])))
  }

  /** The entries of all codes that start below f are in place. */
  ghost predicate Placed(sh: Shape, pool: seq<Huft>, tabs: seq<Tab>, stk: seq<nat>, f: nat)
    requires sh.Valid() && Laid(pool, tabs)
  {
    && AllSnug(sh, tabs) && DoneBelow(sh, pool, tabs, f)
    && (|stk| > 0 ==> Settled(sh, pool, tabs, stk, f))
  }

  /** The code at hand: number idx of those of k bits. */
  ghost predicate IsCode(sh: Shape, g: nat, i: nat, k: nat, idx: nat)
    requires sh.Valid()
  {
    && 1 <= k <= g <= MAX_BITS && idx < sh.c[k] && i < P2(MAX_BITS) && Msb(i, MAX_BITS) == Lo(sh.c, k, idx)
    && Start(sh.c, g + 1) == P2(MAX_BITS)
  }

  // ---- Choosing the size of a table ----

  /** From code (k, idx) on, the codes of k bits end a + 1 codes later. */
  lemma RestOfLength(sh: Shape, k: nat, idx: nat, a: nat)
    requires sh.Valid() && 1 <= k <= MAX_BITS && idx + a + 1 == sh.c[k]
    ensures Start(sh.c, k + 1) == Lo(sh.c, k, idx) + Shl(a + 1, MAX_BITS - k)
  {
    hide P2, Shl, Count, Counts;
    ShlPlus(idx, a + 1, MAX_BITS - k);
  }

  /** Adding a bit to the table doubles the patterns left; the codes of that length use some of them. */
  lemma Widen(sh: Shape, w: nat, j: nat, f: nat, end: int)
    requires sh.Valid() && 1 <= j && w + j <= MAX_BITS
    requires Shl(f, MAX_BITS - (w + j - 1)) == end - Start(sh.c, w + j)
    ensures 2 * f <= sh.c[w + j] ==> Start(sh.c, w + j + 1) >= end
    ensures 2 * f > sh.c[w + j] ==> Shl(2 * f - sh.c[w + j], MAX_BITS - (w + j)) == end - Start(sh.c, w + j + 1)
  {
    hide Count, Counts, P2, Shl;
    var n := MAX_BITS - (w + j);
    ShlDouble(f, n);
    if 2 * f <= sh.c[w + j] {
      ShlMono(2 * f, sh.c[w + j], n);
    } else {
      ShlPlus(2 * f - sh.c[w + j], sh.c[w + j], n);
    }
  }

  /** The smallest table of at least k - w and at most l bits that all the codes below it fill, or else
      the largest: zlib/inftrees.c:220-235.  a codes of k bits are left after the one at hand. */
  method TableBits(sh: Shape, g: nat, k: nat, w: nat, a: nat, ghost i: nat, ghost idx: nat) returns (j: nat)
    requires sh.Valid() && IsCode(sh, g, i, k, idx) && idx + a + 1 == sh.c[k] && w < k && i < P2(w)
    ensures k - w <= j && w + j <= g && (j == k - w || j <= sh.l)
    ensures Narrow(sh, Tab(0, j, w, i)) && Start(sh.c, w + j) < Tab(0, j, w, i).TabHi()
  {
    hide Shr, Low, Msb, Count, NextCode, Counts, P2, Shl, Start;
    ghost var end := Msb(i, MAX_BITS) + P2(MAX_BITS - w);
    InClass(i, w, i);
    RestOfLength(sh, k, idx, a);
    LoBelow(sh.c, k, idx);
    ShlP2(k - w, MAX_BITS - k);
    var z := if g - w > sh.l then sh.l else g - w;
    j := k - w;
    var f: nat := P2(k - w);
    if f > a + 1 {
      ShlPlus(f - (a + 1), a + 1, MAX_BITS - k);
      f := f - (a + 1);
      if j < z {
        j := j + 1;
        while j < z
          invariant k - w < j <= z
          invariant f > 0 && Shl(f, MAX_BITS - (w + j - 1)) == end - Start(sh.c, w + j)
        {
          Widen(sh, w, j, f, end);
          f := 2 * f;
          if f <= sh.c[w + j] {
            break;
          }
          f := f - sh.c[w + j];
          j := j + 1;
        }
      }
    } else {
      ShlMono(f, a + 1, MAX_BITS - k);
    }
  }

  // ---- Adding a table ----

  /** The current table is wide enough for the code, or full width. */
  lemma CurrentWide(sh: Shape, g: nat, t: Tab, pool: seq<Huft>, i: nat, k: nat, idx: nat)
    requires sh.Valid() && IsCode(sh, g, i, k, idx) && t.Valid(pool) && Low(i, t.w) == t.pfx && Narrow(sh, t)
    ensures k > t.w + sh.l ==> t.bits >= sh.l
    ensures k <= t.w + sh.l ==> k <= t.w + t.bits
  {
    hide Shr, Low, Shl, P2, Msb, Count, NextCode, Counts;
    InClass(i, t.w, t.pfx);
    LoBelow(sh.c, k, idx);
    if t.w + t.bits + 1 <= k {
      StartMono(sh.c, t.w + t.bits + 1, k);
    }
  }

  /** The codes from (k, idx) on of fewer than j bits span at most 2^(15-k) each. */
  lemma {:induction false} SpanBound(c: seq<nat>, k: nat, idx: nat, j: nat)
    requires |c| == MAX_BITS + 1 && 1 <= k < j <= MAX_BITS + 1 && idx < c[k]
    ensures Start(c, j) <= Lo(c, k, idx) + Shl(Rank(c, j), MAX_BITS - k)
    decreases j
  {
    hide P2;
    if j == k + 1 {
      ShlMono(c[k], Rank(c, j), MAX_BITS - k);
    } else {
      SpanBound(c, k, idx, j - 1);
      ShlPlus(Rank(c, j - 1), c[j - 1], MAX_BITS - k);
      ShlNarrower(c[j - 1], MAX_BITS - (j - 1), MAX_BITS - k);
    }
  }

  /** Under the size hypothesis a subtable has at most the nominal width. */
  lemma SubtableFits(sh: Shape, g: nat, i: nat, k: nat, idx: nat, w: nat)
    requires sh.Valid() && IsCode(sh, g, i, k, idx) && Fits(sh, g)
    requires sh.l <= w < k && i < P2(w)
    ensures k - w <= sh.l
  {
    hide Shr, Low, Shl, P2, Msb, Count, NextCode, Counts, Start;
    if k - w > sh.l {
      assert g > 2 * sh.l;
      InClass(i, w, i);
      LowSmall(i, w);
      SpanBound(sh.c, k, idx, MAX_BITS + 1);
      var n := Rank(sh.c, MAX_BITS + 1);
      ShlP2(k - w, MAX_BITS - k);
      P2Mono(sh.l + 1, k - w);
      ShlNext(n, MAX_BITS - k);
      ShlMono(n + 1, P2(k - w), MAX_BITS - k);
      assert false;
    }
  }

  /** The state after AddTable adds a table of j bits. */
  function Added(wk: Work, j: nat, l: nat): Work
    requires |wk.u| == MAX_BITS && |wk.x| == MAX_BITS + 1 && -1 <= wk.h < MAX_BITS - 1
    requires wk.h >= 0 ==> wk.w >= 0 && wk.u[wk.h] + Shr(wk.i, wk.w) < |wk.pool|
  {
    var q := |wk.pool|;
    var at := if wk.h < 0 then 0 else wk.u[wk.h] + Shr(wk.i, wk.w);
    Work(Extend(wk.pool, j, at, wk.h >= 0, l), wk.u[wk.h + 1 := q], wk.x[wk.h + 1 := wk.i],
         wk.h + 1, wk.w + l, wk.i, q, P2(j))
  }

  /** The slot the link goes to exists. */
  lemma LinkSpot(sh: Shape, g: nat, wk: Work, tabs: seq<Tab>, stk: seq<nat>, k: nat, idx: nat)
    requires sh.Valid() && Shaped(sh, g, wk, tabs, stk) && IsCode(sh, g, wk.i, k, idx)
    requires wk.w + sh.l < k && |stk| > 0
    ensures wk.h < MAX_BITS && tabs[Top(stk)].bits >= sh.l && wk.u[wk.h] == tabs[Top(stk)].start
    ensures Shr(wk.i, wk.w) < P2(sh.l) && wk.u[wk.h] + Shr(wk.i, wk.w) < |wk.pool|
  {
    hide Shr, Low, Shl, P2, Msb, Count, NextCode, Counts, Start;
    var t := tabs[Top(stk)];
    CurrentWide(sh, g, t, wk.pool, wk.i, k, idx);
    LowSmall(wk.i, wk.w + sh.l);
    LowOfLow(wk.i, wk.w, wk.w + sh.l);
    P2Mono(sh.l, t.bits);
  }

  lemma AddedLaid(sh: Shape, pool: seq<Huft>, tabs: seq<Tab>, t: Tab, pool': seq<Huft>)
    requires Laid(pool, tabs) && |pool| <= |pool'| && t.start == |pool| && t.Valid(pool')
    ensures Laid(pool', tabs + [t])
  {
    hide P2;
    var tabs' := tabs + [t];
    forall m, n | 0 <= m < n < |tabs'|
      ensures Before(tabs'[m], tabs'[n])
    {
      if n < |tabs| { assert Before(tabs[m], tabs[n]); }
    }
  }

  lemma AddedStacked(sh: Shape, tabs: seq<Tab>, stk: seq<nat>, t: Tab, i: nat)
    requires (|stk| == 0 && tabs == []) || (Stacked(sh, tabs, stk, i) && t.w == tabs[Top(stk)].w + sh.l)
    requires t.pfx == i < P2(t.w)
    ensures Stacked(sh, tabs + [t], stk + [|tabs|], i)
  {
    hide P2, Low;
    LowSmall(i, t.w);
  }

  lemma AddedShaped(sh: Shape, g: nat, wk: Work, tabs: seq<Tab>, stk: seq<nat>, k: nat, idx: nat, j: nat)
    requires sh.Valid() && Shaped(sh, g, wk, tabs, stk) && IsCode(sh, g, wk.i, k, idx)
    requires wk.w + sh.l < k && wk.h < MAX_BITS - 1
    requires |stk| > 0 ==> wk.u[wk.h] + Shr(wk.i, wk.w) < |wk.pool|
    requires k - (wk.w + sh.l) <= j && wk.w + sh.l + j <= g && Narrow(sh, Tab(0, j, wk.w + sh.l, wk.i))
    ensures Shaped(sh, g, Added(wk, j, sh.l), tabs + [Tab(|wk.pool|, j, wk.w + sh.l, wk.i)], stk + [|tabs|])
  {
    hide Shr, Low, Shl, P2, Msb, Count, NextCode, Counts, Start;
    var w := wk.w + sh.l;
    var t := Tab(|wk.pool|, j, w, wk.i);
    ZeroReads();
    P2Mono(w, w + sh.l);
    AddedLaid(sh, wk.pool, tabs, t, Added(wk, j, sh.l).pool);
    AddedStacked(sh, tabs, stk, t, wk.i);
    assert Narrow(sh, t);
    assert Recorded(tabs + [t], stk + [|tabs|], wk.u[|stk| := |wk.pool|], wk.x[|stk| := wk.i]);
  }

  /** The width that TableBits chose is the one that TableWidth says. */
  lemma NewSnug(sh: Shape, t: Tab)
    requires sh.Valid() && 1 <= t.bits <= sh.l && t.w + t.bits <= MAX_BITS && t.pfx < P2(t.w)
    requires Narrow(sh, t) && Start(sh.c, t.w + t.bits) < t.TabHi()
    ensures Snug(sh, t)
  {
    hide Shr, Low, Shl, P2, Msb, Count, Counts, Start;
    InClass(0, t.w, t.pfx);
    WidthFound(sh.c, sh.l, t.w, t.TabHi(), 1, t.bits);
  }

  lemma AddedPlaced(sh: Shape, g: nat, wk: Work, tabs: seq<Tab>, stk: seq<nat>, k: nat, idx: nat, j: nat)
    requires sh.Valid() && Shaped(sh, g, wk, tabs, stk) && IsCode(sh, g, wk.i, k, idx)
    requires wk.w + sh.l < k && wk.h < MAX_BITS - 1
    requires |stk| > 0 ==> wk.u[wk.h] + Shr(wk.i, wk.w) < |wk.pool|
    requires k - (wk.w + sh.l) <= j && wk.w + sh.l + j <= g && (j == k - (wk.w + sh.l) || j <= sh.l)
    requires Narrow(sh, Tab(0, j, wk.w + sh.l, wk.i))
    requires Start(sh.c, wk.w + sh.l + j) < Tab(0, j, wk.w + sh.l, wk.i).TabHi()
    requires Fits(sh, g) && Placed(sh, wk.pool, tabs, stk, Lo(sh.c, k, idx))
    requires |stk| == 0 ==> k <= sh.l && Lo(sh.c, k, idx) == 0
    requires Shaped(sh, g, Added(wk, j, sh.l), tabs + [Tab(|wk.pool|, j, wk.w + sh.l, wk.i)], stk + [|tabs|])
    ensures Placed(sh, Added(wk, j, sh.l).pool, tabs + [Tab(|wk.pool|, j, wk.w + sh.l, wk.i)], stk + [|tabs|],
                   Lo(sh.c, k, idx))
  {
    hide Shr, Low, Shl, P2, Msb, Count, NextCode, Counts, Start;
    var tabs' := tabs + [Tab(|wk.pool|, j, wk.w + sh.l, wk.i)];
    if |stk| > 0 {
      SubtableFits(sh, g, wk.i, k, idx, wk.w + sh.l);
      LinkSpot(sh, g, wk, tabs, stk, k, idx);
      AddedDone(sh, wk.pool, tabs, stk, wk.i, j, Added(wk, j, sh.l).pool, tabs');
    }
    NewSnug(sh, Tab(|wk.pool|, j, wk.w + sh.l, wk.i));
  }

  /** Add the table for the next level and link it from the current one: zlib/inftrees.c:215-262. */
  method AddTable(sh: Shape, g: nat, k: nat, a: nat, wk: Work, ghost idx: nat, ghost tabs: seq<Tab>,
                  ghost stk: seq<nat>)
    returns (wk': Work, ghost tabs': seq<Tab>, ghost stk': seq<nat>)
    requires sh.Valid() && Shaped(sh, g, wk, tabs, stk) && IsCode(sh, g, wk.i, k, idx) && idx + a + 1 == sh.c[k]
    requires wk.w + sh.l < k
    requires Fits(sh, g) ==>
              Placed(sh, wk.pool, tabs, stk, Lo(sh.c, k, idx)) && (|stk| == 0 ==> k <= sh.l && Lo(sh.c, k, idx) == 0)
    ensures Shaped(sh, g, wk', tabs', stk') && wk'.i == wk.i && wk'.w == wk.w + sh.l
    ensures |stk'| == |stk| + 1 && tabs <= tabs' && |tabs'| > 0
    ensures wk'.q == tabs'[Top(stk')].start && wk'.z == P2(tabs'[Top(stk')].bits)
    ensures Fits(sh, g) ==> Placed(sh, wk'.pool, tabs', stk', Lo(sh.c, k, idx))
  {
    hide Shr, Low, Shl, P2, Msb, Count, NextCode, Counts, Start;
    var h, w := wk.h + 1, wk.w + sh.l;
    if h > 0 {
      LinkSpot(sh, g, wk, tabs, stk, k, idx);
    }
    assert wk.i < P2(w) by { P2Small(); }
    var j := TableBits(sh, g, k, w, a, wk.i, idx);
    AddedShaped(sh, g, wk, tabs, stk, k, idx, j);
    if Fits(sh, g) {
      AddedPlaced(sh, g, wk, tabs, stk, k, idx, j);
    }
    tabs', stk' := tabs + [Tab(|wk.pool|, j, w, wk.i)], stk + [|tabs|];
    var q := |wk.pool|;                                   // allocate
    var pool := wk.pool;
    if h > 0 {
      var at := wk.u[h - 1] + Shr(wk.i, w - sh.l);
      pool := pool[at := Huft(j, sh.l, q)];               // connect to the last table
    }
    pool := pool + seq(P2(j), _ => Huft(0, 0, 0));
    wk' := Work(pool, wk.u[h := q], wk.x[h := wk.i], h, w, wk.i, q, P2(j));
    assert wk' == Added(wk, j, sh.l);
  }

  // ---- Entering a code ----

  lemma {:induction false} LowStep(x: nat, n: nat)
    ensures Low(x + P2(n), n) == Low(x, n)
  {
    ShrLow(x, n);
    ShlNext(Shr(x, n), n);
    ShrLowUnique(x + P2(n), n, Shr(x, n) + 1, Low(x, n));
  }

  /** Numbers with the same n low bits are 2^n or more apart. */
  lemma LowApart(x: nat, y: nat, n: nat)
    requires x < y && Low(x, n) == Low(y, n)
    ensures x + P2(n) <= y
  {
    ShrLow(x, n);
    ShrLow(y, n);
    if Shr(x, n) >= Shr(y, n) {
      ShlMono(Shr(y, n), Shr(x, n), n);
    }
    ShlNext(Shr(x, n), n);
    ShlMono(Shr(x, n) + 1, Shr(y, n), n);
  }

  /** The entries below j whose low n bits are v have been set to r. */
  ghost predicate FilledTo(pool: seq<Huft>, pool': seq<Huft>, q: nat, z: nat, n: nat, v: nat, r: Huft, j: nat) {
    && |pool'| == |pool|
    && forall s {:trigger pool'[s]} :: 0 <= s < |pool| ==>
         pool'[s] == if q <= s < q + z && s < q + j && Low(s - q, n) == v then r else pool[s]
  }

  lemma FillStep(pool: seq<Huft>, pool': seq<Huft>, q: nat, z: nat, n: nat, v: nat, r: Huft, j: nat)
    requires q + z <= |pool| && j < z && Low(j, n) == v && FilledTo(pool, pool', q, z, n, v, r, j)
    ensures FilledTo(pool, pool'[q + j := r], q, z, n, v, r, j + P2(n))
    ensures Low(j + P2(n), n) == v
  {
    var pool2 := pool'[q + j := r];
    LowStep(j, n);
    forall s | 0 <= s < |pool|
      ensures pool2[s] == if q <= s < q + z && s < q + (j + P2(n)) && Low(s - q, n) == v then r else pool[s]
    {
      if q + j < s < q + z && Low(s - q, n) == v {
        LowApart(j, s - q, n);
      }
    }
  }

  lemma FillStart(pool: seq<Huft>, q: nat, z: nat, n: nat, v: nat, r: Huft)
    requires v < P2(n)
    ensures FilledTo(pool, pool, q, z, n, v, r, v) && Low(v, n) == v
  {
    LowSmall(v, n);
    forall e: nat | e < v
      ensures Low(e, n) != v
    {
      LowSmall(e, n);
    }
  }

  /** Fill code-like entries with r: zlib/inftrees.c:279-282. */
  method FillEntries(pool: seq<Huft>, q: nat, z: nat, i: nat, k: nat, w: nat, r: Huft, ghost t: Tab)
    returns (pool': seq<Huft>)
    requires t.Valid(pool) && q == t.start && z == P2(t.bits) && w == t.w < k && Shr(i, w) < P2(k - w)
    ensures Filled(pool, pool', t, k, i, r)
  {
    pool' := pool;
    var f := P2(k - w);
    var j := Shr(i, w);
    FillStart(pool, q, z, k - w, Shr(i, w), r);
    while j < z
      invariant FilledTo(pool, pool', q, z, k - w, Shr(i, w), r, j) && Low(j, k - w) == Shr(i, w)
      decreases z - j
    {
      FillStep(pool, pool', q, z, k - w, Shr(i, w), r, j);
      pool' := pool'[q + j := r];
      j := j + f;
    }
  }

  /** Bit j - 1 of the low j bits of i, and how they read without it. */
  lemma TopBit(i: nat, j: nat)
    requires j >= 1
    ensures var b, rest := Shr(Low(i, j), j - 1), Low(i, j - 1);
            && b <= 1 && Low(i, j) == rest + (if b == 1 then P2(j - 1) else 0)
            && Msb(Low(i, j), j) == 2 * Msb(rest, j - 1) + b
  {
    hide P2, Shl, Shr;
    LowOfLow(i, j - 1, j);
    CutTwice(i, j - 1, 1);
    ShlOne(j - 1);
    MsbLow(Low(i, j), j - 1, j - 1);
    assert Low(Shr(i, j - 1), 1) == Shr(i, j - 1) % 2;
  }

  /** Setting bit j - 1 above j - 1 bits. */
  lemma SetBit(i: nat, j: nat)
    requires j >= 1 && i < P2(j - 1)
    ensures Msb(i + P2(j - 1), j) == Msb(i, j) + 1 && Low(i + P2(j - 1), j - 1) == i
  {
    hide Shl, Shr;
    LowSmall(i, j - 1);
    ShlOne(j - 1);
    ShrLowUnique(i + P2(j - 1), j - 1, 1, i);
    MsbLow(i + P2(j - 1), j - 1, j - 1);
  }

  /** What adding one to a k-bit code, first bit lowest, does: the ones at the end of the code are
      cleared and the last zero, if any, is set.  t is the number of bits up to that zero. */
  ghost predicate Incremented(i: nat, i': nat, k: nat, t: nat) {
    && t <= k && i' < P2(t) && (t == 0 ==> i' == 0)
    && (t > 0 ==> Low(i', t - 1) == Low(i, t - 1))
  }

  /** Backwards increment the k-bit code i: zlib/inftrees.c:284-287. */
  method NextBackwards(i: nat, k: nat) returns (i': nat, ghost t: nat)
    requires 1 <= k <= MAX_BITS && i < P2(k)
    ensures Incremented(i, i', k, t)
    ensures if Msb(i, k) + 1 == P2(k) then i' == 0 else Msb(i', k) == Msb(i, k) + 1
  {
    hide P2, Shl, Low, Shr, Msb;
    i' := i;
    var j := k;                               // the mask is 1 << (j - 1), gone when j == 0
    LowSmall(i, k);
    assert Shl(Msb(i, k) + 1, 0) == Msb(i, k) + 1 by { NoShift(Msb(i, k) + 1); }
    while j > 0 && Shr(i', j - 1) % 2 == 1    // i & mask
      invariant 0 <= j <= k && i' == Low(i, j)
      invariant Shl(Msb(i', j) + 1, k - j) == Msb(i, k) + 1
      decreases j
    {
      TopBit(i, j);
      ShlDouble(Msb(Low(i, j - 1), j - 1) + 1, k - j);
      i' := i' - P2(j - 1);
      j := j - 1;
    }
    t := j;
    if j > 0 {
      TopBit(i, j);
      SetBit(i', j);
      i' := i' + P2(j - 1);
      assert i' < P2(j) by { assert P2(j) == 2 * P2(j - 1) by { P2Next(j); } }
      MsbZeros(i', j, k);
      MsbBound(i', k);
    } else {
      ShlOne(k);
      Zero(i);
    }
  }

  lemma P2Next(j: nat)
    requires j > 0
    ensures P2(j) == 2 * P2(j - 1)
  {
  }

  lemma Zero(i: nat)
    ensures Low(i, 0) == 0 && Msb(0, 0) == 0 && P2(0) == 1
  {
  }

  // ---- From one code to the next ----

  /** The incremented code starts where the interval of the code ends. */
  lemma NextStart(sh: Shape, g: nat, i: nat, i2: nat, k: nat, idx: nat, t: nat)
    requires sh.Valid() && IsCode(sh, g, i, k, idx) && i < P2(k) && Incremented(i, i2, k, t)
    requires if Msb(i, k) + 1 == P2(k) then i2 == 0 else Msb(i2, k) == Msb(i, k) + 1
    ensures i2 < P2(MAX_BITS)
    ensures Lo(sh.c, k, idx + 1) == Lo(sh.c, k, idx) + P2(MAX_BITS - k)
    ensures Lo(sh.c, k, idx + 1) == P2(MAX_BITS) || Msb(i2, MAX_BITS) == Lo(sh.c, k, idx + 1)
    ensures Msb(i, k) == NextCode(sh.c, k) + idx
  {
    hide Shr, Low, Shl, P2, Msb, Count, NextCode, Counts, Start;
    LoBelow(sh.c, k, idx);
    InInterval(sh.c, k, idx, i);
    MsbZeros(i, k, MAX_BITS);
    P2Mono(t, k);
    P2Mono(k, MAX_BITS);
    MsbZeros(i2, k, MAX_BITS);
    ShlNext(Msb(i, k), MAX_BITS - k);
    ShlP2(k, MAX_BITS - k);
  }

  /** A level that the increment leaves was entered at or above the last changed bit. */
  lemma LeftLevel(i: nat, i2: nat, k: nat, t: nat, w: nat)
    requires Incremented(i, i2, k, t) && Low(i, w) != Low(i2, w)
    ensures t <= w
  {
    hide Low, P2;
    if w < t {
      LowOfLow(i, w, t - 1);
      LowOfLow(i2, w, t - 1);
    }
  }

  /** The stack below a level that the next code shares is shared too. */
  lemma SharedBelow(sh: Shape, tabs: seq<Tab>, stk: seq<nat>, stk2: seq<nat>, i: nat, i2: nat)
    requires Stacked(sh, tabs, stk, i) && stk2 <= stk && |stk2| > 0
    requires Low(i2, tabs[Top(stk2)].w) == tabs[Top(stk2)].pfx
    ensures Stacked(sh, tabs, stk2, i2)
  {
    hide Shr, Low, Shl, P2;
    var w := tabs[Top(stk2)].w;
    assert stk[|stk2| - 1] == Top(stk2);
    forall t | 0 <= t < |stk2|
      ensures Low(i2, tabs[stk2[t]].w) == tabs[stk2[t]].pfx
    {
      assert stk2[t] == stk[t];
      if t < |stk2| - 1 {
        StackMono(sh, tabs, stk, i, t, |stk2| - 1);
      }
      LowOfLow(i, tabs[stk[t]].w, w);
      LowOfLow(i2, tabs[stk[t]].w, w);
    }
    forall t | 0 <= t < |stk2| - 1
      ensures tabs[stk2[t + 1]].w == tabs[stk2[t]].w + sh.l
    {
      assert stk2[t] == stk[t] && stk2[t + 1] == stk[t + 1];
    }
  }

  lemma LevelPopped(sh: Shape, tabs: seq<Tab>, stk: seq<nat>, i: nat, i2: nat, k: nat, t: nat, h: nat)
    requires Stacked(sh, tabs, stk, i) && Incremented(i, i2, k, t) && h < |stk| && tabs[stk[0]].w == 0
    requires Low(i2, tabs[stk[h]].w) != tabs[stk[h]].pfx
    ensures h > 0 && tabs[stk[h]].w == tabs[stk[h - 1]].w + sh.l && i2 < P2(tabs[stk[h]].w)
  {
    hide Shr, Shl, P2, Msb;
    LeftLevel(i, i2, k, t, tabs[stk[h]].w);
    P2Mono(t, tabs[stk[h]].w);
    if h > 0 {
      assert tabs[stk[(h - 1) + 1]].w == tabs[stk[h - 1]].w + sh.l;
    }
  }

  /** The loop that backs up. */
  method PopLevels(sh: Shape, wk: Work, i2: nat, k: nat, ghost tabs: seq<Tab>, ghost stk: seq<nat>, ghost t: nat)
    returns (h: int, w: nat, ghost stk2: seq<nat>)
    requires Stacked(sh, tabs, stk, wk.i) && tabs[stk[0]].w == 0 && Recorded(tabs, stk, wk.u, wk.x)
    requires wk.h == |stk| - 1 && wk.w == tabs[Top(stk)].w && k <= wk.w + sh.l
    requires Incremented(wk.i, i2, k, t)
    ensures 0 <= h == |stk2| - 1 < |stk| && stk2 == stk[..h + 1] && w == tabs[stk[h]].w <= wk.w
    ensures Low(i2, w) == tabs[stk[h]].pfx && i2 < P2(w + sh.l) && (stk2 == stk || w + sh.l <= wk.w)
    ensures forall m :: |stk2| <= m < |stk| ==> Low(i2, tabs[stk[m]].w) != tabs[stk[m]].pfx
  {
    hide Shr, Low, Shl, P2, Msb, Count, NextCode, Start;
    h, w, stk2 := wk.h, wk.w, stk;
    assert i2 < P2(wk.w + sh.l) by {
      P2Mono(t, k);
      P2Mono(k, wk.w + sh.l);
    }
    while Low(i2, w) != wk.x[h]
      invariant 0 <= h == |stk2| - 1 < |stk| && stk2 == stk[..h + 1] && w == tabs[stk[h]].w <= wk.w
      invariant forall m :: |stk2| <= m < |stk| ==> Low(i2, tabs[stk[m]].w) != tabs[stk[m]].pfx
      invariant i2 < P2(w + sh.l) && (stk2 == stk || w + sh.l <= wk.w)
      decreases h
    {
      LevelPopped(sh, tabs, stk, wk.i, i2, k, t, h);
      stk2 := stk2[..h];
      h := h - 1;
      w := w - sh.l;
    }
  }

  /** Back up over finished tables: zlib/inftrees.c:289-294. */
  method BackUp(sh: Shape, wk: Work, i2: nat, k: nat, ghost tabs: seq<Tab>, ghost stk: seq<nat>, ghost t: nat)
    returns (h: int, w: nat, ghost stk2: seq<nat>)
    requires Stacked(sh, tabs, stk, wk.i) && tabs[stk[0]].w == 0 && Recorded(tabs, stk, wk.u, wk.x)
    requires wk.h == |stk| - 1 && wk.w == tabs[Top(stk)].w && k <= wk.w + sh.l
    requires Incremented(wk.i, i2, k, t)
    ensures stk2 <= stk && |stk2| > 0 && h == |stk2| - 1 && w == tabs[Top(stk2)].w <= wk.w
    ensures Stacked(sh, tabs, stk2, i2) && i2 < P2(w + sh.l)
    ensures forall m :: |stk2| <= m < |stk| ==> Low(i2, tabs[stk[m]].w) != tabs[stk[m]].pfx
    ensures stk2 == stk || w + sh.l <= wk.w
  {
    hide Shr, Low, Shl, P2, Msb, Count, NextCode, Start;
    h, w, stk2 := PopLevels(sh, wk, i2, k, tabs, stk, t);
    assert Top(stk2) == stk[h];
    SharedBelow(sh, tabs, stk, stk2, wk.i, i2);
  }

  /** Give the code at hand its entry r and move on to the next: zlib/inftrees.c:279-294. */
  method Enter(sh: Shape, g: nat, k: nat, wk: Work, r: Huft, ghost idx: nat, ghost tabs: seq<Tab>, ghost stk: seq<nat>)
    returns (wk': Work, ghost stk': seq<nat>)
    requires sh.Valid() && Shaped(sh, g, wk, tabs, stk) && IsCode(sh, g, wk.i, k, idx)
    requires |stk| > 0 && wk.w < k <= wk.w + sh.l
    requires wk.q == tabs[Top(stk)].start && wk.z == P2(tabs[Top(stk)].bits)
    requires r.bits == k - wk.w && LeafOK(sh, r, k, idx)
    requires Fits(sh, g) ==> Placed(sh, wk.pool, tabs, stk, Lo(sh.c, k, idx))
    ensures Shaped(sh, g, wk', tabs, stk') && |stk'| > 0
    ensures Lo(sh.c, k, idx + 1) == P2(MAX_BITS) || Msb(wk'.i, MAX_BITS) == Lo(sh.c, k, idx + 1)
    ensures wk'.w + sh.l < k || (wk'.w == wk.w && wk'.q == tabs[Top(stk')].start && wk'.z == P2(tabs[Top(stk')].bits))
    ensures wk'.w < k
    ensures Fits(sh, g) ==> Placed(sh, wk'.pool, tabs, stk', Lo(sh.c, k, idx + 1))
  {
    hide Shr, Low, Shl, P2, Msb, Count, NextCode, Counts, Start;
    ghost var t := tabs[Top(stk)];
    CurrentWide(sh, g, t, wk.pool, wk.i, k, idx);
    CodeBits(sh, g, wk.i, k, idx);
    LowSmall(wk.i, k);
    LowOfLow(wk.i, wk.w, k);
    var pool := FillEntries(wk.pool, wk.q, wk.z, wk.i, k, wk.w, r, t);
    var i2; ghost var m;
    i2, m := NextBackwards(wk.i, k);
    NextStart(sh, g, wk.i, i2, k, idx, m);
    var h, w;
    h, w, stk' := BackUp(sh, wk, i2, k, tabs, stk, m);
    wk' := wk.(pool := pool, i := i2, h := h, w := w);
    EnterShaped(sh, g, wk, wk', tabs, stk, stk');
    if Fits(sh, g) {
      FillDone(sh, wk.pool, pool, tabs, stk, wk.i, k, idx, Lo(sh.c, k, idx), r);
      SettledNext(sh, wk.pool, pool, tabs, stk, stk', wk.i, i2, Lo(sh.c, k, idx + 1));
    }
  }

  /** The code has no bits beyond its k. */
  lemma CodeBits(sh: Shape, g: nat, i: nat, k: nat, idx: nat)
    requires sh.Valid() && IsCode(sh, g, i, k, idx)
    ensures i < P2(k)
  {
    hide Shr, Low, Shl, P2, Msb, Count, NextCode, Counts, Start;
    InInterval(sh.c, k, idx, i);
    StartIsNextCode(sh.c, k);
    ShlPlus(NextCode(sh.c, k), idx, MAX_BITS - k);
    var i0 := Low(i, k);
    MsbLow(i, k, k);
    MsbZeros(i0, k, MAX_BITS);
    P2Mono(k, MAX_BITS);
    SameReading(i, i0);
  }

  lemma EnterShaped(sh: Shape, g: nat, wk: Work, wk': Work, tabs: seq<Tab>, stk: seq<nat>, stk': seq<nat>)
    requires sh.Valid() && Shaped(sh, g, wk, tabs, stk) && stk' <= stk && |stk'| > 0
    requires |wk'.pool| == |wk.pool| && wk'.u == wk.u && wk'.x == wk.x && wk'.h == |stk'| - 1
    requires wk'.w == tabs[Top(stk')].w <= wk.w && wk'.i < P2(wk'.w + sh.l) && wk'.i < P2(MAX_BITS)
    requires Stacked(sh, tabs, stk', wk'.i)
    requires stk' == stk || wk'.w + sh.l <= wk.w
    ensures Shaped(sh, g, wk', tabs, stk')
  {
    hide Shr, Low, Shl, P2, Msb, Count, NextCode, Counts, Start;
    LevelsDeep(sh, tabs, stk', wk'.i, |stk'| - 1);
    forall t | 0 <= t < |stk'|
      ensures stk'[t] == stk[t]
    {
    }
  }

  /** Level t lies at least t bits in. */
  lemma {:induction false} LevelsDeep(sh: Shape, tabs: seq<Tab>, stk: seq<nat>, i: nat, t: nat)
    requires sh.Valid() && Stacked(sh, tabs, stk, i) && t < |stk|
    ensures t <= tabs[stk[t]].w
  {
    if t > 0 {
      LevelsDeep(sh, tabs, stk, i, t - 1);
      assert tabs[stk[(t - 1) + 1]].w == tabs[stk[t - 1]].w + sh.l;
    }
  }

  // ---- Making the tables for all codes ----

  /** v lists the symbols that have codes in the order of their codes. */
  ghost predicate Sorted(sh: Shape, v: seq<nat>)
    requires sh.Valid()
  {
    && |v| == |sh.cs.lens|
    && (forall s {:trigger sh.cs.lens[s]} :: 0 <= s < |sh.cs.lens| && sh.cs.lens[s] > 0 ==>
          var p := Rank(sh.c, sh.cs.lens[s]) + Count(sh.cs.lens, s, sh.cs.lens[s]);
          p < |v| && v[p] == s)
    && (sh.cs.AllUsed() ==> forall k {:trigger sh.c[k]} :: 1 <= k <= MAX_BITS && sh.c[k] > Counts(sh.cs.lens)[k] ==>
          Rank(sh.c, k) + Counts(sh.cs.lens)[k] == |v|)
  }

  /** Set up the table entry for the value at p, or for a code beyond the last value:
      zlib/inftrees.c:264-277.  An element of v that was never assigned may lie outside the lists;
      the C program then reads whatever is there. */
  method EntryFor(cs: CodeSet, v: array<nat>, p: nat, bits: nat) returns (r: Huft, p': nat)
    requires cs.Valid() && v.Length == |cs.lens|
    ensures r.bits == bits && p' == if p >= v.Length then p else p + 1
    ensures p >= v.Length ==> r.exop == INVALID
    ensures p < v.Length && v[p] < |cs.lens| ==> r.exop == cs.Exop(v[p]) && r.more == cs.Base(v[p])
  {
    p' := p;
    if p >= v.Length {
      r := Huft(INVALID, bits, 0);
    } else {
      if v[p] < cs.simple {
        r := Huft(if v[p] < 256 then 0 else 32 + 64, bits, v[p]);
      } else if v[p] < |cs.lens| {
        r := Huft((cs.extras[v[p] - cs.simple] + 16 + 64) % 256, bits, cs.bases[v[p] - cs.simple]);
      } else {
        var exop: nat, more: nat := *, *;
        r := Huft(exop, bits, more);
      }
      p' := p + 1;
    }
  }

  lemma EntryIsLeaf(sh: Shape, v: seq<nat>, r: Huft, k: nat, idx: nat, p: nat)
    requires sh.Valid() && Sorted(sh, v) && 1 <= k <= MAX_BITS && idx < sh.c[k]
    requires p == if Rank(sh.c, k) + idx <= |v| then Rank(sh.c, k) + idx else |v|
    requires p >= |v| ==> r.exop == INVALID
    requires p < |v| && v[p] < |sh.cs.lens| ==> r.exop == sh.cs.Exop(v[p]) && r.more == sh.cs.Base(v[p])
    ensures LeafOK(sh, r, k, idx)
  {
    hide Count, Start, NextCode, P2, Rank;
  }

  /** The main loop's state before code number idx of those of k bits. */
  ghost predicate Ready(sh: Shape, g: nat, k: nat, idx: nat, wk: Work, tabs: seq<Tab>, stk: seq<nat>)
    requires sh.Valid() && 1 <= k <= MAX_BITS
  {
    && Shaped(sh, g, wk, tabs, stk)
    && (|stk| == 0 ==> Lo(sh.c, k, idx) == 0 && k <= sh.l)
    && (Lo(sh.c, k, idx) == P2(MAX_BITS) || Msb(wk.i, MAX_BITS) == Lo(sh.c, k, idx))
    && (|stk| > 0 ==> wk.w < k)
    && (|stk| > 0 && k <= wk.w + sh.l ==> wk.q == tabs[Top(stk)].start && wk.z == P2(tabs[Top(stk)].bits))
    && (Fits(sh, g) ==> Placed(sh, wk.pool, tabs, stk, Lo(sh.c, k, idx)))
  }

  lemma NextIsCode(sh: Shape, g: nat, k: nat, idx: nat, wk: Work, tabs: seq<Tab>, stk: seq<nat>)
    requires sh.Valid() && 1 <= k <= g <= MAX_BITS && Start(sh.c, g + 1) == P2(MAX_BITS) && idx < sh.c[k]
    requires Ready(sh, g, k, idx, wk, tabs, stk)
    ensures IsCode(sh, g, wk.i, k, idx)
  {
    hide Shr, Low, Shl, P2, Msb, Count, NextCode, Counts, Start;
    LoBelow(sh.c, k, idx);
    StartMono(sh.c, k + 1, g + 1);
    P2Mono(0, MAX_BITS);
  }

  /** One pass of the inner loop, for code number idx of those of k bits: zlib/inftrees.c:213-294. */
  method PlaceCode(sh: Shape, g: nat, k: nat, a: nat, v: array<nat>, p: nat, wk: Work, ghost idx: nat,
                   ghost tabs: seq<Tab>, ghost stk: seq<nat>)
    returns (p': nat, wk': Work, ghost tabs': seq<Tab>, ghost stk': seq<nat>)
    requires sh.Valid() && Sorted(sh, v[..]) && 1 <= k <= g <= MAX_BITS && Start(sh.c, g + 1) == P2(MAX_BITS)
    requires idx + a + 1 == sh.c[k] && Ready(sh, g, k, idx, wk, tabs, stk)
    requires p == if Rank(sh.c, k) + idx <= v.Length then Rank(sh.c, k) + idx else v.Length
    ensures p' == if Rank(sh.c, k) + idx + 1 <= v.Length then Rank(sh.c, k) + idx + 1 else v.Length
    ensures Ready(sh, g, k, idx + 1, wk', tabs', stk') && |stk'| > 0
  {
    hide Shr, Low, Shl, P2, Msb, Count, NextCode, Counts, Start;
    wk', tabs', stk' := wk, tabs, stk;
    NextIsCode(sh, g, k, idx, wk, tabs, stk);
    while k > wk'.w + sh.l
      invariant Shaped(sh, g, wk', tabs', stk') && wk'.i == wk.i
      invariant |stk'| == 0 ==> wk' == wk && tabs' == tabs && stk' == stk
      invariant |stk'| > 0 ==> wk'.w < k
      invariant |stk'| > 0 && k <= wk'.w + sh.l ==>
                wk'.q == tabs'[Top(stk')].start && wk'.z == P2(tabs'[Top(stk')].bits)
      invariant Fits(sh, g) ==> Placed(sh, wk'.pool, tabs', stk', Lo(sh.c, k, idx))
      decreases k - wk'.w
    {
      wk', tabs', stk' := AddTable(sh, g, k, a, wk', idx, tabs', stk');
    }
    var r;
    r, p' := EntryFor(sh.cs, v, p, k - wk'.w);
    EntryIsLeaf(sh, v[..], r, k, idx, p);
    wk', stk' := Enter(sh, g, k, wk', r, idx, tabs', stk');
  }

  /** After the last code of k bits comes the first of k + 1 bits. */
  lemma NextLength(sh: Shape, g: nat, k: nat, wk: Work, tabs: seq<Tab>, stk: seq<nat>)
    requires sh.Valid() && 1 <= k < g <= MAX_BITS && |stk| > 0 && Ready(sh, g, k, sh.c[k], wk, tabs, stk)
    ensures Ready(sh, g, k + 1, 0, wk, tabs, stk)
  {
    hide Shr, Low, Shl, P2, Msb, Count, NextCode, Counts, Start, Shaped, Placed, Fits, Lo;
    LoEnds(sh.c, k);
    LoEnds(sh.c, k + 1);
  }

  /** Before the first code nothing is in place. */
  lemma FirstReady(sh: Shape, g: nat, k: nat, wk: Work)
    requires sh.Valid() && 1 <= k <= sh.l && g <= MAX_BITS && Start(sh.c, k) == 0
    requires |wk.u| == MAX_BITS && |wk.x| == MAX_BITS + 1 && wk.x[0] == 0 && wk.h == -1 && wk.pool == []
    requires wk.w + sh.l == 0 && wk.i == 0
    ensures Ready(sh, g, k, 0, wk, [], [])
  {
    hide Shr, Low, Shl, P2, Msb, Count, NextCode, Counts, Start;
    LoEnds(sh.c, k);
    ZeroReads();
  }

  /** When all codes are placed the tables are done. */
  lemma AllPlaced(sh: Shape, g: nat, wk: Work, tabs: seq<Tab>, stk: seq<nat>)
    requires sh.Valid() && 1 <= sh.l <= g <= MAX_BITS && Start(sh.c, g + 1) == P2(MAX_BITS) && sh.c[g] > 0
    requires |stk| > 0 && Ready(sh, g, g, sh.c[g], wk, tabs, stk)
    ensures |wk.u| > 0
    ensures Fits(sh, g) ==> Laid(wk.pool, tabs) && DoneBelow(sh, wk.pool, tabs, P2(MAX_BITS))
                            && |tabs| > 0 && tabs[0] == Tab(wk.u[0], sh.l, 0, 0) && AllSnug(sh, tabs)
  {
    hide Shr, Low, Shl, P2, Msb, Count, NextCode, Counts, Start, DoneBelow;
    LoEnds(sh.c, g);
    if Fits(sh, g) {
      RootWide(sh, g, tabs[0], wk.pool);
    }
  }

  /** The main loops of huft_build: zlib/inftrees.c:198-296. */
  method BuildTables(sh: Shape, kmin: nat, g: nat, v: array<nat>)
    returns (pool: seq<Huft>, root: nat, ghost tabs: seq<Tab>)
    requires sh.Valid() && Sorted(sh, v[..]) && 1 <= kmin <= sh.l <= g <= MAX_BITS && Start(sh.c, g + 1) == P2(MAX_BITS)
    requires Start(sh.c, kmin) == 0 && Rank(sh.c, kmin) == 0 && sh.c[kmin] > 0 && sh.c[g] > 0
    ensures Fits(sh, g) ==> Laid(pool, tabs) && DoneBelow(sh, pool, tabs, P2(MAX_BITS))
                            && |tabs| > 0 && tabs[0] == Tab(root, sh.l, 0, 0) && AllSnug(sh, tabs)
  {
    hide Shr, Low, Shl, P2, Msb, Count, NextCode, Counts, Start, Ready, Shaped, Placed, Laid, DoneBelow, Fits, Sorted,
      Rank;
    var u: seq<nat>, x: seq<nat> := seq(MAX_BITS, _ => 0), seq(MAX_BITS + 1, _ => 0);
    var wk := Work([], u, x, -1, 0 - sh.l, 0, 0, 0);
    ghost var stk: seq<nat> := [];
    tabs := [];
    var p, k := 0, kmin;
    FirstReady(sh, g, kmin, wk);
    while k <= g
      invariant kmin <= k <= g + 1
      invariant k <= g ==> Ready(sh, g, k, 0, wk, tabs, stk) && (k > kmin ==> |stk| > 0)
      invariant k <= g ==> p == if Rank(sh.c, k) <= v.Length then Rank(sh.c, k) else v.Length
      invariant k == g + 1 ==> |stk| > 0 && Ready(sh, g, g, sh.c[g], wk, tabs, stk)
    {
      var a := sh.c[k];
      while a > 0
        invariant 0 <= a <= sh.c[k]
        invariant Ready(sh, g, k, sh.c[k] - a, wk, tabs, stk)
        invariant p == if Rank(sh.c, k) + (sh.c[k] - a) <= v.Length then Rank(sh.c, k) + (sh.c[k] - a) else v.Length
        invariant a < sh.c[k] || k > kmin ==> |stk| > 0
      {
        ghost var idx := sh.c[k] - a;
        a := a - 1;
        p, wk, tabs, stk := PlaceCode(sh, g, k, a, v, p, wk, idx, tabs, stk);
      }
      if k < g {
        NextLength(sh, g, k, wk, tabs, stk);
        RankNext(sh.c, k);
      }
      k := k + 1;
    }
    AllPlaced(sh, g, wk, tabs, stk);
    pool, root := wk.pool, wk.u[0];
  }

  lemma LoEnds(c: seq<nat>, k: nat)
    requires |c| == MAX_BITS + 1 && 1 <= k <= MAX_BITS
    ensures Lo(c, k, 0) == Start(c, k) && Lo(c, k, c[k]) == Start(c, k + 1)
  {
    ShlOne(MAX_BITS - k);
  }

  lemma ZeroReads()
    ensures Msb(0, MAX_BITS) == 0 && P2(0) == 1
  {
    MsbZeros(0, 0, MAX_BITS);
    ShlOne(MAX_BITS);
  }

  /** The root has the full width, as no shorter table would hold the longest code. */
  lemma RootWide(sh: Shape, g: nat, t: Tab, pool: seq<Huft>)
    requires sh.Valid() && t.Valid(pool) && t.w == 0 && Narrow(sh, t) && t.bits <= sh.l <= g <= MAX_BITS
    requires Start(sh.c, g + 1) == P2(MAX_BITS) && sh.c[g] > 0
    ensures t.bits == sh.l && t.pfx == 0
  {
    hide Shr, Low, Shl, Msb, Count, NextCode, Counts;
    assert t.pfx == 0 by { assert P2(0) == 1; }
    ZeroReads();
    if t.bits < sh.l {
      StartMono(sh.c, t.bits + 1, g);
      LoBelow(sh.c, g, 0);
      LoEnds(sh.c, g);
    }
  }
}
