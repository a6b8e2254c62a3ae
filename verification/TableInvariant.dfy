/** What huft_build keeps true of its tables from one code to the next, and why each of its steps
    keeps it.  Codes are taken in order; f is where the next one starts when padded to 15 bits. */
module TableInvariant {
  import opened BitMath
  import opened Huffman
  import opened HuftTables

  /** stk[t] is the table at level t: u[t] in the C code.  All of them are on the way to code i. */
  ghost predicate Stacked(sh: Shape, tabs: seq<Tab>, stk: seq<nat>, i: nat) {
    && |stk| > 0
    && (forall t :: 0 <= t < |stk| ==> stk[t] < |tabs|)
    && (forall t :: 0 <= t < |stk| - 1 ==> tabs[stk[t + 1]].w == tabs[stk[t]].w + sh.l)
    && (forall t :: 0 <= t < |stk| ==> Low(i, tabs[stk[t]].w) == tabs[stk[t]].pfx)
  }

  function Top(stk: seq<nat>): nat
    requires |stk| > 0
  {
    stk[|stk| - 1]
  }

  /** Table j is on the stack below the current one. */
  ghost predicate Waits(stk: seq<nat>, j: nat) {
    exists s :: 0 <= s < |stk| - 1 && stk[s] == j
  }

  /** The slot of t that starts exactly at f, if any, has its entry. */
  ghost predicate SlotAtOK(sh: Shape, pool: seq<Huft>, tabs: seq<Tab>, t: Tab, f: nat)
    requires sh.Valid() && t.Valid(pool)
  {
    forall e: nat :: e < P2(t.bits) && t.SlotLo(e) == f ==> SlotOK(sh, pool, tabs, t, e)
  }

  /** Table j is finished, or waits on the stack for the tables above it. */
  ghost predicate SettledTab(sh: Shape, pool: seq<Huft>, tabs: seq<Tab>, stk: seq<nat>, f: nat, j: nat)
    requires sh.Valid() && Laid(pool, tabs) && j < |tabs|
  {
    tabs[j].TabHi() <= f || (Waits(stk, j) && tabs[j].bits == sh.l && SlotAtOK(sh, pool, tabs, tabs[j], f))
  }

  /** So is every table but the current one. */
  ghost predicate Settled(sh: Shape, pool: seq<Huft>, tabs: seq<Tab>, stk: seq<nat>, f: nat)
    requires sh.Valid() && Laid(pool, tabs) && |stk| > 0
  {
    forall j: nat :: j < |tabs| && j != Top(stk) ==> SettledTab(sh, pool, tabs, stk, f, j)
  }

  // ---- Paths and intervals ----

  /** The streams that begin with the w bits pfx are those of one interval. */
  lemma InClass(x: nat, w: nat, pfx: nat)
    requires w <= MAX_BITS && pfx < P2(w)
    ensures Low(x, w) == pfx
            <==> Msb(pfx, MAX_BITS) <= Msb(x, MAX_BITS) < Msb(pfx, MAX_BITS) + P2(MAX_BITS - w)
    ensures Msb(pfx, MAX_BITS) + P2(MAX_BITS - w) <= P2(MAX_BITS)
  {
    hide Shr, Low, Shl, P2, Msb;
    var y, u := Msb(x, MAX_BITS), Msb(pfx, w);
    MsbZeros(pfx, w, MAX_BITS);
    MsbPrefix(x, w, MAX_BITS);
    ShrLow(y, MAX_BITS - w);
    MsbEqual(x, pfx, w);
    LowSmall(pfx, w);
    if Shl(u, MAX_BITS - w) <= y < Shl(u, MAX_BITS - w) + P2(MAX_BITS - w) {
      ShrLowUnique(y, MAX_BITS - w, u, y - Shl(u, MAX_BITS - w));
    }
    MsbBound(pfx, w);
    ShlNext(u, MAX_BITS - w);
    ShlMono(u + 1, P2(w), MAX_BITS - w);
    ShlP2(w, MAX_BITS - w);
  }

  lemma SlotPath(t: Tab, pool: seq<Huft>, e: nat)
    requires t.Valid(pool) && e < P2(t.bits)
    ensures Low(t.Path(e), t.w) == t.pfx && Shr(t.Path(e), t.w) == e && t.Path(e) < P2(t.w + t.bits)
    ensures t.TabLo() <= t.SlotLo(e) < t.TabHi()
  {
    hide Shr, Low, Shl, P2, Msb;
    ShrLowUnique(t.Path(e), t.w, e, t.pfx);
    ShlNext(e, t.w);
    ShlMono(e + 1, P2(t.bits), t.w);
    ShlP2(t.bits, t.w);
    InClass(t.Path(e), t.w, t.pfx);
  }

  lemma SameReading(x: nat, y: nat)
    requires x < P2(MAX_BITS) && y < P2(MAX_BITS) && Msb(x, MAX_BITS) == Msb(y, MAX_BITS)
    ensures x == y
  {
    hide Shr, Low, Shl, P2, Msb;
    MsbInjective(x, y, MAX_BITS);
    LowSmall(x, MAX_BITS);
    LowSmall(y, MAX_BITS);
  }

  lemma {:induction false} StackMono(sh: Shape, tabs: seq<Tab>, stk: seq<nat>, i: nat, s: nat, t: nat)
    requires Stacked(sh, tabs, stk, i) && s < t < |stk|
    ensures tabs[stk[s]].w + sh.l <= tabs[stk[t]].w
    decreases t
  {
    if s < t - 1 {
      StackMono(sh, tabs, stk, i, s, t - 1);
    }
    assert tabs[stk[(t - 1) + 1]].w == tabs[stk[t - 1]].w + sh.l;
  }

  /** A slot keeps its entry when its word of the pool is kept and tables are only added. */
  lemma SlotKept(sh: Shape, pool: seq<Huft>, pool': seq<Huft>, tabs: seq<Tab>, tabs': seq<Tab>, t: Tab, e: nat)
    requires sh.Valid() && t.Valid(pool) && t.Valid(pool') && e < P2(t.bits)
    requires pool'[t.start + e] == pool[t.start + e] && tabs <= tabs'
    requires SlotOK(sh, pool, tabs, t, e)
    ensures SlotOK(sh, pool', tabs', t, e)
  {
    hide Shr, Low, Shl, P2, Msb, Count, NextCode, Start;
    if LinkSlot(sh, pool, tabs, t, e) {
      var ent := pool[t.start + e];
      var j :| 0 <= j < |tabs| && tabs[j] == Tab(ent.more, ent.exop, t.w + sh.l, t.Path(e)) && t.start < ent.more;
      assert tabs'[j] == tabs[j];
    }
  }

  // ---- Filling in the entries of one code ----

  /** pool' is pool with r in the slots of t that lie on the path of the k-bit code i. */
  ghost predicate Filled(pool: seq<Huft>, pool': seq<Huft>, t: Tab, k: nat, i: nat, r: Huft)
    requires t.w <= k
  {
    && |pool'| == |pool|
    && forall s {:trigger pool'[s]} :: 0 <= s < |pool| ==>
         pool'[s] == if t.start <= s < t.start + P2(t.bits) && Low(s - t.start, k - t.w) == Shr(i, t.w) then r
                     else pool[s]
  }

  /** The facts about the code at hand: it has k bits, its number among them is idx, and the
      current table reaches it. */
  ghost predicate AtCode(sh: Shape, t: Tab, i: nat, k: nat, idx: nat, f: nat)
    requires sh.Valid()
  {
    && t.w < k <= t.w + t.bits && k <= MAX_BITS && idx < sh.c[k]
    && i < P2(k) && Msb(i, MAX_BITS) == f && Msb(i, k) == NextCode(sh.c, k) + idx
  }

  /** In the current table, the filled slots are those whose interval lies in the code's interval. */
  lemma FilledSlots(t: Tab, pool: seq<Huft>, e: nat, k: nat, i: nat)
    requires t.Valid(pool) && e < P2(t.bits) && t.w < k <= t.w + t.bits && i < P2(k)
    requires Low(i, t.w) == t.pfx
    ensures Low(e, k - t.w) == Shr(i, t.w) <==> Low(t.Path(e), k) == i
    ensures Low(t.Path(e), k) == i
            <==> Msb(i, MAX_BITS) <= t.SlotLo(e) < Msb(i, MAX_BITS) + P2(MAX_BITS - k)
  {
    hide Shr, Low, Shl, P2, Msb;
    var p := t.Path(e);
    SlotPath(t, pool, e);
    CutTwice(p, t.w, k - t.w);
    assert Low(p, k) == t.pfx + Shl(Low(e, k - t.w), t.w);
    ShrLow(i, t.w);
    if Low(p, k) == i {
      ShrLowUnique(i, t.w, Low(e, k - t.w), t.pfx);
    }
    InClass(p, k, i);
  }

  /** No slot of a table further down the stack starts inside the code's interval, except where it starts. */
  lemma NoSlotInside(t: Tab, top: Tab, pool: seq<Huft>, e: nat, k: nat, i: nat)
    requires t.Valid(pool) && top.Valid(pool) && e < P2(t.bits) && t.w + t.bits <= top.w < k <= MAX_BITS
    requires i < P2(k) && Low(i, top.w) == top.pfx
    requires Msb(i, MAX_BITS) <= t.SlotLo(e) < Msb(i, MAX_BITS) + P2(MAX_BITS - k)
    ensures t.SlotLo(e) == Msb(i, MAX_BITS)
  {
    hide Shr, Low, Shl, P2, Msb;
    var p := t.Path(e);
    SlotPath(t, pool, e);
    InClass(p, k, i);
    LowOfLow(p, top.w, k);
    P2Mono(t.w + t.bits, top.w);
    LowSmall(p, top.w);
    InClass(i, top.w, top.pfx);
  }

  lemma FillSlot(sh: Shape, pool: seq<Huft>, pool': seq<Huft>, tabs: seq<Tab>, stk: seq<nat>, i: nat, k: nat,
                 idx: nat, f: nat, r: Huft, j: nat, e: nat)
    requires sh.Valid() && Laid(pool, tabs) && Laid(pool', tabs) && Stacked(sh, tabs, stk, i)
    requires DoneBelow(sh, pool, tabs, f) && Settled(sh, pool, tabs, stk, f)
    requires AtCode(sh, tabs[Top(stk)], i, k, idx, f)
    requires r.bits == k - tabs[Top(stk)].w && LeafOK(sh, r, k, idx)
    requires Filled(pool, pool', tabs[Top(stk)], k, i, r)
    requires j < |tabs| && e < P2(tabs[j].bits) && tabs[j].SlotLo(e) < f + P2(MAX_BITS - k)
    ensures SlotOK(sh, pool', tabs, tabs[j], e)
  {
    hide Shr, Low, Shl, P2, Msb, Count, NextCode, Start;
    var top, t := tabs[Top(stk)], tabs[j];
    if j == Top(stk) {
      FilledSlots(top, pool, e, k, i);
      if Low(t.Path(e), k) == i {
        assert pool'[t.start + e] == r;
        MsbLow(t.Path(e), k, k);
        assert LeafSlot(sh, pool', t, e);
      } else {
        assert t.SlotLo(e) < f;
        assert pool'[t.start + e] == pool[t.start + e];
        SlotKept(sh, pool, pool', tabs, tabs, t, e);
      }
    } else {
      assert Before(t, top) || Before(top, t);
      assert pool'[t.start + e] == pool[t.start + e];
      if t.SlotLo(e) >= f {
        SlotPath(t, pool, e);
        assert SettledTab(sh, pool, tabs, stk, f, j);
        var s :| 0 <= s < |stk| - 1 && stk[s] == j;
        StackMono(sh, tabs, stk, i, s, |stk| - 1);
        NoSlotInside(t, top, pool, e, k, i);
        assert SlotAtOK(sh, pool, tabs, t, f);
      }
      SlotKept(sh, pool, pool', tabs, tabs, t, e);
    }
  }

  /** Filling completes everything up to the end of the code's interval. */
  lemma FillDone(sh: Shape, pool: seq<Huft>, pool': seq<Huft>, tabs: seq<Tab>, stk: seq<nat>, i: nat, k: nat,
                 idx: nat, f: nat, r: Huft)
    requires sh.Valid() && Laid(pool, tabs) && Stacked(sh, tabs, stk, i)
    requires DoneBelow(sh, pool, tabs, f) && Settled(sh, pool, tabs, stk, f)
    requires AtCode(sh, tabs[Top(stk)], i, k, idx, f)
    requires r.bits == k - tabs[Top(stk)].w && LeafOK(sh, r, k, idx)
    requires Filled(pool, pool', tabs[Top(stk)], k, i, r)
    ensures Laid(pool', tabs)
    ensures DoneBelow(sh, pool', tabs, f + P2(MAX_BITS - k))
  {
    forall j, e: nat | 0 <= j < |tabs| && e < P2(tabs[j].bits) && tabs[j].SlotLo(e) < f + P2(MAX_BITS - k)
      ensures SlotOK(sh, pool', tabs, tabs[j], e)
    {
      FillSlot(sh, pool, pool', tabs, stk, i, k, idx, f, r, j, e);
    }
  }

  // ---- Moving on to the next code ----

  /** A table that code i goes through and code i2 does not ends where or before i2 starts. */
  lemma LeftBehind(t: Tab, pool: seq<Huft>, i: nat, i2: nat)
    requires t.Valid(pool) && Low(i, t.w) == t.pfx && Low(i2, t.w) != t.pfx
    requires Msb(i, MAX_BITS) < Msb(i2, MAX_BITS)
    ensures t.TabHi() <= Msb(i2, MAX_BITS)
  {
    InClass(i, t.w, t.pfx);
    InClass(i2, t.w, t.pfx);
  }

  /** A slot of a table below the current one cannot start where a later code of that table starts. */
  lemma NoSlotAtNext(t: Tab, top: Tab, pool: seq<Huft>, e: nat, i: nat, i2: nat)
    requires t.Valid(pool) && top.Valid(pool) && e < P2(t.bits) && t.w + t.bits <= top.w
    requires Low(i, top.w) == top.pfx == Low(i2, top.w) && i2 < P2(MAX_BITS)
    requires Msb(i, MAX_BITS) < Msb(i2, MAX_BITS)
    ensures t.SlotLo(e) != Msb(i2, MAX_BITS)
  {
    hide Shr, Low, Shl, P2, Msb;
    SlotPath(t, pool, e);
    P2Mono(t.w + t.bits, top.w);
    P2Mono(top.w, MAX_BITS);
    InClass(i, top.w, top.pfx);
    LowSmall(t.Path(e), top.w);
    if t.SlotLo(e) == Msb(i2, MAX_BITS) {
      SameReading(t.Path(e), i2);
    }
  }

  lemma SettledOne(sh: Shape, pool: seq<Huft>, pool': seq<Huft>, tabs: seq<Tab>, stk: seq<nat>, stk2: seq<nat>,
                   i: nat, i2: nat, j: nat)
    requires sh.Valid() && Laid(pool, tabs) && Laid(pool', tabs) && Stacked(sh, tabs, stk, i)
    requires Settled(sh, pool, tabs, stk, Msb(i, MAX_BITS))
    requires stk2 <= stk && Stacked(sh, tabs, stk2, i2) && i2 < P2(MAX_BITS)
    requires forall t :: |stk2| <= t < |stk| ==> Low(i2, tabs[stk[t]].w) != tabs[stk[t]].pfx
    requires Msb(i, MAX_BITS) < Msb(i2, MAX_BITS)
    requires j < |tabs| && j != Top(stk2) && tabs[j].TabHi() > Msb(i2, MAX_BITS)
    ensures Waits(stk2, j) && tabs[j].bits == sh.l && SlotAtOK(sh, pool', tabs, tabs[j], Msb(i2, MAX_BITS))
  {
    hide Shr, Low, Shl, P2, Msb, Count, NextCode, Start;
    var t := tabs[j];
    var s := |stk| - 1;
    if j != Top(stk) {
      assert SettledTab(sh, pool, tabs, stk, Msb(i, MAX_BITS), j);
      s :| 0 <= s < |stk| - 1 && stk[s] == j;
    }
    if s >= |stk2| {
      LeftBehind(t, pool, i, i2);
      assert false;
    }
    assert stk2[s] == j;
    StackMono(sh, tabs, stk2, i2, s, |stk2| - 1);
    forall e: nat | e < P2(t.bits)
      ensures t.SlotLo(e) != Msb(i2, MAX_BITS)
    {
      NoSlotAtNext(t, tabs[Top(stk2)], pool, e, i, i2);
    }
  }

  lemma SettledJ(sh: Shape, pool: seq<Huft>, pool': seq<Huft>, tabs: seq<Tab>, stk: seq<nat>, stk2: seq<nat>, i: nat,
                 i2: nat, f2: nat, j: nat)
    requires sh.Valid() && Laid(pool, tabs) && Laid(pool', tabs) && Stacked(sh, tabs, stk, i)
    requires Settled(sh, pool, tabs, stk, Msb(i, MAX_BITS))
    requires stk2 <= stk && Stacked(sh, tabs, stk2, i2) && i2 < P2(MAX_BITS)
    requires forall t :: |stk2| <= t < |stk| ==> Low(i2, tabs[stk[t]].w) != tabs[stk[t]].pfx
    requires f2 == P2(MAX_BITS) || (Msb(i, MAX_BITS) < Msb(i2, MAX_BITS) == f2)
    requires j < |tabs| && j != Top(stk2)
    ensures SettledTab(sh, pool', tabs, stk2, f2, j)
  {
    hide Shr, Low, Shl, P2, Msb, Count, NextCode, Start;
    InClass(0, tabs[j].w, tabs[j].pfx);
    if tabs[j].TabHi() > f2 {
      SettledOne(sh, pool, pool', tabs, stk, stk2, i, i2, j);
    }
  }

  /** After the entries of code i are in place the tables that the next code i2 leaves are popped. */
  lemma SettledNext(sh: Shape, pool: seq<Huft>, pool': seq<Huft>, tabs: seq<Tab>, stk: seq<nat>, stk2: seq<nat>,
                    i: nat, i2: nat, f2: nat)
    requires sh.Valid() && Laid(pool, tabs) && Laid(pool', tabs) && Stacked(sh, tabs, stk, i)
    requires Settled(sh, pool, tabs, stk, Msb(i, MAX_BITS))
    requires stk2 <= stk && Stacked(sh, tabs, stk2, i2) && i2 < P2(MAX_BITS)
    requires forall t :: |stk2| <= t < |stk| ==> Low(i2, tabs[stk[t]].w) != tabs[stk[t]].pfx
    requires f2 == P2(MAX_BITS) || (Msb(i, MAX_BITS) < Msb(i2, MAX_BITS) == f2)
    ensures Settled(sh, pool', tabs, stk2, f2)
  {
    hide Shr, Low, Shl, P2, Msb, Count, NextCode, Start, SettledTab, Laid;
    forall j: nat | j < |tabs| && j != Top(stk2)
      ensures SettledTab(sh, pool', tabs, stk2, f2, j)
    {
      SettledJ(sh, pool, pool', tabs, stk, stk2, i, i2, f2, j);
    }
  }

  // ---- Linking in a new table ----

  /** The pool after a table of 2^b entries is added, linked from word at unless it is the root. */
  function Extend(pool: seq<Huft>, b: nat, at: nat, link: bool, l: nat): (r: seq<Huft>)
    requires link ==> at < |pool|
    ensures |r| == |pool| + P2(b)
  {
    (if link then pool[at := Huft(b, l, |pool|)] else pool) + seq(P2(b), _ => Huft(0, 0, 0))
  }

  /** The new table keeps everything settled: the slot that starts at code i now leads to it. */
  lemma AddedDone(sh: Shape, pool: seq<Huft>, tabs: seq<Tab>, stk: seq<nat>, i: nat, b: nat, pool': seq<Huft>,
                  tabs': seq<Tab>)
    requires sh.Valid() && Laid(pool, tabs) && Stacked(sh, tabs, stk, i)
    requires DoneBelow(sh, pool, tabs, Msb(i, MAX_BITS)) && Settled(sh, pool, tabs, stk, Msb(i, MAX_BITS))
    requires tabs[Top(stk)].bits == sh.l && i < P2(tabs[Top(stk)].w + sh.l)
    requires 1 <= b && tabs[Top(stk)].w + sh.l + b <= MAX_BITS
    requires Shr(i, tabs[Top(stk)].w) < P2(sh.l)
    requires pool' == Extend(pool, b, tabs[Top(stk)].start + Shr(i, tabs[Top(stk)].w), true, sh.l)
    requires tabs' == tabs + [Tab(|pool|, b, tabs[Top(stk)].w + sh.l, i)]
    requires Laid(pool', tabs')
    ensures DoneBelow(sh, pool', tabs', Msb(i, MAX_BITS))
    ensures Settled(sh, pool', tabs', stk + [|tabs|], Msb(i, MAX_BITS))
  {
    hide Shr, Low, Shl, P2, Msb, Count, NextCode, Start;
    var f := Msb(i, MAX_BITS);
    forall j, e: nat | 0 <= j < |tabs'| && e < P2(tabs'[j].bits)
                       && (tabs'[j].SlotLo(e) < f
                           || (j == Top(stk) && tabs'[j].SlotLo(e) == f)
                           || (j < |tabs| && j != Top(stk) && SlotAtOK(sh, pool, tabs, tabs[j], f)
                               && tabs'[j].SlotLo(e) == f))
      ensures SlotOK(sh, pool', tabs', tabs'[j], e)
    {
      AddedSlot(sh, pool, tabs, stk, i, b, pool', tabs', j, e);
    }
    var stk' := stk + [|tabs|];
    forall j: nat | j < |tabs'| && j != Top(stk')
      ensures SettledTab(sh, pool', tabs', stk', f, j)
    {
      assert j == Top(stk) || SettledTab(sh, pool, tabs, stk, f, j);
      if tabs[j].TabHi() > f {
        var s := |stk| - 1;
        if j != Top(stk) {
          s :| 0 <= s < |stk| - 1 && stk[s] == j;
        }
        assert stk'[s] == j;
      }
    }
  }

  lemma AddedSlot(sh: Shape, pool: seq<Huft>, tabs: seq<Tab>, stk: seq<nat>, i: nat, b: nat, pool': seq<Huft>,
                  tabs': seq<Tab>, j: nat, e: nat)
    requires sh.Valid() && Laid(pool, tabs) && Stacked(sh, tabs, stk, i)
    requires DoneBelow(sh, pool, tabs, Msb(i, MAX_BITS))
    requires tabs[Top(stk)].bits == sh.l && i < P2(tabs[Top(stk)].w + sh.l)
    requires 1 <= b && tabs[Top(stk)].w + sh.l + b <= MAX_BITS
    requires Shr(i, tabs[Top(stk)].w) < P2(sh.l)
    requires pool' == Extend(pool, b, tabs[Top(stk)].start + Shr(i, tabs[Top(stk)].w), true, sh.l)
    requires tabs' == tabs + [Tab(|pool|, b, tabs[Top(stk)].w + sh.l, i)]
    requires Laid(pool', tabs') && j < |tabs'| && e < P2(tabs'[j].bits)
    requires || tabs'[j].SlotLo(e) < Msb(i, MAX_BITS)
             || (j == Top(stk) && tabs'[j].SlotLo(e) == Msb(i, MAX_BITS))
             || (j < |tabs| && j != Top(stk) && SlotAtOK(sh, pool, tabs, tabs[j], Msb(i, MAX_BITS))
                 && tabs'[j].SlotLo(e) == Msb(i, MAX_BITS))
    ensures SlotOK(sh, pool', tabs', tabs'[j], e)
  {
    hide Shr, Low, Shl, P2, Msb, Count, NextCode, Start;
    var f, top, t := Msb(i, MAX_BITS), tabs[Top(stk)], tabs'[j];
    SlotPath(t, pool', e);
    P2Mono(top.w + sh.l, MAX_BITS);
    P2Mono(t.w + t.bits, MAX_BITS);
    if j == Top(stk) && t.SlotLo(e) == f {
      SameReading(t.Path(e), i);
      assert tabs'[|tabs|] == Tab(|pool|, b, top.w + sh.l, i);
      assert LinkSlot(sh, pool', tabs', t, e);
    } else {
      assert j < |tabs|;
      assert SlotOK(sh, pool, tabs, t, e);
      if j == Top(stk) {
        assert e != Shr(i, top.w) by {
          if e == Shr(i, top.w) { ShrLow(i, top.w); }
        }
      } else {
        assert Before(t, top) || Before(top, t);
      }
      SlotKept(sh, pool, pool', tabs, tabs', t, e);
    }
  }
}
