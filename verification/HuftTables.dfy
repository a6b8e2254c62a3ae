/** The multi-level lookup tables of zlib/inftrees.h, how a decoder walks them, and the invariant
    huft_build maintains while it fills them. */
module HuftTables {
  import opened BitMath
  import opened Huffman
  import opened CodeCounts

  /** One table entry; more is the C union of Base and Next, a table being named by its index in the pool. */
  datatype Huft = Huft(exop: nat, bits: nat, more: nat)

  /** Tables are carved out of a pool, one pool per tree. */
  datatype Tree = Tree(pool: seq<Huft>, root: nat, bits: nat)

  const INVALID := 128 + 64   // exop of an invalid code

  predicate IsLength(exop: nat) { (exop / 16) % 2 == 1 }   // exop & 16
  predicate IsFinal(exop: nat) { (exop / 64) % 2 == 1 }    // exop & 64
  predicate IsEnd(exop: nat) { (exop / 32) % 2 == 1 }      // exop & 32

  /** The entry points to another table. */
  predicate IsLink(e: Huft) {
    e.exop != 0 && !IsLength(e.exop) && !IsFinal(e.exop)
  }

  /** The entry a walk ends at, how many bits the code has, and how many were looked at. */
  datatype Found = Lost | Found(entry: Huft, used: nat, looked: nat)

  /** Walk the tables from the one at t: index by the low bits, drop the entry's bits, follow links;
      room is how many bits the code may still have.  The walk is lost if it leaves the pool, if a
      table needs more bits than there is room for, or at an entry that no decoder could use: one
      that drops no bit or more bits than it was indexed by, or leads back or to a wider table. */
  function Lookup(pool: seq<Huft>, t: nat, bits: nat, room: nat, x: nat): (r: Found)
    ensures r.Found? ==> 1 <= r.used <= r.looked <= room && bits <= r.looked
    decreases |pool| - t
  {
    var i := t + Low(x, bits);
    if i >= |pool| || bits > room then Lost
    else
      var e := pool[i];
      if e.bits < 1 || e.bits > bits then Lost
      else if !IsLink(e) then Found(e, e.bits, bits)
      else if e.more <= t || e.exop > bits || e.bits != bits then Lost
      else
        match Lookup(pool, e.more, e.exop, room - e.bits, Shr(x, e.bits))
        case Lost => Lost
        case Found(f, used, looked) => Found(f, e.bits + used, e.bits + looked)
  }

  /** The walk from the root. */
  function Find(tree: Tree, x: nat): (r: Found)
    ensures r.Found? ==> 1 <= r.used <= r.looked <= MAX_BITS && tree.bits <= r.looked
  {
    Lookup(tree.pool, tree.root, tree.bits, MAX_BITS, x)
  }

  /** A code set as huft_build receives it: lengths, the number of simple symbols, and the base values
      and extra bit counts of the others. */
  datatype CodeSet = CodeSet(lens: Lengths, simple: nat, bases: seq<nat>, extras: seq<nat>) {
    predicate Valid() {
      && |lens| > 0
      && |lens| <= simple + |bases| && |lens| <= simple + |extras|
      && (forall i :: 0 <= i < |extras| ==> extras[i] <= 15 || extras[i] == 192)
    }

    function Exop(v: nat): nat
      requires Valid() && v < |lens|
    {
      if v < simple then (if v < 256 then 0 else 32 + 64)
      else (extras[v - simple] + 16 + 64) % 256
    }

    function Base(v: nat): nat
      requires Valid() && v < |lens|
    {
      if v < simple then v else bases[v - simple]
    }

    /** Every symbol has a code. */
    predicate AllUsed() {
      Count(lens, |lens|, 0) == 0
    }
  }

  /** The tree decodes the code set: a stream that begins with a symbol's code leads to that symbol's
      entry and uses up the code; when every symbol has a code, any other stream is found invalid.
      Looks says how many bits that takes a look at. */
  ghost predicate Decodes(cs: CodeSet, tree: Tree)
    requires cs.Valid()
  {
    forall x: nat :: DecodesAt(cs, tree, x)
  }

  ghost predicate DecodesAt(cs: CodeSet, tree: Tree, x: nat)
    requires cs.Valid()
  {
    var found := Find(tree, x);
    match Decode(cs.lens, x)
    case Symbol(v) =>
      found.Found? && found.used == cs.lens[v] && found.looked == Looks(cs.lens, tree.bits, x)
      && found.entry.exop == cs.Exop(v) && found.entry.more == cs.Base(v)
    case NoSymbol =>
      cs.AllUsed() ==>
        && found.Found? && found.entry.exop == INVALID && found.used == Longest(Counts(cs.lens), MAX_BITS)
        && found.looked == Looks(cs.lens, tree.bits, x)
  }

  // ---- The tables under construction ----

  /** A table: where it starts, how many bits index it, and the w bits pfx that lead to it. */
  datatype Tab = Tab(start: nat, bits: nat, w: nat, pfx: nat) {
    predicate Valid(pool: seq<Huft>) {
      && 1 <= bits && w + bits <= MAX_BITS && pfx < P2(w)
      && start + P2(bits) <= |pool|
    }

    /** The bits that lead to slot e of this table. */
    function Path(e: nat): nat { pfx + Shl(e, w) }

    /** Where the codes below slot e, or below this table, start when padded to 15 bits. */
    function SlotLo(e: nat): nat { Msb(Path(e), MAX_BITS) }

    function TabLo(): nat { Msb(pfx, MAX_BITS) }

    function TabHi(): nat
      requires w <= MAX_BITS
    {
      TabLo() + P2(MAX_BITS - w)
    }
  }

  /** The code counts (with the dummies that complete the set) and the nominal table width. */
  datatype Shape = Shape(cs: CodeSet, c: seq<nat>, l: nat) {
    predicate Valid() {
      && cs.Valid() && |c| == MAX_BITS + 1 && 1 <= l <= MAX_BITS
      && Start(c, MAX_BITS + 1) == P2(MAX_BITS)
      && forall k :: 1 <= k <= MAX_BITS ==> Counts(cs.lens)[k] <= c[k]
    }
  }

  /** e is the entry of code idx of k bits; nothing is said of a dummy code unless all symbols are used. */
  ghost predicate LeafOK(sh: Shape, e: Huft, k: nat, idx: nat)
    requires sh.Valid() && k <= MAX_BITS
  {
    if idx < Counts(sh.cs.lens)[k] then
      forall v | 0 <= v < |sh.cs.lens| && sh.cs.lens[v] == k && Count(sh.cs.lens, v, k) == idx ::
        e.exop == sh.cs.Exop(v) && e.more == sh.cs.Base(v)
    else
      sh.cs.AllUsed() ==> e.exop == INVALID
  }

  /** Slot e of t holds the entry of the code that the slot's path begins with. */
  ghost predicate LeafSlot(sh: Shape, pool: seq<Huft>, t: Tab, e: nat)
    requires sh.Valid() && t.Valid(pool) && e < P2(t.bits)
  {
    var ent := pool[t.start + e];
    var k := t.w + ent.bits;
    && 1 <= ent.bits <= t.bits
    && NextCode(sh.c, k) <= Msb(t.Path(e), k) < NextCode(sh.c, k) + sh.c[k]
    && LeafOK(sh, ent, k, Msb(t.Path(e), k) - NextCode(sh.c, k))
  }

  /** Slot e of t points to a table for the longer codes that begin with the slot's path. */
  ghost predicate LinkSlot(sh: Shape, pool: seq<Huft>, tabs: seq<Tab>, t: Tab, e: nat)
    requires sh.Valid() && t.Valid(pool) && e < P2(t.bits)
  {
    var ent := pool[t.start + e];
    && t.bits == sh.l == ent.bits
    && exists j :: 0 <= j < |tabs| && tabs[j] == Tab(ent.more, ent.exop, t.w + sh.l, t.Path(e)) && t.start < ent.more
  }

  ghost predicate SlotOK(sh: Shape, pool: seq<Huft>, tabs: seq<Tab>, t: Tab, e: nat)
    requires sh.Valid() && t.Valid(pool) && e < P2(t.bits)
  {
    LeafSlot(sh, pool, t, e) || LinkSlot(sh, pool, tabs, t, e)
  }

  /** t has the smallest width that all the codes below it fit in, but at most the nominal one. */
  ghost predicate Snug(sh: Shape, t: Tab)
    requires sh.Valid() && t.w <= MAX_BITS
  {
    t.bits <= sh.l && t.bits == TableWidth(sh.c, sh.l, t.w, t.TabHi(), 1)
  }

  /** So have all tables. */
  ghost predicate AllSnug(sh: Shape, tabs: seq<Tab>)
    requires sh.Valid()
  {
    forall j :: 0 <= j < |tabs| ==> tabs[j].w <= MAX_BITS && Snug(sh, tabs[j])
  }

  predicate Before(t1: Tab, t2: Tab) {
    t1.start + P2(t1.bits) <= t2.start
  }

  /** The tables lie one after another in the pool. */
  ghost predicate Laid(pool: seq<Huft>, tabs: seq<Tab>) {
    && (forall j :: 0 <= j < |tabs| ==> tabs[j].Valid(pool))
    && (forall i, j {:trigger Before(tabs[i], tabs[j])} :: 0 <= i < j < |tabs| ==> Before(tabs[i], tabs[j]))
  }

  /** Every slot that starts below f has its entry. */
  ghost predicate DoneBelow(sh: Shape, pool: seq<Huft>, tabs: seq<Tab>, f: nat)
    requires sh.Valid() && Laid(pool, tabs)
  {
    forall j, e: nat {:trigger tabs[j].SlotLo(e)} ::
      0 <= j < |tabs| && e < P2(tabs[j].bits) && tabs[j].SlotLo(e) < f ==> SlotOK(sh, pool, tabs, tabs[j], e)
  }

  // ---- Complete tables decode ----

  /** What the walk from a table that x leads to must find. */
  ghost predicate Leads(sh: Shape, pool: seq<Huft>, t: Tab, x: nat, k: nat, idx: nat)
    requires sh.Valid() && 1 <= k <= MAX_BITS && t.w <= MAX_BITS
  {
    idx < Counts(sh.cs.lens)[k] || sh.cs.AllUsed() ==>
      var r := Lookup(pool, t.start, t.bits, MAX_BITS - t.w, Shr(x, t.w));
      r.Found? && t.w + r.used == k && LeafOK(sh, r.entry, k, idx)
      && t.w + r.looked == LooksFrom(sh.c, sh.l, Msb(x, MAX_BITS), t.w)
  }

  /** The entries of leaves that the walk may end at are not links. */
  lemma LeafIsNoLink(sh: Shape, e: Huft, k: nat, idx: nat)
    requires sh.Valid() && 1 <= k <= MAX_BITS && LeafOK(sh, e, k, idx)
    requires idx < Counts(sh.cs.lens)[k] || sh.cs.AllUsed()
    ensures !IsLink(e)
  {
    if idx < Counts(sh.cs.lens)[k] {
      var v := NthSymbol(sh.cs.lens, |sh.cs.lens|, k, idx);
      assert e.exop == sh.cs.Exop(v);
    }
  }

  lemma LookupHere(pool: seq<Huft>, t: nat, bits: nat, room: nat, x: nat, ent: Huft)
    requires t + Low(x, bits) < |pool| && pool[t + Low(x, bits)] == ent && !IsLink(ent) && 1 <= ent.bits <= bits
    requires bits <= room
    ensures Lookup(pool, t, bits, room, x) == Found(ent, ent.bits, bits)
  {
  }

  lemma LookupThere(pool: seq<Huft>, t: nat, bits: nat, room: nat, x: nat, ent: Huft)
    requires t + Low(x, bits) < |pool| && pool[t + Low(x, bits)] == ent && IsLink(ent) && t < ent.more
    requires 1 <= ent.bits == bits <= room && ent.exop <= bits
    ensures var r := Lookup(pool, ent.more, ent.exop, room - ent.bits, Shr(x, ent.bits));
            r.Found? ==> Lookup(pool, t, bits, room, x) == Found(r.entry, ent.bits + r.used, ent.bits + r.looked)
  {
  }

  /** The codes below a table that x leads to end where those that share their first bits with x end. */
  lemma EndOfTable(t: Tab, pool: seq<Huft>, x: nat)
    requires t.Valid(pool) && Low(x, t.w) == t.pfx
    ensures ClassEnd(Msb(x, MAX_BITS), t.w) == t.TabHi()
  {
    hide Shr, Low, Shl, P2, Msb;
    var n := MAX_BITS - t.w;
    MsbPrefix(x, t.w, MAX_BITS);
    MsbLow(x, t.w, t.w);
    MsbZeros(t.pfx, t.w, MAX_BITS);
    ShlNext(Msb(x, t.w), n);
  }

  /** A code of k bits starts between the codes shorter than k bits and the longer ones. */
  lemma CodeBetween(c: seq<nat>, x: nat, k: nat, idx: nat)
    requires |c| == MAX_BITS + 1 && 1 <= k <= MAX_BITS && idx < c[k] && Msb(x, k) == NextCode(c, k) + idx
    ensures Start(c, k) <= Msb(x, MAX_BITS) < Start(c, k + 1)
  {
    hide Shl, P2, Msb, NextCode;
    InInterval(c, k, idx, x);
    LoBelow(c, k, idx);
  }

  lemma WalkLeaf(sh: Shape, pool: seq<Huft>, t: Tab, e: nat, x: nat) returns (k: nat, idx: nat)
    requires sh.Valid() && t.Valid(pool) && e < P2(t.bits) && LeafSlot(sh, pool, t, e)
    requires Low(x, t.w) == t.pfx && e == Low(Shr(x, t.w), t.bits) && Snug(sh, t)
    ensures t.w < k <= MAX_BITS && idx < sh.c[k] && Msb(x, k) == NextCode(sh.c, k) + idx
    ensures Leads(sh, pool, t, x, k, idx)
  {
    hide Shr, Low, Shl, P2, Msb, Count, NextCode, Start;
    CutTwice(x, t.w, t.bits);
    var ent := pool[t.start + e];
    k := t.w + ent.bits;
    MsbLow(x, k, t.w + t.bits);
    idx := Msb(x, k) - NextCode(sh.c, k);
    if idx < Counts(sh.cs.lens)[k] || sh.cs.AllUsed() {
      LeafIsNoLink(sh, ent, k, idx);
      LookupHere(pool, t.start, t.bits, MAX_BITS - t.w, Shr(x, t.w), ent);
    }
    CodeBetween(sh.c, x, k, idx);
    if t.w + sh.l < MAX_BITS {
      StartMono(sh.c, k + 1, t.w + sh.l + 1);
    }
    EndOfTable(t, pool, x);
  }

  /** A code longer than a table reaches is looked for in the next one. */
  lemma LooksOn(c: seq<nat>, l: nat, x: nat, w: nat, k: nat, idx: nat)
    requires |c| == MAX_BITS + 1 && l >= 1 && w + l < k <= MAX_BITS && idx < c[k] && Msb(x, k) == NextCode(c, k) + idx
    ensures LooksFrom(c, l, Msb(x, MAX_BITS), w) == LooksFrom(c, l, Msb(x, MAX_BITS), w + l)
  {
    hide Start, Msb, NextCode, ClassEnd, TableWidth;
    CodeBetween(c, x, k, idx);
    StartMono(c, w + l + 1, k);
  }

  /** Following a link that leads to t2. */
  lemma WalkLink(sh: Shape, pool: seq<Huft>, t: Tab, t2: Tab, e: nat, x: nat, k: nat, idx: nat)
    requires sh.Valid() && t.Valid(pool) && t2.Valid(pool) && e < P2(t.bits) && t2.bits <= t.bits == sh.l
    requires Low(x, t.w) == t.pfx && e == Low(Shr(x, t.w), t.bits)
    requires pool[t.start + e] == Huft(t2.bits, sh.l, t2.start) && t.start < t2.start && t2.w == t.w + sh.l
    requires t2.w < k <= MAX_BITS && idx < sh.c[k] && Msb(x, k) == NextCode(sh.c, k) + idx
    requires Leads(sh, pool, t2, x, k, idx)
    ensures Leads(sh, pool, t, x, k, idx)
  {
    hide Shr, Low, Shl, P2, Msb, Count, NextCode, Start, LeafOK, LooksFrom;
    LooksOn(sh.c, sh.l, x, t.w, k, idx);
    CutTwice(x, t.w, sh.l);
    LookupThere(pool, t.start, t.bits, MAX_BITS - t.w, Shr(x, t.w), pool[t.start + e]);
  }

  /** A stream that took path pfx to table t is sent on by t to the code it begins with. */
  lemma {:induction false} WalkFrom(sh: Shape, pool: seq<Huft>, tabs: seq<Tab>, j: nat, x: nat)
    returns (k: nat, idx: nat)
    requires sh.Valid() && Laid(pool, tabs) && DoneBelow(sh, pool, tabs, P2(MAX_BITS))
    requires AllSnug(sh, tabs) && j < |tabs| && Low(x, tabs[j].w) == tabs[j].pfx
    ensures tabs[j].w < k <= MAX_BITS && idx < sh.c[k] && Msb(x, k) == NextCode(sh.c, k) + idx
    ensures Leads(sh, pool, tabs[j], x, k, idx)
    decreases MAX_BITS - tabs[j].w
  {
    hide Shr, Low, Shl, P2, Msb, Count, NextCode, Start;
    var t := tabs[j];
    var e := Low(Shr(x, t.w), t.bits);
    MsbBound(t.Path(e), MAX_BITS);
    assert t.SlotLo(e) < P2(MAX_BITS);
    if LeafSlot(sh, pool, t, e) {
      k, idx := WalkLeaf(sh, pool, t, e, x);
    } else {
      var ent := pool[t.start + e];
      var j' :| 0 <= j' < |tabs| && tabs[j'] == Tab(ent.more, ent.exop, t.w + sh.l, t.Path(e)) && t.start < ent.more;
      CutTwice(x, t.w, t.bits);
      k, idx := WalkFrom(sh, pool, tabs, j', x);
      WalkLink(sh, pool, t, tabs[j'], e, x, k, idx);
    }
  }

  /** The codes of a set keep their values when dummies are added at the greatest length. */
  lemma {:induction false} NextCodeSame(c: seq<nat>, c': seq<nat>, k: nat)
    requires |c| == |c'| == MAX_BITS + 1 && k <= MAX_BITS
    requires forall j :: 1 <= j < k ==> c[j] == c'[j]
    ensures NextCode(c, k) == NextCode(c', k)
  {
    if k > 1 {
      NextCodeSame(c, c', k - 1);
    }
  }

  /** A stream that begins with no symbol's code begins with a dummy code. */
  lemma DummyCode(sh: Shape, k: nat, idx: nat, x: nat)
    requires sh.Valid() && 1 <= k <= MAX_BITS && Decode(sh.cs.lens, x).NoSymbol?
    requires Msb(x, k) == NextCode(Counts(sh.cs.lens), k) + idx
    ensures idx >= Counts(sh.cs.lens)[k]
  {
    var lens := sh.cs.lens;
    if idx < Counts(lens)[k] {
      var v := NthSymbol(lens, |lens|, k, idx);
      assert Matches(lens, v, x);
    }
  }

  /** Only codes of the greatest length are dummies. */
  lemma DummyLongest(b: Lengths, k: nat, idx: nat)
    requires Kraft(b) <= P2(MAX_BITS) && 1 <= k <= MAX_BITS && Counts(b)[k] <= idx < FullCounts(b)[k]
    ensures k == Longest(Counts(b), MAX_BITS)
  {
    hide Count, Start, P2, Missing, Longest;
  }

  /** Complete tables, whose root is the first, decode their code set. */
  lemma TablesDecode(sh: Shape, pool: seq<Huft>, tabs: seq<Tab>)
    requires sh.Valid() && Laid(pool, tabs) && DoneBelow(sh, pool, tabs, P2(MAX_BITS))
    requires |tabs| > 0 && tabs[0].w == 0 && tabs[0].bits == sh.l && AllSnug(sh, tabs)
    requires Kraft(sh.cs.lens) <= P2(MAX_BITS) && sh.c == FullCounts(sh.cs.lens)
    requires forall k :: 1 <= k <= MAX_BITS && sh.c[k] > 0 ==>
               NextCode(sh.c, k) == NextCode(Counts(sh.cs.lens), k)
    ensures Decodes(sh.cs, Tree(pool, tabs[0].start, tabs[0].bits))
  {
    var t := tabs[0];
    assert t.pfx == 0 by { assert P2(0) == 1; }
    hide Laid, DoneBelow, AllSnug, LooksFrom, Lookup, Msb, P2, NextCode, Count, Longest, FullCounts;
    forall x: nat
      ensures DecodesAt(sh.cs, Tree(pool, t.start, t.bits), x)
    {
      NoBits(x);
      var k, idx := WalkFrom(sh, pool, tabs, 0, x);
      RootDecodes(sh, pool, t, x, k, idx);
    }
  }

  lemma RootDecodes(sh: Shape, pool: seq<Huft>, t: Tab, x: nat, k: nat, idx: nat)
    requires sh.Valid() && t.w == 0 && t.bits == sh.l && 1 <= k <= MAX_BITS && Leads(sh, pool, t, x, k, idx)
    requires idx < sh.c[k] && Msb(x, k) == NextCode(sh.c, k) + idx
    requires Kraft(sh.cs.lens) <= P2(MAX_BITS) && sh.c == FullCounts(sh.cs.lens)
    requires forall n :: 1 <= n <= MAX_BITS && sh.c[n] > 0 ==> NextCode(sh.c, n) == NextCode(Counts(sh.cs.lens), n)
    ensures DecodesAt(sh.cs, Tree(pool, t.start, t.bits), x)
  {
    hide LooksFrom, Lookup, Msb, P2, NextCode, Count, Longest, FullCounts;
    NoBits(x);
    var r := Decode(sh.cs.lens, x);
    if r.Symbol? {
      var len := sh.cs.lens[r.value];
      MatchesInterval(sh.cs.lens, r.value, x);
      SameCode(sh.c, k, idx, len, Count(sh.cs.lens, r.value, len), x);
    } else {
      DummyCode(sh, k, idx, x);
      DummyLongest(sh.cs.lens, k, idx);
    }
  }

  /** A stream begins with one code only. */
  lemma SameCode(c: seq<nat>, k1: nat, i1: nat, k2: nat, i2: nat, x: nat)
    requires |c| == MAX_BITS + 1 && 1 <= k1 <= MAX_BITS && 1 <= k2 <= MAX_BITS && i1 < c[k1] && i2 < c[k2]
    requires Msb(x, k1) == NextCode(c, k1) + i1 && Msb(x, k2) == NextCode(c, k2) + i2
    ensures k1 == k2 && i1 == i2
  {
    InInterval(c, k1, i1, x);
    InInterval(c, k2, i2, x);
    if k1 < k2 || (k1 == k2 && i1 < i2) {
      IntervalsOrdered(c, k1, i1, k2, i2);
    } else if k2 < k1 || i2 < i1 {
      IntervalsOrdered(c, k2, i2, k1, i1);
    }
  }
}
