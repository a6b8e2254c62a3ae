/** What the entries that a decoder finds in its trees mean for the stream (section 3.2 of RFC 1951). */
module Decoding {
  import opened BitMath
  import opened Words
  import opened Huffman
  import opened HuftTables
  import opened Deflate
  import opened DeflateFacts
  import opened CodeCounts
  import opened InfTrees
  import opened ZLib

  /** The walk that began at bit position mark has come to table t, to be indexed by need bits, at
      position pos, and will end at f. */
  ghost predicate Walking(st: Stream, tree: Tree, mark: nat, t: nat, need: nat, pos: nat, f: Found) {
    && f.Found? && f == Find(tree, At(st, mark))
    && mark <= pos < mark + f.used && need <= tree.bits
    && Lookup(tree.pool, t, need, MAX_BITS - (pos - mark), At(st, pos))
    == Found(f.entry, mark + f.used - pos, mark + f.looked - pos)
  }

  /** One look of a walk: a link to follow, or the entry where the walk ends. */
  lemma Look(st: Stream, tree: Tree, mark: nat, t: nat, need: nat, pos: nat, f: Found)
    requires Walking(st, tree, mark, t, need, pos, f)
    ensures var i := t + Bits(st, pos, need);
            && i < |tree.pool| && 1 <= tree.pool[i].bits <= need
            && (IsLink(tree.pool[i]) ==>
                  Walking(st, tree, mark, tree.pool[i].more, tree.pool[i].exop, pos + tree.pool[i].bits, f))
            && (!IsLink(tree.pool[i]) ==>
                  tree.pool[i] == f.entry && pos + f.entry.bits == mark + f.used && pos + need == mark + f.looked)
  {
    CutTwice(Num(st.data), pos, tree.pool[t + Bits(st, pos, need)].bits);
  }

  /** One unfolding of OneSymbol. */
  lemma OneSymbolAt(st: Stream, mark: nat, out: seq<byte>, c: Coding)
    requires mark < End(st)
    ensures var d := Decode(c.lit, At(st, mark));
            OneSymbol(st, mark, out, c) ==
            if d.NoSymbol? && Count(c.lit, |c.lit|, 0) > 0 then Unclear
            else if mark + Need(st, c.lit, c.lbits, At(st, mark)) > End(st) then Cut
            else if d.NoSymbol? then Broken
            else if d.value < 256 then Went(mark + c.lit[d.value], out + [d.value])
            else if d.value == 256 then Ended(mark + c.lit[d.value])
            else if d.value > 285 then Unclear
            else LengthExtra(st, mark + c.lit[d.value], out, c, LENGTH_BASE[d.value - 257], LENGTH_EXTRA[d.value - 257])
  {
    hide Low, Shr, Num, Decode, LengthExtra, Need;
  }

  /** In a fixed block the eight bits 11000110 are taken for a length of 0, and inflate_fast then copies
      2^32 bytes instead of none (InfTrees.Unrolled), past the end of the window; the format knows no such
      symbol. */
  lemma LengthZero(s: Stream, pos: nat, out: seq<byte>, last: bool)
    requires Msb(At(s, pos), 8) == 0xc6 && pos + 8 <= End(s) && !s.looks
    ensures Decode(FixedLit(), At(s, pos)) == Symbol(286)
    ensures OneSymbol(s, pos, out, FixedCoding(last)) == Unclear
    ensures LitSet(FixedLit()).Valid() && LitSet(FixedLit()).Exop(286) == 16 && LitSet(FixedLit()).Base(286) == 0
  {
    FixedCodes();
    SymbolsMean(FixedLit(), 286);
    hide Msb, Code, Decode, FixedLit, Width, Looks, OneSymbol, LengthExtra, FixedDist, At, LitSet;
    DecodeIs(FixedLit(), 286, At(s, pos));
    OneSymbolAt(s, pos, out, FixedCoding(last));
  }

  lemma DistanceAt(st: Stream, mark: nat, out: seq<byte>, c: Coding, len: nat)
    requires mark < End(st) && !Empty(c.dist)
    ensures var d := Decode(c.dist, At(st, mark));
            Distance(st, mark, out, c, len) ==
            if d.NoSymbol? && Count(c.dist, |c.dist|, 0) > 0 then Unclear
            else if mark + Need(st, c.dist, c.dbits, At(st, mark)) > End(st) then Cut
            else if d.NoSymbol? then Broken
            else if d.value > 29 then Unclear
            else DistanceExtra(st, mark + c.dist[d.value], out, len, DIST_BASE[d.value], DIST_EXTRA[d.value])
  {
    hide Low, Shr, Num, Decode, DistanceExtra, Empty, Need;
  }

  /** What must be there to decode a code is what a walk of the tree looks at. */
  lemma NeedIs(st: Stream, cs: CodeSet, m: nat, tree: Tree, x: nat)
    requires st.looks && TreeFor(cs, tree, m) && (Decode(cs.lens, x).Symbol? || cs.AllUsed())
    ensures Find(tree, x).Found? && Need(st, cs.lens, m, x) == Find(tree, x).looked
  {
    hide Lookup, Decode, Count, Longest, Shortest, Looks;
    assert DecodesAt(cs, tree, x);
  }

  /** Where a literal/length code at mark leads, for data on which the outcome is defined. */
  lemma CodesWalk(st: Stream, mark: nat, out: seq<byte>, c: Coding, tree: Tree) returns (f: Found)
    requires st.looks && TreeFor(LitSet(c.lit), tree, c.lbits) && mark < End(st)
    requires OneSymbol(st, mark, out, c) != Unclear
    ensures Walking(st, tree, mark, tree.root, tree.bits, mark, f)
  {
    hide Low, Shr, Num, Lookup, OneSymbol, Decode, Count, Need, Looks;
    OneSymbolAt(st, mark, out, c);
    f := Find(tree, At(st, mark));
    assert DecodesAt(LitSet(c.lit), tree, At(st, mark));
  }

  lemma DistanceWalk(st: Stream, mark: nat, out: seq<byte>, c: Coding, tree: Tree, len: nat) returns (f: Found)
    requires st.looks && TreeFor(DistSet(c.dist), tree, c.dbits) && mark < End(st)
    requires Distance(st, mark, out, c, len) != Unclear
    requires !Empty(c.dist)
    ensures Walking(st, tree, mark, tree.root, tree.bits, mark, f)
  {
    hide Low, Shr, Num, Lookup, Distance, Decode, Count, Need, Looks;
    DistanceAt(st, mark, out, c, len);
    f := Find(tree, At(st, mark));
    assert DecodesAt(DistSet(c.dist), tree, At(st, mark));
  }

  /** The tables of zlib/inftrees.c are those of the RFC, with two invalid symbols added. */
  lemma SameTables()
    ensures CPLENS == LENGTH_BASE + [0, 0] && CPLEXT == LENGTH_EXTRA + [192, 192]
    ensures CPDIST == DIST_BASE && CPDEXT == DIST_EXTRA
  {
  }

  lemma ExtraBounds()
    ensures forall i :: 0 <= i < |LENGTH_EXTRA| ==> LENGTH_EXTRA[i] <= 5
    ensures forall i :: 0 <= i < |DIST_EXTRA| ==> DIST_EXTRA[i] <= 13
  {
  }

  /** What a literal/length entry says is to be done. */
  lemma LitExop(b: Lengths, v: nat, exop: nat, more: nat)
    requires LitSet(b).Valid() && v < |b| && v <= 285 && exop == LitSet(b).Exop(v) && more == LitSet(b).Base(v)
    ensures v < 256 ==> exop == 0 && more == v
    ensures v == 256 ==> exop == 96
    ensures v > 256 ==> exop == 80 + LENGTH_EXTRA[v - 257] && more == LENGTH_BASE[v - 257] && LENGTH_EXTRA[v - 257] <= 5
    ensures v > 256 ==> 3 <= more && more + P2(LENGTH_EXTRA[v - 257]) <= 259
  {
    hide CPLENS, CPLEXT, LENGTH_BASE, LENGTH_EXTRA;
    SameTables();
    ExtraBounds();
    if v > 256 {
      TableSizes();
      LengthRanges();
    }
  }

  /** Every length lies between 3 and 258. */
  lemma LengthRanges()
    ensures forall i :: 0 <= i < 29 ==> 3 <= LENGTH_BASE[i] && LENGTH_BASE[i] + P2(LENGTH_EXTRA[i]) <= 259
  {
    P2Small();
    assert forall i :: 0 <= i < 29 ==> 0 <= LENGTH_EXTRA[i] <= 5;
    hide P2;
  }

  lemma DistExop(b: Lengths, v: nat, exop: nat, more: nat)
    requires DistSet(b).Valid() && v < |b| && exop == DistSet(b).Exop(v) && more == DistSet(b).Base(v)
    ensures v < 30 && exop == 80 + DIST_EXTRA[v] && more == DIST_BASE[v] && DIST_EXTRA[v] <= 13
  {
    SameTables();
    ExtraBounds();
  }

  /** What the exop of an entry says: a literal, a length or distance, the end of the block, or an
      invalid code. */
  lemma Kinds(e: Huft)
    ensures e.exop == 0 ==> !IsLength(e.exop) && !IsLink(e)
    ensures e.exop == 96 ==> !IsLength(e.exop) && !IsLink(e) && IsEnd(e.exop)
    ensures e.exop == INVALID ==> !IsLength(e.exop) && !IsLink(e) && !IsEnd(e.exop) && e.exop != 0
    ensures 80 <= e.exop <= 95 ==> IsLength(e.exop) && !IsLink(e) && e.exop % 16 == e.exop - 80
  {
  }

  lemma LitLens(b: Lengths)
    ensures LitSet(b).lens == b && (LitSet(b).AllUsed() <==> Count(b, |b|, 0) == 0)
  {
    hide Count;
  }

  lemma DistLens(b: Lengths)
    ensures DistSet(b).lens == b && (DistSet(b).AllUsed() <==> Count(b, |b|, 0) == 0)
  {
    hide Count;
  }

  /** The entry found is that of the symbol decoded, or the invalid one. */
  lemma LitFound(lit: Lengths, m: nat, tree: Tree, x: nat)
    requires TreeFor(LitSet(lit), tree, m)
    ensures var d, f := Decode(lit, x), Find(tree, x);
            && LitSet(lit).Valid()
            && (d.Symbol? ==> d.value < |lit| && f.Found? && f.used == lit[d.value]
                              && f.entry.exop == LitSet(lit).Exop(d.value) && f.entry.more == LitSet(lit).Base(d.value))
            && (d.NoSymbol? && Count(lit, |lit|, 0) == 0 ==> f.Found? && f.entry.exop == INVALID)
  {
    hide Low, Shr, Lookup, Find, Decode, Count;
    assert DecodesAt(LitSet(lit), tree, x);
  }

  /** What the entry at the end of a walk means for the literal/length code at mark. */
  lemma CodesEntry(st: Stream, mark: nat, out: seq<byte>, c: Coding, tree: Tree, f: Found)
    requires st.looks && TreeFor(LitSet(c.lit), tree, c.lbits) && mark < End(st)
    requires OneSymbol(st, mark, out, c) != Unclear
    requires f.Found? && f == Find(tree, At(st, mark)) && mark + f.looked <= End(st)
    ensures !IsLink(f.entry)
    ensures f.entry.exop == 0 ==>
              f.entry.more < 256 && OneSymbol(st, mark, out, c) == Went(mark + f.used, out + [f.entry.more])
    ensures IsLength(f.entry.exop) ==>
              f.entry.exop % 16 <= 5 && 3 <= f.entry.more && f.entry.more + P2(f.entry.exop % 16) <= 259
              && OneSymbol(st, mark, out, c) == LengthExtra(st, mark + f.used, out, c, f.entry.more, f.entry.exop % 16)
    ensures f.entry.exop != 0 && !IsLength(f.entry.exop) ==>
              OneSymbol(st, mark, out, c) == if IsEnd(f.entry.exop) then Ended(mark + f.used) else Broken
  {
    hide Low, Shr, Num, Lookup, Find, OneSymbol, LengthExtra, Decode, Count, IsLength, IsLink, IsEnd, At, TreeFor, P2,
      LitSet, LENGTH_BASE, LENGTH_EXTRA, Need;
    TableSizes();
    LitLens(c.lit);
    OneSymbolAt(st, mark, out, c);
    Kinds(f.entry);
    LitFound(c.lit, c.lbits, tree, At(st, mark));
    var x := At(st, mark);
    if Decode(c.lit, x).Symbol? || Count(c.lit, |c.lit|, 0) == 0 {
      NeedIs(st, LitSet(c.lit), c.lbits, tree, x);
    }
    var d := Decode(c.lit, At(st, mark));
    if d.Symbol? {
      LitExop(c.lit, d.value, f.entry.exop, f.entry.more);
    }
  }

  /** What the entry at the end of a walk means for the distance code at mark. */
  lemma DistanceEntry(st: Stream, mark: nat, out: seq<byte>, c: Coding, tree: Tree, len: nat, f: Found)
    requires st.looks && TreeFor(DistSet(c.dist), tree, c.dbits) && mark < End(st)
    requires Distance(st, mark, out, c, len) != Unclear
    requires f.Found? && f == Find(tree, At(st, mark)) && mark + f.looked <= End(st)
    requires !Empty(c.dist)
    ensures !IsLink(f.entry) && f.entry.exop != 0
    ensures IsLength(f.entry.exop) ==>
              f.entry.exop % 16 <= 13
              && Distance(st, mark, out, c, len)
              == DistanceExtra(st, mark + f.used, out, len, f.entry.more, f.entry.exop % 16)
    ensures !IsLength(f.entry.exop) ==> Distance(st, mark, out, c, len) == Broken
  {
    hide Low, Shr, Num, Lookup, Find, Distance, DistanceExtra, Decode, Count, Empty, IsLength, IsLink, Need, Looks;
    DistanceAt(st, mark, out, c, len);
    Kinds(f.entry);
    assert DecodesAt(DistSet(c.dist), tree, At(st, mark));
    DistLens(c.dist);
    NeedIs(st, DistSet(c.dist), c.dbits, tree, At(st, mark));
    var d := Decode(c.dist, At(st, mark));
    if d.Symbol? {
      DistExop(c.dist, d.value, f.entry.exop, f.entry.more);
    }
  }

  /** When the input ends within a look, the symbol is cut off. */
  lemma CodesCut(st: Stream, mark: nat, out: seq<byte>, c: Coding, tree: Tree, f: Found)
    requires st.looks && TreeFor(LitSet(c.lit), tree, c.lbits) && OneSymbol(st, mark, out, c) != Unclear
    requires f == Find(tree, At(st, mark)) && f.Found? && mark + f.looked > End(st)
    ensures OneSymbol(st, mark, out, c) == Cut
  {
    hide Low, Shr, Num, Lookup, Find, Decode, Count, At, TreeFor, Need;
    if mark < End(st) {
      OneSymbolAt(st, mark, out, c);
      LitLens(c.lit);
      NeedIs(st, LitSet(c.lit), c.lbits, tree, At(st, mark));
    }
  }

  lemma DistanceCut(st: Stream, mark: nat, out: seq<byte>, c: Coding, tree: Tree, len: nat, f: Found)
    requires st.looks && TreeFor(DistSet(c.dist), tree, c.dbits) && Distance(st, mark, out, c, len) != Unclear
    requires f == Find(tree, At(st, mark)) && f.Found? && mark + f.looked > End(st) && !Empty(c.dist)
    ensures Distance(st, mark, out, c, len) == Cut
  {
    hide Low, Shr, Num, Lookup, Find, Decode, Count, At, TreeFor, Need, Empty;
    if mark < End(st) {
      DistanceAt(st, mark, out, c, len);
      DistLens(c.dist);
      NeedIs(st, DistSet(c.dist), c.dbits, tree, At(st, mark));
    }
  }
}
