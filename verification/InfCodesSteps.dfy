/** zlib/infcodes.c: decoding the literals and matches of a block, one resumable step at a time. */
module InfCodesSteps {
  import opened BitMath
  import opened Words
  import opened Huffman
  import opened HuftTables
  import opened Deflate
  import opened DeflateFacts
  import opened Decoding
  import opened InfTrees
  import opened InfUtil
  import opened InfState
  import opened ZLib

  /** What lies ahead of a symbol lies ahead of the block. */
  lemma GoAhead(st: Stream, x: Step, pos: nat, hist: seq<byte>, c: Coding)
    requires StepAhead(st, x, pos, hist)
    ensures Ahead(st, Go(st, x, hist, c), pos, hist)
  {
    hide Codes, EndBlock;
    match x
    case Went(p, o) => CodesAhead(st, p, o, c);
    case Ended(p) => EndBlockAhead(st, p, hist, c.last);
    case _ =>
  }

  lemma Defined(s: State)
    requires CodesCore(s)
    ensures s.symbol != Unclear && Pos(s) >= 0
    ensures (s.cmode.LEN? || s.cmode.DIST?) ==> s.cmode.need <= 9
    ensures (s.cmode.LENEXT? ==> s.cmode.get <= 5) && (s.cmode.DISTEXT? ==> s.cmode.get <= 13)
  {
    hide WindowOK, TreesOK, Partial, UnderWay;
  }

  /** A symbol that is cut off is the end of the data. */
  lemma CutStarves(s: State)
    requires CodesCore(s) && s.avail_in == 0 && (Limit(s) == |s.input| ==> s.symbol == Cut) && s.bitk <= Slack(s)
    ensures Starved(s)
  {
    hide BitsOK, WindowOK, TreesOK, CodesOK, Partial, Slack;
  }

  /** Where all of the input is in the buffer, the input ends. */
  lemma AllTaken(s: State)
    requires BitsOK(s) && s.avail_in == 0 && Limit(s) == |s.input|
    ensures Pos(s) + s.bitk == End(Str(s))
  {
    hide Bits, At;
  }

  /** Fewer bits are left than a look takes. */
  lemma LenStarved(s: State)
    requires CodesCore(s) && s.cmode.LEN? && s.bitk < s.cmode.need && s.avail_in == 0
    ensures Starved(s)
  {
    hide Low, Shr, P2, Num, Codes, Lookup, Bits, At, OneSymbol, WindowOK, Go, TreeFor;
    var st := Str(s);
    Defined(s);
    if Limit(s) == |s.input| {
      AllTaken(s);
      if s.mark < End(st) {
        var f := LenWalks(s);
        WalkLooks(st, s.ltree, s.mark, s.cmode.tree, s.cmode.need, Pos(s), f);
        CodesCut(st, s.mark, s.hist, s.coding, s.ltree, f);
      } else {
        assert s.symbol == Cut by { OneSymbolPast(st, s.mark, s.hist, s.coding); }
      }
    }
    CutStarves(s);
  }

  lemma OneSymbolPast(st: Stream, pos: nat, out: seq<byte>, c: Coding)
    requires pos >= End(st)
    ensures OneSymbol(st, pos, out, c) == Cut
    ensures forall len: nat :: Distance(st, pos, out, c, len) in {Cut, Unclear}
  {
  }

  /** A walk looks at least at the bits of its next look. */
  lemma WalkLooks(st: Stream, tree: Tree, mark: nat, t: nat, need: nat, pos: nat, f: Found)
    requires Walking(st, tree, mark, t, need, pos, f)
    ensures mark + f.looked >= pos + need
  {
    hide At;
  }

  /** The bits for a look lie within the input. */
  lemma LookInside(s: State)
    requires CodesCore(s) && (s.cmode.LEN? || s.cmode.DIST?) && s.bitk >= s.cmode.need
    ensures s.mark < End(Str(s)) && Pos(s) + s.cmode.need <= End(Str(s))
  {
    hide Low, Shr, P2, Num, Lookup, Bits, At, WindowOK, Go, TreeFor, OneSymbol, Find;
    Defined(s);
    if s.cmode.DIST? {
      DistanceDefined(Str(s), s.mark, s.hist, s.coding, s.cmode.len);
    }
  }

  /** As long as there is input, a walk is on. */
  lemma LenWalks(s: State) returns (f: Found)
    requires CodesCore(s) && s.cmode.LEN? && s.mark < End(Str(s))
    ensures Walking(Str(s), s.ltree, s.mark, s.cmode.tree, s.cmode.need, Pos(s), f)
    ensures f == Find(s.ltree, At(Str(s), s.mark)) && f.Found?
  {
    hide Low, Shr, P2, Num, Lookup, Find, Bits, At, Decodes, OneSymbol, WindowOK, Go;
    Defined(s);
    if s.mark == Pos(s) && s.cmode.tree == s.ltree.root && s.cmode.need == s.ltree.bits {
      f := CodesWalk(Str(s), s.mark, s.hist, s.coding, s.ltree);
    } else {
      f :| Walking(Str(s), s.ltree, s.mark, s.cmode.tree, s.cmode.need, Pos(s), f);
    }
  }

  /** Look up the next need bits in the table at t and drop what the entry says. */
  method TakeEntry(s: State, tree: Tree, t: nat, need: nat, ghost f: Found) returns (e: Huft)
    requires BitsOK(s) && s.bitk >= need && Pos(s) >= 0 && Walking(Str(s), tree, s.mark, t, need, Pos(s), f)
    modifies s`bitb, s`bitk, s`kk
    ensures BitsOK(s) && Pos(s) == old(Pos(s)) + e.bits && s.bitk == old(s.bitk) - e.bits && 1 <= e.bits <= need
    ensures IsLink(e) ==> 1 <= e.exop <= tree.bits && Walking(Str(s), tree, s.mark, e.more, e.exop, Pos(s), f)
    ensures !IsLink(e) ==> e == f.entry && Pos(s) == s.mark + f.used && old(Pos(s)) + need == s.mark + f.looked
  {
    hide Low, Shr, P2, Num, Lookup, Bits, At;
    Peek(s, need);
    Look(Str(s), tree, s.mark, t, need, Pos(s), f);
    e := tree.pool[t + Low(s.bitb, need)];
    DumpBits(s, e.bits);
  }

  /** zlib/infcodes.c:126-157 */
  function AfterLen(t: Huft): CodesMode {
    if t.exop == 0 then LIT(t.more % 256)
    else if IsLength(t.exop) then LENEXT(t.more, t.exop % 16)
    else if !IsFinal(t.exop) then LEN(t.more, t.exop)
    else if IsEnd(t.exop) then WASH
    else BADCODE
  }

  /** The mode that follows a look carries on with the same symbol. */
  lemma AfterLenMeans(st: Stream, ltree: Tree, dtree: Tree, m0: CodesMode, mark: nat, pos0: nat, pos: nat,
                      hist: seq<byte>, c: Coding, last: bool, t: Huft, f: Found)
    requires TreesOK(c, last, ltree, dtree) && mark < End(st) && pos <= End(st)
    requires m0.LEN? && Partial(st, m0, mark, pos0, hist, c) != Unclear
    requires f.Found? && f == Find(ltree, At(st, mark)) && st.looks
    requires IsLink(t) ==> 1 <= t.exop <= ltree.bits && Walking(st, ltree, mark, t.more, t.exop, pos, f)
    requires !IsLink(t) ==> t == f.entry && pos == mark + f.used && mark + f.looked <= End(st)
    ensures Partial(st, AfterLen(t), mark, pos, hist, c) == Partial(st, m0, mark, pos0, hist, c)
    ensures CodesOK(st, AfterLen(t), mark, pos, c, ltree, dtree) && AfterLen(t) != END
  {
    hide Low, Shr, P2, Num, OneSymbol, Lookup, Find, Bits, At, Decodes, LengthExtra, Walking;
    if !IsLink(t) {
      CodesEntry(st, mark, hist, c, ltree, f);
    }
  }

  /** The bits for a look are there (zlib/infcodes.c:124-158). */
  method TakeLen(s: State, r0: int) returns (leave: bool, r: int)
    requires CodesCore(s) && s.cmode.LEN? && s.cmode.need <= s.bitk < 17
    modifies s`bitb, s`bitk, s`kk, s`cmode
    ensures CodesValid(s) && Pos(s) > old(Pos(s))
    ensures if leave then s.cmode == BADCODE && r == Z_DATA_ERROR else s.cmode != BADCODE && s.cmode != END && r == r0
  {
    hide CodesCore, WindowOK, TreesOK, CodesOK, Partial, Go, Low, Shr, Num, Bits, At, Walking;
    CodesIs(s);
    Defined(s);
    LookInside(s);
    ghost var f := LenWalks(s);
    var t := TakeEntry(s, s.ltree, s.cmode.tree, s.cmode.need, f);
    AfterLenMeans(Str(s), s.ltree, s.dtree, s.cmode, s.mark, old(Pos(s)), Pos(s), s.hist, s.coding, s.last, t, f);
    s.cmode := AfterLen(t);
    CodesIs(s);
    leave := s.cmode == BADCODE;
    r := if leave then Z_DATA_ERROR else r0;
  }

  /** LEN: get length/literal/eob next (zlib/infcodes.c:121-158). */
  method StepLen(s: State, r0: int) returns (leave: bool, r: int)
    requires CodesValid(s) && s.cmode.LEN? && (r0 == Z_OK || r0 == Z_BUF_ERROR)
    modifies s`next_in, s`avail_in, s`bitb, s`bitk, s`kk, s`cmode
    ensures CodesValid(s) && Onward(s) && Reported(s, leave, r0, r)
    ensures r == Z_OK || r == Z_BUF_ERROR || (r == Z_DATA_ERROR && leave && s.cmode == BADCODE)
    ensures (!leave ==> Pos(s) > old(Pos(s))) && s.cmode != END && (leave ==> s.cmode != WASH)
  {
    hide CodesCore, WindowOK, TreesOK, CodesOK, Partial, Go, Safe, Slack, Spoilt, Misses, BitsOK;
    CodesIs(s);
    CodesSafe(s);
    Defined(s);
    var ok;
    ok, r := NeedBits(s, s.cmode.need, r0);
    CodesIs(s);
    if ok {
      leave, r := TakeLen(s, r);
    } else {
      if s.avail_in == 0 {
        LenStarved(s);
      }
      leave := true;
    }
    CodesSafe(s);
  }

  // ---- Extra bits ----

  /** Fewer bits are left than extra bits are needed. */
  lemma ExtraStarved(s: State)
    requires CodesCore(s) && (s.cmode.LENEXT? || s.cmode.DISTEXT?) && s.bitk < s.cmode.get && s.avail_in == 0
    ensures Starved(s)
  {
    hide WindowOK, TreesOK, Go, Bits, At;
    CodesIs(s);
    CutStarves(s);
  }

  lemma LenExtMeans(st: Stream, m0: CodesMode, mark: nat, pos: nat, hist: seq<byte>, c: Coding, last: bool,
                    ltree: Tree, dtree: Tree)
    requires TreesOK(c, last, ltree, dtree)
    requires m0.LENEXT? && CodesOK(st, m0, mark, pos, c, ltree, dtree)
    ensures m0.get <= 5 && (pos + m0.get > End(st) ==> Partial(st, m0, mark, pos, hist, c) == Cut)
    ensures pos + m0.get <= End(st) ==>
              var p, m := pos + m0.get, DIST(m0.len + Bits(st, pos, m0.get), dtree.root, dtree.bits);
              && Partial(st, m, p, p, hist, c) == Partial(st, m0, mark, pos, hist, c)
              && CodesOK(st, m, p, p, c, ltree, dtree)
  {
    hide Low, Shr, P2, Num, Distance, Bits, At;
  }

  /** The next code starts here. */
  method BeginWalk(s: State, m: CodesMode)
    requires BitsOK(s) && Pos(s) >= 0
    modifies s`cmode, s`mark
    ensures s.cmode == m && s.mark == Pos(s)
  {
    s.mark := Pos(s);
    s.cmode := m;
  }

  /** The extra bits of a length are there. */
  method TakeLenExt(s: State)
    requires CodesCore(s) && s.cmode.LENEXT? && s.cmode.get <= s.bitk < s.cmode.get + 16
    modifies s`bitb, s`bitk, s`kk, s`cmode, s`mark
    ensures CodesValid(s) && s.cmode.DIST? && Pos(s) == old(Pos(s)) + old(s.cmode.get)
  {
    hide CodesCore, WindowOK, TreesOK, CodesOK, Partial, Go, Low, Shr, Num, Bits, At, Walking;
    CodesIs(s);
    var len, j := s.cmode.len, s.cmode.get;
    LenExtMeans(Str(s), s.cmode, s.mark, Pos(s), s.hist, s.coding, s.last, s.ltree, s.dtree);
    var v := TakeBits(s, j);
    BeginWalk(s, DIST(len + v, s.dtree.root, s.dtree.bits));
    CodesIs(s);
  }

  /** LENEXT: get the length's extra bits (zlib/infcodes.c:159-167). */
  method StepLenExt(s: State, r0: int) returns (leave: bool, r: int)
    requires CodesValid(s) && s.cmode.LENEXT? && (r0 == Z_OK || r0 == Z_BUF_ERROR)
    modifies s`next_in, s`avail_in, s`bitb, s`bitk, s`kk, s`cmode, s`mark
    ensures CodesValid(s) && Onward(s) && Reported(s, leave, r0, r)
    ensures r == Z_OK || r == Z_BUF_ERROR
    ensures (!leave ==> s.cmode.DIST?) && s.cmode != END && s.cmode != WASH
  {
    hide CodesCore, WindowOK, TreesOK, CodesOK, Partial, Go, Safe, Slack, Spoilt, Misses, BitsOK, Num, Low, Shr, Or, P2;
    CodesIs(s);
    CodesSafe(s);
    Defined(s);
    var ok;
    ok, r := NeedBits(s, s.cmode.get, r0);
    CodesIs(s);
    leave := !ok;
    if ok {
      TakeLenExt(s);
    } else if s.avail_in == 0 {
      ExtraStarved(s);
    }
    CodesSafe(s);
  }

  lemma DistExtMeans(st: Stream, m0: CodesMode, mark: nat, pos: nat, hist: seq<byte>, c: Coding, ltree: Tree,
                     dtree: Tree)
    requires m0.DISTEXT? && CodesOK(st, m0, mark, pos, c, ltree, dtree)
    requires Partial(st, m0, mark, pos, hist, c) != Unclear
    ensures m0.get <= 13 && (pos + m0.get > End(st) ==> Partial(st, m0, mark, pos, hist, c) == Cut)
    ensures pos + m0.get <= End(st) ==>
              var p, m := pos + m0.get, COPY(m0.len, m0.dist + Bits(st, pos, m0.get));
              && Partial(st, m, mark, p, hist, c) == Partial(st, m0, mark, pos, hist, c)
              && CodesOK(st, m, mark, p, c, ltree, dtree)
  {
    hide Low, Shr, P2, Num, CopyMatch, Bits, At;
  }

  /** The extra bits of a distance are there. */
  method TakeDistExt(s: State)
    requires CodesCore(s) && s.cmode.DISTEXT? && s.cmode.get <= s.bitk < s.cmode.get + 16
    modifies s`bitb, s`bitk, s`kk, s`cmode
    ensures CodesValid(s) && s.cmode.COPY? && Pos(s) == old(Pos(s)) + old(s.cmode.get)
  {
    hide CodesCore, WindowOK, TreesOK, CodesOK, Partial, Go, Low, Shr, Num, Bits, At, Walking;
    CodesIs(s);
    Defined(s);
    var len, dist, j := s.cmode.len, s.cmode.dist, s.cmode.get;
    DistExtMeans(Str(s), s.cmode, s.mark, Pos(s), s.hist, s.coding, s.ltree, s.dtree);
    var v := TakeBits(s, j);
    s.cmode := COPY(len, dist + v);
    CodesIs(s);
  }

  /** DISTEXT: get the distance's extra bits (zlib/infcodes.c:191-197). */
  method StepDistExt(s: State, r0: int) returns (leave: bool, r: int)
    requires CodesValid(s) && s.cmode.DISTEXT? && (r0 == Z_OK || r0 == Z_BUF_ERROR)
    modifies s`next_in, s`avail_in, s`bitb, s`bitk, s`kk, s`cmode
    ensures CodesValid(s) && Onward(s) && Reported(s, leave, r0, r)
    ensures r == Z_OK || r == Z_BUF_ERROR
    ensures (!leave ==> s.cmode.COPY?) && s.cmode != END && s.cmode != WASH
  {
    hide CodesCore, WindowOK, TreesOK, CodesOK, Partial, Go, Safe, Slack, Spoilt, Misses, BitsOK, Num, Low, Shr, Or, P2;
    CodesIs(s);
    CodesSafe(s);
    Defined(s);
    var ok;
    ok, r := NeedBits(s, s.cmode.get, r0);
    CodesIs(s);
    leave := !ok;
    if ok {
      TakeDistExt(s);
    } else if s.avail_in == 0 {
      ExtraStarved(s);
    }
    CodesSafe(s);
  }

  // ---- Distance codes ----

  lemma DistStarved(s: State)
    requires CodesCore(s) && s.cmode.DIST? && s.bitk < s.cmode.need && s.avail_in == 0
    ensures Starved(s)
  {
    hide Low, Shr, P2, Num, Codes, Lookup, Bits, At, Distance, WindowOK, Go, TreeFor;
    var st := Str(s);
    Defined(s);
    DistanceDefined(st, s.mark, s.hist, s.coding, s.cmode.len);
    if Limit(s) == |s.input| {
      AllTaken(s);
      if s.mark < End(st) {
        var f := DistWalks(s);
        WalkLooks(st, s.dtree, s.mark, s.cmode.tree, s.cmode.need, Pos(s), f);
        DistanceCut(st, s.mark, s.hist, s.coding, s.dtree, s.cmode.len, f);
      } else {
        assert s.symbol == Cut by { OneSymbolPast(st, s.mark, s.hist, s.coding); }
      }
    }
    CutStarves(s);
  }

  /** On data with a defined outcome a distance code is only read when there are distance codes. */
  lemma DistanceDefined(st: Stream, pos: nat, out: seq<byte>, c: Coding, len: nat)
    requires Distance(st, pos, out, c, len) != Unclear
    ensures !Empty(c.dist)
  {
  }

  lemma DistWalks(s: State) returns (f: Found)
    requires CodesCore(s) && s.cmode.DIST? && s.mark < End(Str(s))
    ensures Walking(Str(s), s.dtree, s.mark, s.cmode.tree, s.cmode.need, Pos(s), f)
    ensures f == Find(s.dtree, At(Str(s), s.mark)) && f.Found?
  {
    hide Low, Shr, P2, Num, Distance, Lookup, Find, Bits, At, Decodes, WindowOK, Go;
    Defined(s);
    DistanceDefined(Str(s), s.mark, s.hist, s.coding, s.cmode.len);
    if s.mark == Pos(s) && s.cmode.tree == s.dtree.root && s.cmode.need == s.dtree.bits {
      f := DistanceWalk(Str(s), s.mark, s.hist, s.coding, s.dtree, s.cmode.len);
    } else {
      f :| Walking(Str(s), s.dtree, s.mark, s.cmode.tree, s.cmode.need, Pos(s), f);
    }
  }

  /** zlib/infcodes.c:173-189 */
  function AfterDist(t: Huft, len: nat): CodesMode {
    if IsLength(t.exop) then DISTEXT(len, t.more, t.exop % 16)
    else if !IsFinal(t.exop) then DIST(len, t.more, t.exop)
    else BADCODE
  }

  lemma AfterDistMeans(st: Stream, ltree: Tree, dtree: Tree, m0: CodesMode, mark: nat, pos0: nat, pos: nat,
                       hist: seq<byte>, c: Coding, last: bool, t: Huft, f: Found)
    requires TreesOK(c, last, ltree, dtree) && mark < End(st) && pos <= End(st)
    requires m0.DIST? && Partial(st, m0, mark, pos0, hist, c) != Unclear
    requires f.Found? && f == Find(dtree, At(st, mark)) && st.looks
    requires IsLink(t) ==> 1 <= t.exop <= dtree.bits && Walking(st, dtree, mark, t.more, t.exop, pos, f)
    requires !IsLink(t) ==> t == f.entry && pos == mark + f.used && mark + f.looked <= End(st)
    ensures Partial(st, AfterDist(t, m0.len), mark, pos, hist, c) == Partial(st, m0, mark, pos0, hist, c)
    ensures CodesOK(st, AfterDist(t, m0.len), mark, pos, c, ltree, dtree)
  {
    hide Low, Shr, P2, Num, Distance, DistanceExtra, Lookup, Find, Bits, At, Decodes, Walking;
    DistanceDefined(st, mark, hist, c, m0.len);
    if !IsLink(t) {
      DistanceEntry(st, mark, hist, c, dtree, m0.len, f);
    }
  }

  /** The bits for a look are there (zlib/infcodes.c:171-190). */
  method TakeDist(s: State, r0: int) returns (leave: bool, r: int)
    requires CodesCore(s) && s.cmode.DIST? && s.cmode.need <= s.bitk < 17
    modifies s`bitb, s`bitk, s`kk, s`cmode
    ensures CodesValid(s) && Pos(s) > old(Pos(s))
    ensures if leave then s.cmode == BADCODE && r == Z_DATA_ERROR else s.cmode.DIST? || s.cmode.DISTEXT?
    ensures !leave ==> r == r0
  {
    hide CodesCore, WindowOK, TreesOK, CodesOK, Partial, Go, Low, Shr, Num, Bits, At, Walking;
    CodesIs(s);
    Defined(s);
    LookInside(s);
    ghost var f := DistWalks(s);
    var t := TakeEntry(s, s.dtree, s.cmode.tree, s.cmode.need, f);
    AfterDistMeans(Str(s), s.ltree, s.dtree, s.cmode, s.mark, old(Pos(s)), Pos(s), s.hist, s.coding, s.last, t, f);
    s.cmode := AfterDist(t, s.cmode.len);
    CodesIs(s);
    leave := s.cmode == BADCODE;
    r := if leave then Z_DATA_ERROR else r0;
  }

  /** DIST: get distance next (zlib/infcodes.c:168-190). */
  method StepDist(s: State, r0: int) returns (leave: bool, r: int)
    requires CodesValid(s) && s.cmode.DIST? && (r0 == Z_OK || r0 == Z_BUF_ERROR)
    modifies s`next_in, s`avail_in, s`bitb, s`bitk, s`kk, s`cmode
    ensures CodesValid(s) && Onward(s) && Reported(s, leave, r0, r)
    ensures r == Z_OK || r == Z_BUF_ERROR || (r == Z_DATA_ERROR && leave && s.cmode == BADCODE)
    ensures (!leave ==> Pos(s) > old(Pos(s))) && s.cmode != END && s.cmode != WASH
  {
    hide CodesCore, WindowOK, TreesOK, CodesOK, Partial, Go, Safe, Slack, Spoilt, Misses, BitsOK;
    CodesIs(s);
    CodesSafe(s);
    Defined(s);
    var ok;
    ok, r := NeedBits(s, s.cmode.need, r0);
    CodesIs(s);
    if ok {
      leave, r := TakeDist(s, r);
    } else {
      if s.avail_in == 0 {
        DistStarved(s);
      }
      leave := true;
    }
    CodesSafe(s);
  }

  // ---- Output ----

  lemma CopyMeans(st: Stream, len: nat, dist: nat, mark: nat, pos: nat, hist: seq<byte>, c: Coding)
    requires Partial(st, COPY(len, dist), mark, pos, hist, c) != Unclear
    ensures 1 <= dist <= |hist| && dist <= st.wsize && Partial(st, COPY(len, dist), mark, pos, hist, c).Went?
    ensures len > 0 ==>
              Partial(st, COPY(len - 1, dist), mark, pos, hist + [hist[|hist| - dist]], c)
              == Partial(st, COPY(len, dist), mark, pos, hist, c)
    ensures len == 0 ==> Partial(st, COPY(len, dist), mark, pos, hist, c) == Went(pos, hist)
  {
  }

  /** What a literal or match that does not end the block comes to does not depend on the history. */
  lemma GoWent(st: Stream, x: Step, h1: seq<byte>, h2: seq<byte>, c: Coding)
    requires x.Went?
    ensures Go(st, x, h1, c) == Go(st, x, h2, c) == Codes(st, x.pos, x.out, c)
  {
    hide Codes;
  }

  /** While a literal or match is not yet all there, there is more output to come. */
  lemma MoreComes(s: State)
    requires CodesCore(s) && ((s.cmode.COPY? && s.cmode.len > 0) || s.cmode.LIT?)
    ensures s.rest.Bad? ==> |s.hist| < |s.rest.out|
  {
    hide WindowOK, BitsOK, TreesOK, CodesOK, Codes, CopyMatch;
    Defined(s);
    if s.cmode.COPY? {
      CopyExtends(s.hist, s.cmode.len, s.cmode.dist);
    }
    CodesAhead(Str(s), s.symbol.pos, s.symbol.out, s.coding);
  }

  /** At the end of a block what is there may be held up until it is delivered. */
  lemma EndHolds(s: State)
    requires CodesCore(s) && s.cmode == WASH
    ensures s.rest.Bad? ==> |s.hist| <= s.rest.held
  {
    hide WindowOK, BitsOK, TreesOK, CodesOK, EndBlock;
  }

  /** One pass of the copy loop (zlib/infcodes.c:210-214). */
  method CopyOne(s: State, f: nat, r0: int) returns (ok: bool, f': nat, r: int)
    requires CodesValid(s) && s.cmode.COPY? && s.cmode.len > 0
    requires 1 <= s.cmode.dist <= |s.hist| && s.cmode.dist <= s.window.Length
    requires s.write <= s.window.Length && f == Source(s.write, s.window.Length, s.cmode.dist)
    modifies s`read, s`write, s`hist, s`base, s`out, s`avail_out, s`total_out, s`check, s`cmode, s.window
    ensures CodesValid(s) && Onward(s)
    ensures r == Z_OK || r == r0
    ensures !ok ==> Stalled(s) && s.cmode == old(s.cmode) && (r == Z_BUF_ERROR ==> s.out == old(s.out))
    ensures r != r0 ==> |s.hist| > |old(s.hist)| || |s.out| > |old(s.out)|
    ensures ok ==> r == Z_OK && s.cmode == COPY(old(s.cmode.len) - 1, old(s.cmode.dist))
    ensures ok ==> s.write <= s.window.Length && f' == Source(s.write, s.window.Length, s.cmode.dist)
    ensures |s.hist| >= old(|s.hist|)
  {
    hide CodesCore, WindowOK, TreesOK, CodesOK, Partial, Go, Safe, Slack, BitsOK;
    CodesIs(s);
    CodesSafe(s);
    f' := f;
    ok, r := NeedOut(s, r0);
    CodesIs(s);
    WindowBounds(s);
    if ok {
      f' := CopyMove(s, f);
      CodesIs(s);
      WindowBounds(s);
    } else {
      MoreComes(s);
    }
    CodesSafe(s);
  }

  lemma CopyOK(st: Stream, len: nat, dist: nat, mark: nat, pos: int, c: Coding, ltree: Tree, dtree: Tree)
    ensures CodesOK(st, COPY(len, dist), mark, pos, c, ltree, dtree)
  {
  }

  method CopyMove(s: State, f: nat) returns (f': nat)
    requires CodesValid(s) && s.cmode.COPY? && s.cmode.len > 0 && s.write <= s.window.Length && WAvail(s) > 0
    requires 1 <= s.cmode.dist <= |s.hist| && s.cmode.dist <= s.window.Length
    requires f == Source(s.write, s.window.Length, s.cmode.dist)
    modifies s`write, s`hist, s`cmode, s.window
    ensures CodesValid(s) && old(s.hist) < s.hist
    ensures s.cmode == COPY(old(s.cmode.len) - 1, old(s.cmode.dist))
    ensures s.write <= s.window.Length && f' == Source(s.write, s.window.Length, s.cmode.dist)
  {
    hide CodesCore, WindowOK, TreesOK, CodesOK, Partial, Go, OneSymbol, Codes;
    CodesIs(s);
    Defined(s);
    CopyMeans(Str(s), s.cmode.len, s.cmode.dist, s.mark, Pos(s), s.hist, s.coding);
    GoWent(Str(s), s.symbol, s.hist, s.hist + [s.hist[|s.hist| - s.cmode.dist]], s.coding);
    CopyByte(s, f, s.cmode.dist);
    f' := f + 1;
    if f' == s.window.Length {
      f' := 0;
    }
    s.cmode := COPY(s.cmode.len - 1, s.cmode.dist);
    CopyOK(Str(s), s.cmode.len, s.cmode.dist, s.mark, Pos(s), s.coding, s.ltree, s.dtree);
    CodesIs(s);
  }

  /** COPY: copying bytes in the window, waiting for space (zlib/infcodes.c:198-217). */
  method StepCopy(s: State, r0: int) returns (leave: bool, r: int)
    requires CodesValid(s) && s.cmode.COPY? && (r0 == Z_OK || r0 == Z_BUF_ERROR)
    modifies s`read, s`write, s`hist, s`base, s`out, s`avail_out, s`total_out, s`check, s`cmode, s`symbol, s.window
    ensures CodesValid(s) && Onward(s) && Reported(s, leave, r0, r)
    ensures r == Z_OK || r == Z_BUF_ERROR
    ensures if leave then s.symbol == old(s.symbol) else s.cmode == START && old(s.symbol) == Went(Pos(s), s.hist)
    ensures Pos(s) == old(Pos(s)) && s.cmode != END && s.cmode != WASH
  {
    hide CodesCore, WindowOK, TreesOK, CodesOK, Partial, Go, Safe, Slack, Spoilt, Misses, BitsOK;
    CodesIs(s);
    CodesSafe(s);
    r := r0;
    Defined(s);
    CopyMeans(Str(s), s.cmode.len, s.cmode.dist, s.mark, Pos(s), s.hist, s.coding);
    WindowBounds(s);
    var f := Source(s.write, s.window.Length, s.cmode.dist);
    while s.cmode.len > 0
      invariant CodesValid(s) && s.cmode.COPY? && 1 <= s.cmode.dist <= |s.hist| && s.cmode.dist <= s.window.Length
      invariant s.write <= s.window.Length && f == Source(s.write, s.window.Length, s.cmode.dist)
      invariant Onward(s) && (r == Z_OK || r == Z_BUF_ERROR) && s.symbol == old(s.symbol)
      invariant r == Z_BUF_ERROR ==> r0 == Z_BUF_ERROR && s.out == old(s.out)
      invariant r != r0 ==> |s.hist| > |old(s.hist)| || |s.out| > |old(s.out)|
      decreases s.cmode.len
    {
      var ok;
      ok, f, r := CopyOne(s, f, r);
      if !ok {
        return true, r;
      }
    }
    CopyDone(s);
    leave := false;
    CodesSafe(s);
  }

  method CopyDone(s: State)
    requires CodesValid(s) && s.cmode.COPY? && s.cmode.len == 0
    modifies s`cmode, s`symbol
    ensures CodesValid(s) && s.cmode == START && old(s.symbol) == Went(Pos(s), s.hist)
  {
    hide CodesCore, WindowOK, TreesOK, CodesOK, Partial, Go;
    CodesIs(s);
    Defined(s);
    CopyMeans(Str(s), s.cmode.len, s.cmode.dist, s.mark, Pos(s), s.hist, s.coding);
    NextSymbol(s);
  }

  /** c->mode = START: the literal or match is done, and the next one begins. */
  method NextSymbol(s: State)
    requires Sound(s) && s.bitk < 16 && s.mode == CODES && TreesOK(s.coding, s.last, s.ltree, s.dtree)
    requires s.symbol == Went(Pos(s), s.hist) && Go(Str(s), s.symbol, s.hist, s.coding) == s.rest
    modifies s`cmode, s`symbol
    ensures CodesValid(s) && s.cmode == START
  {
    hide Sound, TreesOK, OneSymbol, Codes, CodesCore;
    GoWent(Str(s), s.symbol, s.hist, s.hist, s.coding);
    SoundPos(s);
    s.cmode := START;
    s.symbol := OneSymbol(Str(s), Pos(s), s.hist, s.coding);
    StartIs(s);
  }

  lemma SoundPos(s: State)
    requires Sound(s)
    ensures Pos(s) >= 0
  {
    hide WindowOK;
  }

  lemma WindowBounds(s: State)
    requires WindowOK(s)
    ensures s.read < s.window.Length && s.write <= s.window.Length && s.out <= s.hist
  {
  }

  /** OUTBYTE(*f) */
  method CopyByte(s: State, f: nat, ghost dist: nat)
    requires WindowOK(s) && s.write <= s.window.Length && WAvail(s) > 0
    requires 1 <= dist <= |s.hist| && dist <= s.window.Length && f == Source(s.write, s.window.Length, dist)
    modifies s`write, s`hist, s.window
    ensures WindowOK(s) && s.hist == old(s.hist) + [old(s.hist[|s.hist| - dist])]
    ensures s.write == old(s.write) + 1 && s.write <= s.window.Length
    ensures Source(s.write, s.window.Length, dist) == if f + 1 == s.window.Length then 0 else f + 1
    ensures f < s.window.Length
  {
    hide Adler32.Adler;
    SourceHolds(s, dist);
    OutByte(s, s.window[f]);
  }

  /** OUTBYTE(c->sub.lit) */
  method PutLit(s: State)
    requires CodesValid(s) && s.cmode.LIT? && s.write <= s.window.Length && WAvail(s) > 0
    modifies s`write, s`hist, s`cmode, s`symbol, s.window
    ensures CodesValid(s) && s.cmode == START && s.out <= s.hist && old(s.hist) < s.hist
    ensures old(s.symbol) == Went(Pos(s), s.hist)
  {
    hide CodesCore, WindowOK, TreesOK, CodesOK, Go;
    CodesIs(s);
    GoWent(Str(s), s.symbol, s.hist, s.hist + [s.cmode.lit], s.coding);
    OutByte(s, s.cmode.lit);
    WindowBounds(s);
    NextSymbol(s);
  }

  /** LIT: got literal, waiting for output space (zlib/infcodes.c:218-222). */
  method StepLit(s: State, r0: int) returns (leave: bool, r: int)
    requires CodesValid(s) && s.cmode.LIT? && (r0 == Z_OK || r0 == Z_BUF_ERROR)
    modifies s`read, s`write, s`hist, s`base, s`out, s`avail_out, s`total_out, s`check, s`cmode, s`symbol, s.window
    ensures CodesValid(s) && Onward(s) && Reported(s, leave, r0, r)
    ensures r == Z_OK || r == Z_BUF_ERROR
    ensures if leave then s.symbol == old(s.symbol) else s.cmode == START && old(s.symbol) == Went(Pos(s), s.hist)
    ensures Pos(s) == old(Pos(s)) && s.cmode != END && s.cmode != WASH
  {
    hide CodesCore, WindowOK, TreesOK, CodesOK, Partial, Go, Safe, Slack, Spoilt, Misses, BitsOK;
    CodesIs(s);
    CodesSafe(s);
    var ok;
    WindowBounds(s);
    ok, r := NeedOut(s, r0);
    WindowBounds(s);
    CodesIs(s);
    leave := !ok;
    if ok {
      PutLit(s);
    } else {
      MoreComes(s);
    }
    CodesSafe(s);
  }

  /** Deliver what can be delivered. */
  method Deliver(s: State, r0: int) returns (r: int)
    requires CodesValid(s)
    modifies s`read, s`write, s`base, s`out, s`avail_out, s`total_out, s`check
    ensures CodesValid(s) && old(s.out) <= s.out && |s.out| + s.avail_out == |old(s.out)| + old(s.avail_out)
    ensures (s.out == s.hist || s.avail_out == 0) && s.out <= s.hist && (s.read == s.write <==> s.out == s.hist)
    ensures old(Waits(s)) ==> Waits(s)
    ensures r == if |s.out| > |old(s.out)| && r0 == Z_BUF_ERROR then Z_OK else r0
  {
    hide CodesCore, WindowOK, TreesOK, CodesOK, Partial, Go, Waits, Capacity;
    CodesIs(s);
    r := Flush(s, r0);
    WindowBounds(s);
    CodesIs(s);
    StillWaits(s);
  }

  /** WASH: got eob, possibly more output (zlib/infcodes.c:223-227).  After a fast run r0 is
      Z_STREAM_END already, and stays so even if output is left. */
  method StepWash(s: State, r0: int) returns (leave: bool, r: int)
    requires CodesValid(s) && s.cmode == WASH && r0 in {Z_OK, Z_BUF_ERROR, Z_STREAM_END}
    modifies s`read, s`write, s`base, s`out, s`avail_out, s`total_out, s`check, s`cmode
    ensures CodesValid(s) && Onward(s) && Reported(s, leave, r0, r)
    ensures r == r0 || (r0 == Z_BUF_ERROR && r == Z_OK)
    ensures if leave then s.cmode == WASH && s.out != s.hist && s.avail_out == 0 else s.cmode == END && s.out == s.hist
    ensures Pos(s) == old(Pos(s))
  {
    hide CodesCore, WindowOK, TreesOK, Go, Safe, Slack, Spoilt, Misses, BitsOK, Starved;
    CodesIs(s);
    CodesSafe(s);
    r := Deliver(s, r0);
    leave := s.read != s.write;
    if leave {
      EndHolds(s);
    } else {
      Washed(s);
    }
    CodesSafe(s);
  }

  /** c->mode = END */
  method Washed(s: State)
    requires CodesValid(s) && s.cmode == WASH
    modifies s`cmode
    ensures CodesValid(s) && s.cmode == END
  {
    hide CodesCore, WindowOK, TreesOK, Go, BitsOK;
    CodesIs(s);
    s.cmode := END;
    CodesIs(s);
  }

  lemma TreeBits(c: Coding, last: bool, ltree: Tree, dtree: Tree)
    requires TreesOK(c, last, ltree, dtree)
    ensures 1 <= ltree.bits <= 9
  {
    hide Decodes;
  }

  /** Set up for LEN (zlib/infcodes.c:118-120). */
  method StepStart(s: State)
    requires CodesValid(s) && s.cmode == START
    modifies s`cmode, s`mark
    ensures CodesValid(s) && s.cmode.LEN? && Pos(s) >= 0
    ensures s.symbol == OneSymbol(Str(s), Pos(s), s.hist, s.coding)
  {
    hide CodesCore, WindowOK, TreesOK, Go, OneSymbol;
    CodesIs(s);
    TreeBits(s.coding, s.last, s.ltree, s.dtree);
    BeginWalk(s, LEN(s.ltree.root, s.ltree.bits));
    CodesIs(s);
  }
}
