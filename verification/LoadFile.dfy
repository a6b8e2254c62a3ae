/** loadfile.c: elf_exec, which loads an ELF program and, behind it, a copy of its headers and symbol
    sections. */
module LoadFile {
  import opened Words
  import opened ZLib
  import opened ElfFormat

  /** The two passes: one loads, the other only finds out how much room that takes. */
  datatype Pass = LOAD_ALL | COUNT_ALL

  datatype Marks = Marks(start: nat, entry: nat, nsym: nat, sym: nat, end: nat)

  // ---- Target memory ----

  /** data stands at address a. */
  ghost predicate Holds(mem: map<nat, byte>, a: nat, data: seq<byte>) {
    forall k :: a <= k < a + |data| ==> k in mem && mem[k] == data[k - a]
  }

  /** The two memories differ at most in the n bytes at a. */
  ghost predicate Elsewhere(before: map<nat, byte>, after: map<nat, byte>, a: nat, n: nat) {
    forall k :: k in before && !(a <= k < a + n) ==> k in after && after[k] == before[k]
  }

  /** The two memories agree below a. */
  ghost predicate SameBelow(before: map<nat, byte>, after: map<nat, byte>, a: nat) {
    forall k :: k in before && k < a ==> k in after && after[k] == before[k]
  }

  function Cell(data: seq<byte>, a: nat, k: nat): byte
    requires a <= k < a + |data|
  {
    data[k - a]
  }

  class Memory {
    var cells: map<nat, byte>

    constructor ()
      ensures cells == map[]
    {
      cells := map[];
    }

    /** READ, BCOPY and BZERO. */
    method Write(a: nat, data: seq<byte>)
      modifies this
      ensures Holds(cells, a, data) && Elsewhere(old(cells), cells, a, |data|)
    {
      cells := cells + map k: nat | a <= k < a + |data| :: Cell(data, a, k);
    }
  }

  /** What stands clear of a write stays. */
  lemma HoldsKept(before: map<nat, byte>, after: map<nat, byte>, a: nat, n: nat, b: nat, data: seq<byte>)
    requires Elsewhere(before, after, a, n) && Holds(before, b, data)
    requires b + |data| <= a || a + n <= b || data == []
    ensures Holds(after, b, data)
  {
  }

  lemma HoldsBelow(before: map<nat, byte>, after: map<nat, byte>, a: nat, b: nat, data: seq<byte>)
    requires SameBelow(before, after, a) && Holds(before, b, data) && b + |data| <= a
    ensures Holds(after, b, data)
  {
  }

  // ---- What a load does ----

  predicate HeadersPresent(f: seq<byte>)
    requires |f| >= EHDR
  {
    PhdrsPresent(f, Phnum(f)) && Present(f, Word(f, 32), TableSize(f))
  }

  predicate SegmentsPresent(f: seq<byte>, n: nat)
    requires |f| >= EHDR && PhdrsPresent(f, n)
  {
    forall i :: 0 <= i < n && Segment(f, i).Loads() ==> Present(f, Segment(f, i).offset, Segment(f, i).filesz)
  }

  predicate SectionsPresent(f: seq<byte>, shp: seq<byte>, n: nat)
    requires SHDR * n <= |shp|
  {
    forall i :: 0 <= i < n && Kept(shp, i) ==> Present(f, ShOffset(shp, i), ShSize(shp, i))
  }

  /** Where the copy of the ELF header goes: above all segments. */
  function HeaderPlace(f: seq<byte>): nat
    requires |f| >= EHDR && HeadersPresent(f)
  {
    RoundUp(Highest(f, Phnum(f)))
  }

  /** The marks that both passes hand out. */
  function MarksOf(f: seq<byte>, offset: nat): Marks
    requires |f| >= EHDR && HeadersPresent(f)
  {
    Marks(Lowest(f, Phnum(f)) + offset, Word(f, 24) + offset, 1, HeaderPlace(f) + offset,
          HeaderPlace(f) + Place(ShTable(f), Shnum(f)) + offset)
  }

  /** The segments that are loaded do not overlap in memory. */
  ghost predicate SegmentsApart(f: seq<byte>, n: nat)
    requires |f| >= EHDR && PhdrsPresent(f, n)
  {
    forall i, j :: 0 <= i < j < n && Segment(f, i).Loads() && Segment(f, j).Loads() ==>
      Segment(f, i).End() <= Segment(f, j).vaddr || Segment(f, j).End() <= Segment(f, i).vaddr
  }

  function Zeros(n: nat): (z: seq<byte>)
    ensures |z| == n
  {
    seq(n, _ => 0)
  }

  /** What segment s should look like in memory: its bytes in the file, then zeros. */
  function SegmentImage(f: seq<byte>, s: Phdr): (d: seq<byte>)
    requires Present(f, s.offset, s.filesz)
    ensures s.vaddr + |d| == s.End()
  {
    Part(f, s.offset, s.filesz) + Zeros(if s.IsBss() then s.memsz - s.filesz else 0)
  }

  ghost predicate SegmentsLoaded(mem: map<nat, byte>, f: seq<byte>, n: nat, offset: nat)
    requires |f| >= EHDR && PhdrsPresent(f, n) && SegmentsPresent(f, n)
  {
    forall i :: 0 <= i < n && Segment(f, i).Loads() ==>
      Holds(mem, Segment(f, i).vaddr + offset, SegmentImage(f, Segment(f, i)))
  }

  /** The kept sections up to n stand behind the headers at h. */
  ghost predicate SectionsLoaded(mem: map<nat, byte>, f: seq<byte>, shp: seq<byte>, n: nat, h: nat)
    requires SHDR * n <= |shp| && SectionsPresent(f, shp, n)
  {
    forall i :: 0 <= i < n && Kept(shp, i) ==>
      Holds(mem, h + Place(shp, i), Part(f, ShOffset(shp, i), ShSize(shp, i)))
  }

  // ---- Segments ----

  lemma {:induction false} SegmentsBelow(f: seq<byte>, i: nat, n: nat)
    requires |f| >= EHDR && PhdrsPresent(f, n) && i < n && Segment(f, i).Loads()
    ensures Segment(f, i).End() <= Highest(f, n)
  {
    hide Segment;
    if i < n - 1 {
      SegmentsBelow(f, i, n - 1);
    }
  }

  /** Load one segment and clear what it has beyond its bytes in the file. */
  method LoadSegment(m: Memory, f: seq<byte>, s: Phdr, offset: nat)
    requires Present(f, s.offset, s.filesz)
    modifies m
    ensures Holds(m.cells, s.vaddr + offset, SegmentImage(f, s))
    ensures Elsewhere(old(m.cells), m.cells, s.vaddr + offset, s.End() - s.vaddr)
  {
    m.Write(s.vaddr + offset, Part(f, s.offset, s.filesz));
    if s.IsBss() {
      m.Write(s.vaddr + s.filesz + offset, Zeros(s.memsz - s.filesz));
    }
  }

  /** A further segment leaves those before it alone. */
  lemma SegmentsKept(before: map<nat, byte>, after: map<nat, byte>, f: seq<byte>, n: nat, offset: nat)
    requires |f| >= EHDR && PhdrsPresent(f, n + 1) && SegmentsPresent(f, n + 1) && SegmentsApart(f, n + 1)
    requires SegmentsLoaded(before, f, n, offset) && Segment(f, n).Loads()
    requires Holds(after, Segment(f, n).vaddr + offset, SegmentImage(f, Segment(f, n)))
    requires Elsewhere(before, after, Segment(f, n).vaddr + offset, Segment(f, n).End() - Segment(f, n).vaddr)
    ensures SegmentsLoaded(after, f, n + 1, offset)
  {
    hide SegmentImage, Segment, Holds, Elsewhere;
    var s := Segment(f, n);
    forall i | 0 <= i < n && Segment(f, i).Loads()
      ensures Holds(after, Segment(f, i).vaddr + offset, SegmentImage(f, Segment(f, i)))
    {
      HoldsKept(before, after, s.vaddr + offset, s.End() - s.vaddr,
                Segment(f, i).vaddr + offset, SegmentImage(f, Segment(f, i)));
    }
  }

  /** Take account of a segment in the extent of the program (loadfile.c:324-345). */
  method Extend(phdr: Phdr, min0: nat, max0: nat) returns (minp: nat, maxp: nat)
    ensures minp == if phdr.vaddr < min0 then phdr.vaddr else min0
    ensures maxp == if phdr.End() > max0 then phdr.End() else max0
  {
    minp, maxp := min0, max0;
    var pos := phdr.vaddr;
    if minp > pos {
      minp := pos;
    }
    pos := pos + phdr.filesz;
    if maxp < pos {
      maxp := pos;
    }
    if phdr.IsBss() {
      pos := pos + (phdr.memsz - phdr.filesz);
      if maxp < pos {
        maxp := pos;
      }
    }
  }

  /** What a segment does to the extent, and that one which is not loaded changes nothing. */
  lemma OneMore(f: seq<byte>, n: nat, mem: map<nat, byte>, offset: nat)
    requires |f| >= EHDR && PhdrsPresent(f, n) && Present(f, PhdrAt(f, n), PHDR)
    ensures PhdrsPresent(f, n + 1)
    ensures Lowest(f, n + 1)
         == (var s := Segment(f, n); if s.Loads() && s.vaddr < Lowest(f, n) then s.vaddr else Lowest(f, n))
    ensures Highest(f, n + 1)
         == (var s := Segment(f, n); if s.Loads() && s.End() > Highest(f, n) then s.End() else Highest(f, n))
    ensures SegmentsPresent(f, n + 1) <==>
              && SegmentsPresent(f, n)
              && (Segment(f, n).Loads() ==> Present(f, Segment(f, n).offset, Segment(f, n).filesz))
    ensures SegmentsApart(f, n + 1) ==> SegmentsApart(f, n)
    ensures !Segment(f, n).Loads() && SegmentsPresent(f, n) && SegmentsLoaded(mem, f, n, offset) ==>
              SegmentsLoaded(mem, f, n + 1, offset)
  {
    hide SegmentImage, Holds, Half, Word, Segment;
  }

  lemma NoSegments(f: seq<byte>, mem: map<nat, byte>, offset: nat)
    requires |f| >= EHDR
    ensures PhdrsPresent(f, 0) && SegmentsPresent(f, 0) && SegmentsLoaded(mem, f, 0, offset)
    ensures Lowest(f, 0) == 0xffff_ffff && Highest(f, 0) == 0
  {
  }

  lemma Absent(f: seq<byte>, i: nat, n: nat)
    requires |f| >= EHDR && i < n
    ensures !Present(f, PhdrAt(f, i), PHDR) ==> !PhdrsPresent(f, n)
    ensures PhdrsPresent(f, n) && Segment(f, i).Loads() && !Present(f, Segment(f, i).offset, Segment(f, i).filesz) ==>
              !SegmentsPresent(f, n)
  {
    hide Half, Word, Segment;
  }

  /** The first loop of elf_exec (loadfile.c:284-346). */
  method LoadSegments(m: Memory, f: seq<byte>, offset: nat, pass: Pass) returns (rc: int, minp: nat, maxp: nat)
    requires |f| >= EHDR
    modifies m
    ensures rc == 0 || rc == 1
    ensures rc == 0 <==> PhdrsPresent(f, Phnum(f)) && (pass == LOAD_ALL ==> SegmentsPresent(f, Phnum(f)))
    ensures rc == 0 ==> minp == Lowest(f, Phnum(f)) && maxp == Highest(f, Phnum(f))
    ensures pass == COUNT_ALL ==> m.cells == old(m.cells)
    ensures rc == 0 && pass == LOAD_ALL && SegmentsApart(f, Phnum(f)) ==> SegmentsLoaded(m.cells, f, Phnum(f), offset)
  {
    hide SegmentImage, Holds, Elsewhere, Half, Word, Segment, Lowest, Highest, PhdrsPresent, SegmentsPresent,
      SegmentsApart, SegmentsLoaded;
    NoSegments(f, m.cells, offset);
    minp, maxp := 0xffff_ffff, 0;
    var i := 0;
    while i < Phnum(f)
      invariant 0 <= i <= Phnum(f) && PhdrsPresent(f, i) && (pass == LOAD_ALL ==> SegmentsPresent(f, i))
      invariant minp == Lowest(f, i) && maxp == Highest(f, i)
      invariant pass == COUNT_ALL ==> m.cells == old(m.cells)
      invariant pass == LOAD_ALL && SegmentsApart(f, i) ==> SegmentsLoaded(m.cells, f, i, offset)
    {
      Absent(f, i, Phnum(f));
      if !Present(f, PhdrAt(f, i), PHDR) {
        return 1, minp, maxp;
      }
      OneMore(f, i, m.cells, offset);
      var phdr := Segment(f, i);
      if phdr.Loads() {
        minp, maxp := Extend(phdr, minp, maxp);
        if pass == LOAD_ALL {
          if !Present(f, phdr.offset, phdr.filesz) {
            return 1, minp, maxp;
          }
          ghost var before := m.cells;
          LoadSegment(m, f, phdr, offset);
          if SegmentsApart(f, i + 1) {
            SegmentsKept(before, m.cells, f, i, offset);
          }
        }
      }
      i := i + 1;
    }
    rc := 0;
  }

  // ---- Sections ----

  /** The first loop over the section headers (loadfile.c:381-383). */
  method FindSymbols(shp: seq<byte>, n: nat) returns (havesyms: bool)
    requires SHDR * n <= |shp|
    ensures havesyms == HasSymbols(shp, n)
  {
    havesyms := false;
    for i := 0 to n
      invariant havesyms == HasSymbols(shp, i)
    {
      if ShType(shp, i) == SHT_SYMTAB {
        havesyms := true;
      }
    }
  }

  /** Section n is written behind those before it. */
  lemma SectionsKept(before: map<nat, byte>, after: map<nat, byte>, f: seq<byte>, shp: seq<byte>, n: nat, h: nat)
    requires SHDR * (n + 1) <= |shp| && SectionsPresent(f, shp, n + 1) && Kept(shp, n)
    requires SectionsLoaded(before, f, shp, n, h)
    requires Elsewhere(before, after, h + Place(shp, n), ShSize(shp, n))
    requires Holds(after, h + Place(shp, n), Part(f, ShOffset(shp, n), ShSize(shp, n)))
    ensures SectionsLoaded(after, f, shp, n + 1, h)
  {
    hide Holds, Elsewhere, Place, ShOffset, ShSize, ShType;
    forall i | 0 <= i < n && Kept(shp, i)
      ensures Holds(after, h + Place(shp, i), Part(f, ShOffset(shp, i), ShSize(shp, i)))
    {
      PlaceMono(shp, i, n);
      HoldsKept(before, after, h + Place(shp, n), ShSize(shp, n),
                h + Place(shp, i), Part(f, ShOffset(shp, i), ShSize(shp, i)));
    }
  }

  /** The segments lie below everything that is appended. */
  lemma SegmentsStay(before: map<nat, byte>, after: map<nat, byte>, f: seq<byte>, offset: nat)
    requires |f| >= EHDR && HeadersPresent(f) && SegmentsPresent(f, Phnum(f))
    requires SegmentsLoaded(before, f, Phnum(f), offset)
    requires SameBelow(before, after, HeaderPlace(f) + offset)
    ensures SegmentsLoaded(after, f, Phnum(f), offset)
  {
    hide Holds, SameBelow, Segment, SegmentImage, Highest;
    forall i | 0 <= i < Phnum(f) && Segment(f, i).Loads()
      ensures Holds(after, Segment(f, i).vaddr + offset, SegmentImage(f, Segment(f, i)))
    {
      SegmentsBelow(f, i, Phnum(f));
      HoldsBelow(before, after, HeaderPlace(f) + offset, Segment(f, i).vaddr + offset, SegmentImage(f, Segment(f, i)));
    }
  }

  /** The second loop over the section headers (loadfile.c:385-410): load the symbol sections and
      rewrite their offsets. */
  method LoadSections(m: Memory, f: seq<byte>, shp0: seq<byte>, n: nat, elfp: nat, offset: nat, pass: Pass)
      returns (rc: int, shp: seq<byte>, maxp: nat)
    requires |shp0| == SHDR * n
    modifies m
    ensures rc == 0 || rc == 1
    ensures rc == 0 <==> (pass == LOAD_ALL && HasSymbols(shp0, n) ==> SectionsPresent(f, shp0, n))
    ensures rc == 0 ==> shp == Rewritten(shp0, n) && maxp == elfp + Place(shp0, n)
    ensures pass == COUNT_ALL ==> m.cells == old(m.cells)
    ensures rc == 0 && pass == LOAD_ALL && HasSymbols(shp0, n) ==> SectionsLoaded(m.cells, f, shp0, n, elfp + offset)
    ensures SameBelow(old(m.cells), m.cells, elfp + offset + EHDR + |shp0|)
  {
    hide Holds, Elsewhere, SameBelow, Place, Rewritten, ShType, ShOffset, ShSize, Part, Short, RoundUp;
    shp := shp0;
    maxp := elfp + EHDR + |shp0|;
    var off := Short(EHDR + |shp0|);
    var havesyms := FindSymbols(shp0, n);
    SameAtFirst(m.cells, elfp + offset + EHDR + |shp0|);
    FirstPlace(shp0);
    var i := 0;
    while i < n
      invariant 0 <= i <= n && |shp| == |shp0|
      invariant shp == Rewritten(shp0, i) && off == Short(Place(shp0, i)) && maxp == elfp + Place(shp0, i)
      invariant pass == COUNT_ALL ==> m.cells == old(m.cells)
      invariant havesyms && pass == LOAD_ALL ==>
                SectionsPresent(f, shp0, i) && SectionsLoaded(m.cells, f, shp0, i, elfp + offset)
      invariant SameBelow(old(m.cells), m.cells, elfp + offset + EHDR + |shp0|)
    {
      RewrittenFields(shp0, i, i);
      NextPlace(shp0, i);
      if ShType(shp, i) == SHT_SYMTAB || ShType(shp, i) == SHT_STRTAB {
        if havesyms && pass == LOAD_ALL {
          if !Present(f, ShOffset(shp, i), ShSize(shp, i)) {
            assert Kept(shp0, i);
            return 1, shp, maxp;
          }
          ghost var before := m.cells;
          m.Write(maxp + offset, Part(f, ShOffset(shp, i), ShSize(shp, i)));
          SectionsKept(before, m.cells, f, shp0, i, elfp + offset);
          StillSame(old(m.cells), before, m.cells, elfp + offset + EHDR + |shp0|, maxp + offset, ShSize(shp, i));
        }
        var size := ShSize(shp, i);
        maxp := maxp + RoundUp(size);
        shp := Put(shp, SHDR * i + 16, Bytes(off));
        ShortSum(Place(shp0, i), RoundUp(size));
        off := Short(off + RoundUp(size));
      }
      i := i + 1;
    }
    rc := 0;
  }

  lemma FirstPlace(shp: seq<byte>)
    ensures Place(shp, 0) == EHDR + |shp| && Rewritten(shp, 0) == shp
  {
  }

  lemma NextPlace(shp: seq<byte>, i: nat)
    requires SHDR * (i + 1) <= |shp|
    ensures Place(shp, i + 1) == Place(shp, i) + if Kept(shp, i) then RoundUp(ShSize(shp, i)) else 0
    ensures Rewritten(shp, i + 1) ==
            if Kept(shp, i) then Put(Rewritten(shp, i), SHDR * i + 16, Bytes(Short(Place(shp, i))))
            else Rewritten(shp, i)
  {
  }

  lemma ShortSum(a: nat, b: nat)
    ensures Short(Short(a) + b) == Short(a + b)
  {
  }

  lemma SameAtFirst(mem: map<nat, byte>, a: nat)
    ensures SameBelow(mem, mem, a)
  {
  }

  lemma StillSame(m0: map<nat, byte>, m1: map<nat, byte>, m2: map<nat, byte>, a: nat, b: nat, n: nat)
    requires SameBelow(m0, m1, a) && Elsewhere(m1, m2, b, n) && a <= b
    ensures SameBelow(m0, m2, a)
  {
  }

  // ---- elf_exec ----

  /** The headers and symbol sections stand at h as elf_exec leaves them. */
  ghost predicate Image(mem: map<nat, byte>, f: seq<byte>, h: nat)
    requires |f| >= EHDR && HeadersPresent(f)
  {
    var shp, n := ShTable(f), Shnum(f);
    && Holds(mem, h, Frobbed(f[..EHDR])) && Holds(mem, h + EHDR, Rewritten(shp, n))
    && (HasSymbols(shp, n) ==> SectionsPresent(f, shp, n) && SectionsLoaded(mem, f, shp, n, h))
  }

  /** The copied headers are written below the sections that are already there. */
  method CopyHeaders(m: Memory, f: seq<byte>, shp: seq<byte>, offset: nat)
    requires |f| >= EHDR && HeadersPresent(f)
    requires shp == Rewritten(ShTable(f), Shnum(f))
    requires HasSymbols(ShTable(f), Shnum(f)) ==>
               && SectionsPresent(f, ShTable(f), Shnum(f))
               && SectionsLoaded(m.cells, f, ShTable(f), Shnum(f), HeaderPlace(f) + offset)
    modifies m
    ensures Image(m.cells, f, HeaderPlace(f) + offset) && SameBelow(old(m.cells), m.cells, HeaderPlace(f) + offset)
  {
    hide Holds, Elsewhere, SameBelow, Highest, Half, Word, HasSymbols, Rewritten, SectionsLoaded, Frobbed,
      SectionsPresent;
    var h := HeaderPlace(f) + offset;
    ghost var m0 := m.cells;
    m.Write(h + EHDR, shp);
    ghost var m1 := m.cells;
    m.Write(h, Frobbed(f[..EHDR]));
    HoldsKept(m1, m.cells, h, EHDR, h + EHDR, shp);
    SameAtFirst(m0, h);
    StillSame(m0, m0, m1, h, h + EHDR, |shp|);
    StillSame(m0, m1, m.cells, h, h, EHDR);
    if HasSymbols(ShTable(f), Shnum(f)) {
      SectionsStay(m0, m1, f, ShTable(f), Shnum(f), h, h + EHDR, |shp|);
      SectionsStay(m1, m.cells, f, ShTable(f), Shnum(f), h, h, EHDR);
    }
  }

  lemma SectionsStay(before: map<nat, byte>, after: map<nat, byte>, f: seq<byte>, shp: seq<byte>, n: nat, h: nat,
                     a: nat, k: nat)
    requires SHDR * n <= |shp| && SectionsPresent(f, shp, n) && SectionsLoaded(before, f, shp, n, h)
    requires Elsewhere(before, after, a, k) && a + k <= h + EHDR + |shp|
    ensures SectionsLoaded(after, f, shp, n, h)
  {
    hide Holds, Elsewhere, Place, ShOffset, ShSize, ShType;
    forall i | 0 <= i < n && Kept(shp, i)
      ensures Holds(after, h + Place(shp, i), Part(f, ShOffset(shp, i), ShSize(shp, i)))
    {
      HoldsKept(before, after, a, k, h + Place(shp, i), Part(f, ShOffset(shp, i), ShSize(shp, i)));
    }
  }

  /** Loading succeeds just when everything it reads is in the file. */
  predicate Loadable(f: seq<byte>)
    requires |f| >= EHDR
  {
    && HeadersPresent(f) && SegmentsPresent(f, Phnum(f))
    && (HasSymbols(ShTable(f), Shnum(f)) ==> SectionsPresent(f, ShTable(f), Shnum(f)))
  }

  /** No address, and no offset into the file, reaches 2^32. */
  ghost predicate NoWrap(f: seq<byte>, offset: nat)
    requires |f| >= EHDR
  {
    && PhdrAt(f, Phnum(f)) < 0x1_0000_0000
    && (HeadersPresent(f) ==> MarksOf(f, offset).end < 0x1_0000_0000)
  }

  /** elf_exec (loadfile.c:269-438).  What it does when addresses wrap around is not claimed. */
  method ElfExec(m: Memory, f: seq<byte>, offset: nat, pass: Pass) returns (rc: int, marks: Marks)
    requires |f| >= EHDR
    modifies m
    ensures rc == 0 || rc == 1
    ensures pass == COUNT_ALL ==> m.cells == old(m.cells)
    ensures NoWrap(f, offset) ==>
              && (rc == 0 <==> if pass == LOAD_ALL then Loadable(f) else HeadersPresent(f))
              && (rc == 0 ==> marks == MarksOf(f, offset))
              && (rc == 0 && pass == LOAD_ALL ==> Image(m.cells, f, marks.sym))
              && (rc == 0 && pass == LOAD_ALL && SegmentsApart(f, Phnum(f)) ==>
                    SegmentsLoaded(m.cells, f, Phnum(f), offset))
  {
    hide Holds, Elsewhere, SameBelow, Half, Word, Highest, Lowest, HasSymbols, Rewritten, SectionsLoaded,
      SegmentsLoaded, Image, Frobbed, SectionsPresent, SegmentsPresent, PhdrsPresent, SegmentsApart, Place, NoWrap;
    marks := Marks(0, 0, 0, 0, 0);
    var minp, maxp;
    rc, minp, maxp := LoadSegments(m, f, offset, pass);
    if rc != 0 {
      return;
    }
    maxp := RoundUp(maxp);
    var elfp := maxp;
    var sz := TableSize(f);
    if !Present(f, Word(f, 32), sz) {
      rc := 1;
      return;
    }
    var shp := Part(f, Word(f, 32), sz);
    ghost var m1 := m.cells;
    rc, shp, maxp := LoadSections(m, f, shp, Shnum(f), elfp, offset, pass);
    if rc != 0 {
      return;
    }
    marks := Marks(minp + offset, Word(f, 24) + offset, 1, elfp + offset, maxp + offset);
    if pass == LOAD_ALL {
      ghost var m2 := m.cells;
      CopyHeaders(m, f, shp, offset);
      if SegmentsApart(f, Phnum(f)) {
        BelowLower(m1, m2, elfp + offset + EHDR + sz, elfp + offset);
        SegmentsStay(m1, m2, f, offset);
        SegmentsStay(m2, m.cells, f, offset);
      }
    }
  }

  lemma BelowLower(before: map<nat, byte>, after: map<nat, byte>, a: nat, b: nat)
    requires SameBelow(before, after, a) && b <= a
    ensures SameBelow(before, after, b)
  {
  }

  /** The image describes itself: read as an ELF file at h, its section headers lead to the bytes of the
      symbol and string tables; these do not overlap each other or the headers, and end within the
      space that the end mark allows. */
  lemma SelfConsistent(mem: map<nat, byte>, f: seq<byte>, h: nat, i: nat)
    requires |f| >= EHDR && HeadersPresent(f) && Place(ShTable(f), Shnum(f)) < 0x1_0000_0000
    requires Image(mem, f, h) && i < Shnum(f) && HasSymbols(ShTable(f), Shnum(f)) && Kept(ShTable(f), i)
    ensures var elf, t, shp := Frobbed(f[..EHDR]), Rewritten(ShTable(f), Shnum(f)), ShTable(f);
            && Holds(mem, h, elf) && Word(elf, 32) == EHDR && Half(elf, 48) == Shnum(f)
            && Holds(mem, h + Word(elf, 32), t)
            && ShType(t, i) == ShType(shp, i) && ShSize(t, i) == ShSize(shp, i)
            && Present(f, ShOffset(shp, i), ShSize(t, i))
            && Holds(mem, h + ShOffset(t, i), Part(f, ShOffset(shp, i), ShSize(t, i)))
            && EHDR + |t| <= ShOffset(t, i) && ShOffset(t, i) + ShSize(t, i) <= Place(shp, Shnum(f))
            && forall j :: i < j < Shnum(f) && Kept(shp, j) ==> ShOffset(t, i) + ShSize(t, i) <= ShOffset(t, j)
  {
    hide Holds, Half, Word, Place, Rewritten, ShType, ShSize, ShOffset, Frobbed, HasSymbols, Highest, Short;
    var shp, n := ShTable(f), Shnum(f);
    FrobbedFields(f[..EHDR]);
    HeaderCount(f);
    RewrittenFields(shp, n, i);
    PlaceMono(shp, i, n);
    forall j | i < j < n && Kept(shp, j)
      ensures ShOffset(Rewritten(shp, n), i) + ShSize(Rewritten(shp, n), i) <= ShOffset(Rewritten(shp, n), j)
    {
      RewrittenFields(shp, n, j);
      PlaceMono(shp, i, j);
      PlaceMono(shp, j, n);
    }
  }

  lemma HeaderCount(f: seq<byte>)
    requires |f| >= EHDR
    ensures Half(f[..EHDR], 48) == Shnum(f)
  {
  }
}
