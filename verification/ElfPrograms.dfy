/** A program as a linker writes it, and what elf_exec makes of it. */
module ElfPrograms {
  import opened Words
  import opened ZLib
  import opened ElfFormat
  import opened ElfWriter
  import opened LoadFile

  // ---- Pieces one behind the other ----

  function Joined(xs: seq<seq<byte>>): seq<byte> {
    if xs == [] then [] else xs[0] + Joined(xs[1..])
  }

  /** How many bytes come before piece i. */
  function Before(xs: seq<seq<byte>>, i: nat): nat
    requires i <= |xs|
  {
    if i == 0 then 0 else |xs[0]| + Before(xs[1..], i - 1)
  }

  lemma {:induction false} PieceAt(xs: seq<seq<byte>>, i: nat)
    requires i < |xs|
    ensures Before(xs, i) + |xs[i]| <= |Joined(xs)|
    ensures Joined(xs)[Before(xs, i)..Before(xs, i) + |xs[i]|] == xs[i]
  {
    if i > 0 {
      PieceAt(xs[1..], i - 1);
      var p := Before(xs[1..], i - 1);
      assert Joined(xs)[|xs[0]| + p..|xs[0]| + p + |xs[i]|] == Joined(xs[1..])[p..p + |xs[i]|];
    }
  }

  lemma {:induction false} EqualPieces(xs: seq<seq<byte>>, k: nat, i: nat)
    requires i <= |xs| && forall j :: 0 <= j < |xs| ==> |xs[j]| == k
    ensures Before(xs, i) == k * i
    ensures |Joined(xs)| == k * |xs|
    decreases |xs|
  {
    if xs != [] {
      var ys := xs[1..];
      EqualPieces(ys, k, if i > 0 then i - 1 else 0);
      Times(k, |ys|);
      if i > 0 {
        Times(k, i - 1);
      }
    }
  }

  lemma Times(k: nat, i: nat)
    ensures k + k * i == k * (i + 1)
  {
  }

  // ---- A program ----

  /** A segment: its bytes in the file, and how many it takes in memory. */
  datatype Seg = Seg(kind: nat, vaddr: nat, paddr: nat, data: seq<byte>, room: nat, readable: bool, writable: bool,
                     executable: bool, align: nat) {
    predicate Valid() {
      IsWord(kind) && IsWord(vaddr) && IsWord(paddr) && IsWord(|data|) && IsWord(room) && IsWord(align)
    }

    function Flags(): (f: nat)
      ensures f < 8
    {
      (if executable then 1 else 0) + (if writable then 2 else 0) + if readable then 4 else 0
    }

    /** A loadable segment of code or data. */
    predicate Loaded() { kind == 1 && (writable || executable) }

    function Size(): nat { if |data| < room then room else |data| }

    function Header(offset: nat): (d: seq<byte>)
      requires Valid() && IsWord(offset)
      ensures |d| == PHDR
    {
      PhdrBytes(kind, offset, vaddr, paddr, |data|, room, Flags(), align)
    }
  }

  /** A section: its header, but for where its bytes are, and its bytes. */
  datatype Sec = Sec(head: Shdr, data: seq<byte>) {
    predicate Valid() { head.Valid() && IsWord(|data|) }

    function Header(offset: nat): (h: Shdr)
      requires Valid() && IsWord(offset)
      ensures h.Valid()
    {
      head.(offset := offset, size := |data|)
    }

    /** A symbol table, or a table of strings. */
    predicate Symbols() { head.stype == 2 }

    predicate Wanted() { head.stype == 2 || head.stype == 3 }
  }

  /** A program: its header, but for what follows from the rest, its segments and its sections. */
  datatype Program = Program(head: Ehdr, segs: seq<Seg>, secs: seq<Sec>) {
    predicate Valid() {
      && head.Valid() && IsHalf(|segs|) && IsHalf(|secs|)
      && (forall i :: 0 <= i < |segs| ==> segs[i].Valid()) && (forall i :: 0 <= i < |secs| ==> secs[i].Valid())
      && IsWord(Base() + |Joined(Data())|)
    }

    /** The size of all headers. */
    function Base(): nat { EHDR + PHDR * |segs| + SHDR * |secs| }

    function Data(): (xs: seq<seq<byte>>)
      ensures |xs| == |segs| + |secs|
    {
      seq(|segs|, i requires 0 <= i < |segs| => segs[i].data) + seq(|secs|, i requires 0 <= i < |secs| => secs[i].data)
    }

    /** Where piece i of the data goes. */
    function Offset(i: nat): (p: nat)
      requires Valid() && i < |segs| + |secs|
      ensures IsWord(p)
    {
      PieceAt(Data(), i);
      Base() + Before(Data(), i)
    }

    function Header(): (h: Ehdr)
      requires Valid()
      ensures h.Valid()
    {
      head.(phoff := EHDR, shoff := EHDR + PHDR * |segs|, phnum := |segs|, shnum := |secs|)
    }

    function Phdrs(): (xs: seq<seq<byte>>)
      requires Valid()
      ensures |xs| == |segs| && forall i :: 0 <= i < |xs| ==> |xs[i]| == PHDR
    {
      seq(|segs|, i requires 0 <= i < |segs| && Valid() => segs[i].Header(Offset(i)))
    }

    /** The header of section i. */
    function Shdr(i: nat): (h: Shdr)
      requires Valid() && i < |secs|
      ensures h.Valid()
    {
      secs[i].Header(Offset(|segs| + i))
    }

    function Shdrs(): (xs: seq<seq<byte>>)
      requires Valid()
      ensures |xs| == |secs| && forall i :: 0 <= i < |xs| ==> |xs[i]| == SHDR
    {
      seq(|secs|, i requires 0 <= i < |secs| && Valid() => this.Shdr(i).Written())
    }

    /** The file: the headers, and then the data. */
    function File(): (f: seq<byte>)
      requires Valid()
    {
      Header().Written() + Joined(Phdrs()) + Joined(Shdrs()) + Joined(Data())
    }
  }

  // ---- Reading it ----

  lemma TableSizes(p: Program)
    requires p.Valid()
    ensures |Joined(p.Phdrs())| == PHDR * |p.segs| && |Joined(p.Shdrs())| == SHDR * |p.secs|
    ensures |p.File()| == p.Base() + |Joined(p.Data())|
  {
    hide Joined, Program.Data;
    EqualPieces(p.Phdrs(), PHDR, 0);
    EqualPieces(p.Shdrs(), SHDR, 0);
  }

  lemma HeaderRead(p: Program, i: nat)
    requires p.Valid()
    ensures var f := p.File();
            && |f| >= EHDR && f[..EHDR] == p.Header().Written()
            && Phnum(f) == |p.segs| && Shnum(f) == |p.secs| && Word(f, 24) == p.head.entry
            && PhdrAt(f, i) == EHDR + PHDR * i && Word(f, 32) == EHDR + PHDR * |p.segs|
            && TableSize(f) == SHDR * |p.secs|
  {
    var f := p.File();
    assert f[..EHDR] == p.Header().Written() by {
      hide Ehdr.Written, Joined, Program.Data, Program.Phdrs, Program.Shdrs, Program.Valid;
    }
    EhdrRead(f, p.Header(), i);
  }

  /** A piece of the file. */
  lemma DataRead(p: Program, i: nat)
    requires p.Valid() && i < |p.segs| + |p.secs|
    ensures Present(p.File(), p.Offset(i), |p.Data()[i]|) && Part(p.File(), p.Offset(i), |p.Data()[i]|) == p.Data()[i]
  {
    hide Ehdr.Written, Joined, Program.Data, Program.Phdrs, Program.Shdrs, Program.Valid, Program.Header, Before;
    TableSizes(p);
    PieceAt(p.Data(), i);
    var head := p.Header().Written() + Joined(p.Phdrs()) + Joined(p.Shdrs());
    Behind(head, Joined(p.Data()), Before(p.Data(), i), |p.Data()[i]|);
  }

  lemma Behind(a: seq<byte>, b: seq<byte>, q: nat, n: nat)
    requires q + n <= |b|
    ensures (a + b)[|a| + q..|a| + q + n] == b[q..q + n]
  {
  }

  /** Program header i, in the file. */
  lemma PhdrPart(p: Program, i: nat)
    requires p.Valid() && i < |p.segs|
    ensures Present(p.File(), EHDR + PHDR * i, PHDR) && Part(p.File(), EHDR + PHDR * i, PHDR) == p.Phdrs()[i]
  {
    TableSizes(p);
    EqualPieces(p.Phdrs(), PHDR, i);
    PieceAt(p.Phdrs(), i);
    hide Ehdr.Written, Joined, Program.Data, Program.Phdrs, Program.Shdrs, Program.Valid, Before;
    var f, q := p.File(), PHDR * i;
    assert f[EHDR + q..EHDR + q + PHDR] == Joined(p.Phdrs())[q..q + PHDR];
  }

  /** The table of section headers, in the file. */
  lemma ShdrsPart(p: Program)
    requires p.Valid()
    ensures var f, q := p.File(), EHDR + PHDR * |p.segs|;
            Present(f, q, SHDR * |p.secs|) && Part(f, q, SHDR * |p.secs|) == Joined(p.Shdrs())
  {
    TableSizes(p);
    hide Ehdr.Written, Joined, Program.Data, Program.Phdrs, Program.Shdrs, Program.Valid, Before;
    var f, q := p.File(), EHDR + PHDR * |p.segs|;
    assert f[q..q + SHDR * |p.secs|] == Joined(p.Shdrs());
  }

  /** What is loaded of a segment. */
  lemma LoadedIs(s: Seg, offset: nat)
    ensures var h := Phdr(s.kind, offset, s.vaddr, |s.data|, s.room, s.Flags());
            h.Loads() == s.Loaded() && h.End() == s.vaddr + s.Size()
  {
  }

  /** A segment is read as it was written. */
  lemma SegmentRead(p: Program, i: nat)
    requires p.Valid() && i < |p.segs|
    ensures var f, s := p.File(), p.segs[i];
            && |f| >= EHDR && Present(f, PhdrAt(f, i), PHDR)
            && Segment(f, i) == Phdr(s.kind, p.Offset(i), s.vaddr, |s.data|, s.room, s.Flags())
            && Segment(f, i).Loads() == s.Loaded() && Segment(f, i).End() == s.vaddr + s.Size()
            && Present(f, p.Offset(i), |s.data|) && Part(f, p.Offset(i), |s.data|) == s.data
  {
    var s := p.segs[i];
    assert s.Valid() && p.Data()[i] == s.data;
    assert p.Phdrs()[i] == s.Header(p.Offset(i));
    hide Program.File, Program.Data, Program.Phdrs, Program.Offset, Program.Valid, ParsePhdr, Word, Half, PhdrBytes,
      Phdr.Loads, Phdr.End, Seg.Loaded, Seg.Size, Seg.Flags, Present, Part;
    HeaderRead(p, i);
    DataRead(p, i);
    PhdrPart(p, i);
    LoadedIs(s, p.Offset(i));
    PhdrRead(s.kind, p.Offset(i), s.vaddr, s.paddr, |s.data|, s.room, s.Flags(), s.align);
  }

  lemma ShTableIs(p: Program)
    requires p.Valid()
    ensures var f := p.File();
            && |f| >= EHDR && Present(f, Word(f, 32), TableSize(f)) && ShTable(f) == Joined(p.Shdrs())
            && |ShTable(f)| == SHDR * |p.secs|
  {
    hide Program.File, Program.Shdrs, Program.Valid, Word, Half, Joined, Present, Part;
    HeaderRead(p, 0);
    ShdrsPart(p);
  }

  /** Header i of a table of section headers. */
  lemma EntryAt(xs: seq<seq<byte>>, i: nat)
    requires i < |xs| && forall j :: 0 <= j < |xs| ==> |xs[j]| == SHDR
    ensures |Joined(xs)| == SHDR * |xs| && Entry(Joined(xs), i) == xs[i]
  {
    hide Joined, Before;
    EqualPieces(xs, SHDR, i);
    PieceAt(xs, i);
  }

  /** Section header i, in the table. */
  lemma ShdrPart(p: Program, i: nat)
    requires p.Valid() && i < |p.secs|
    ensures var f := p.File();
            && |f| >= EHDR && Present(f, Word(f, 32), TableSize(f)) && |ShTable(f)| == SHDR * |p.secs|
            && Entry(ShTable(f), i) == p.Shdr(i).Written()
  {
    assert p.Shdrs()[i] == p.Shdr(i).Written();
    hide Program.Shdrs, Program.File, Program.Valid, Joined, Shdr.Written, ShTable, Entry, Present, Part, Word, Half;
    ShTableIs(p);
    EntryAt(p.Shdrs(), i);
  }

  lemma SectionData(p: Program, i: nat)
    requires p.Valid() && i < |p.secs|
    ensures var s, k := p.secs[i], |p.segs| + i;
            && p.Data()[k] == s.data && p.Shdr(i).stype == s.head.stype
            && p.Shdr(i).offset == p.Offset(k) && p.Shdr(i).size == |s.data|
  {
    hide Program.Offset, Joined;
  }

  /** A section is read as it was written. */
  lemma SectionRead(p: Program, i: nat)
    requires p.Valid() && i < |p.secs|
    ensures var f, s := p.File(), p.secs[i];
            && |f| >= EHDR && Present(f, Word(f, 32), TableSize(f)) && |ShTable(f)| == SHDR * |p.secs|
            && Entry(ShTable(f), i) == p.Shdr(i).Written()
            && ShType(ShTable(f), i) == s.head.stype && Kept(ShTable(f), i) == s.Wanted()
            && ShOffset(ShTable(f), i) == p.Offset(|p.segs| + i) && ShSize(ShTable(f), i) == |s.data|
            && Present(f, p.Offset(|p.segs| + i), |s.data|) && Part(f, p.Offset(|p.segs| + i), |s.data|) == s.data
  {
    hide Program.File, Program.Data, Program.Shdrs, Program.Offset, Program.Valid, Word, Half, Present, Part, Joined,
      Shdr.Written, ShTable, Entry, ShType, ShOffset, ShSize, Program.Shdr;
    SectionData(p, i);
    DataRead(p, |p.segs| + i);
    ShdrPart(p, i);
    ShdrRead(ShTable(p.File()), i, p.Shdr(i));
  }

  // ---- Loading it ----

  /** All that the loader reads is there. */
  lemma ProgramLoadable(p: Program)
    requires p.Valid()
    ensures |p.File()| >= EHDR && Loadable(p.File())
  {
    hide Program.Valid, Program.File, Segment, Present, Word, Half, ShTable, ShType, ShOffset, ShSize, Program.Offset;
    var f := p.File();
    HeaderRead(p, 0);
    forall i | 0 <= i < Phnum(f)
      ensures Present(f, PhdrAt(f, i), PHDR)
      ensures Segment(f, i).Loads() ==> Present(f, Segment(f, i).offset, Segment(f, i).filesz)
    {
      SegmentRead(p, i);
    }
    ShTableIs(p);
    forall i | 0 <= i < Shnum(f)
      ensures Kept(ShTable(f), i) ==> Present(f, ShOffset(ShTable(f), i), ShSize(ShTable(f), i))
    {
      SectionRead(p, i);
    }
  }

  /** Loaded segments do not overlap in memory. */
  ghost predicate Apart(segs: seq<Seg>) {
    forall i, j :: 0 <= i < j < |segs| && segs[i].Loaded() && segs[j].Loaded() ==>
      segs[i].vaddr + segs[i].Size() <= segs[j].vaddr || segs[j].vaddr + segs[j].Size() <= segs[i].vaddr
  }

  lemma ApartRead(p: Program)
    requires p.Valid() && Apart(p.segs)
    ensures |p.File()| >= EHDR && PhdrsPresent(p.File(), |p.segs|) && SegmentsApart(p.File(), |p.segs|)
  {
    hide Program.Valid, Program.File, Segment, Present, Word, Half, Seg.Loaded, Seg.Size, Phdr.Loads, Phdr.End;
    HeaderRead(p, 0);
    forall i | 0 <= i < |p.segs|
      ensures Present(p.File(), PhdrAt(p.File(), i), PHDR)
      ensures var s, h := p.segs[i], Segment(p.File(), i);
              h.Loads() == s.Loaded() && h.End() == s.vaddr + s.Size() && h.vaddr == s.vaddr
    {
      SegmentRead(p, i);
    }
  }

  /** A segment stands in memory: its bytes, and zeros for the rest of the room it takes. */
  ghost predicate Stands(mem: map<nat, byte>, s: Seg, offset: nat) {
    && Holds(mem, s.vaddr + offset, s.data)
    && forall a :: s.vaddr + offset + |s.data| <= a < s.vaddr + offset + s.room ==> a in mem && mem[a] == 0
  }

  lemma SegmentStands(p: Program, mem: map<nat, byte>, offset: nat, i: nat)
    requires p.Valid() && i < |p.segs| && p.segs[i].Loaded()
    requires |p.File()| >= EHDR && Loadable(p.File()) && SegmentsLoaded(mem, p.File(), Phnum(p.File()), offset)
    ensures Stands(mem, p.segs[i], offset)
  {
    hide Program.Valid, Program.File, Present, Word, Half, Part, Segment, HasSymbols, Program.Offset, Kept;
    HeaderRead(p, i);
    SegmentRead(p, i);
    var d := SegmentImage(p.File(), Segment(p.File(), i));
    ImageParts(mem, p.segs[i], d, offset);
  }

  lemma ImageParts(mem: map<nat, byte>, s: Seg, d: seq<byte>, offset: nat)
    requires d == s.data + Zeros(if |s.data| < s.room then s.room - |s.data| else 0) && Holds(mem, s.vaddr + offset, d)
    ensures Stands(mem, s, offset)
  {
    var b := s.vaddr + offset;
    forall a | b <= a < b + |s.data|
      ensures a in mem && mem[a] == s.data[a - b]
    {
      assert d[a - b] == s.data[a - b];
    }
    forall a | b + |s.data| <= a < b + s.room
      ensures a in mem && mem[a] == 0
    {
      assert d[a - b] == 0;
    }
  }

  // ---- How much room it takes ----

  /** m is the least address of the first n segments that are loaded. */
  ghost predicate Least(segs: seq<Seg>, n: nat, m: nat)
    requires n <= |segs|
  {
    && (forall i :: 0 <= i < n && segs[i].Loaded() ==> m <= segs[i].vaddr)
    && (m == 0xffff_ffff || exists i :: 0 <= i < n && segs[i].Loaded() && segs[i].vaddr == m)
  }

  /** m is where the first n segments that are loaded end. */
  ghost predicate Greatest(segs: seq<Seg>, n: nat, m: nat)
    requires n <= |segs|
  {
    && (forall i :: 0 <= i < n && segs[i].Loaded() ==> segs[i].vaddr + segs[i].Size() <= m)
    && (m == 0 || exists i :: 0 <= i < n && segs[i].Loaded() && segs[i].vaddr + segs[i].Size() == m)
  }

  lemma {:induction false} ExtentRead(p: Program, n: nat)
    requires p.Valid() && n <= |p.segs|
    ensures |p.File()| >= EHDR && PhdrsPresent(p.File(), n)
    ensures Least(p.segs, n, Lowest(p.File(), n)) && Greatest(p.segs, n, Highest(p.File(), n))
  {
    hide Program.File, Segment, Present, Word, Half, Seg.Loaded, Seg.Size, Phdr.Loads, Phdr.End, Program.Offset,
      Program.Data;
    HeaderRead(p, 0);
    if n > 0 {
      ExtentRead(p, n - 1);
      SegmentRead(p, n - 1);
    }
  }

  /** What the wanted ones among the first n sections take, each padded to four bytes. */
  function Appended(secs: seq<Sec>, n: nat): nat
    requires n <= |secs|
  {
    if n == 0 then 0 else Appended(secs, n - 1) + if secs[n - 1].Wanted() then (|secs[n - 1].data| + 3) / 4 * 4 else 0
  }

  lemma {:induction false} PlaceRead(p: Program, n: nat)
    requires p.Valid() && n <= |p.secs|
    ensures var f := p.File();
            && |f| >= EHDR && Present(f, Word(f, 32), TableSize(f)) && |ShTable(f)| == SHDR * |p.secs|
            && Place(ShTable(f), n) == CopyPlace(p, n)
  {
    hide Program.File, Present, Word, Half, ShTable, Kept, ShSize, Program.Offset, Program.Data, Program.Valid, Place,
      Sec.Wanted, RoundUp;
    ShTableIs(p);
    FirstPlace(ShTable(p.File()));
    if n > 0 {
      PlaceRead(p, n - 1);
      SectionRead(p, n - 1);
      NextPlace(ShTable(p.File()), n - 1);
      RoundFour(|p.secs[n - 1].data|);
    }
  }

  lemma RoundFour(x: nat)
    ensures RoundUp(x) == (x + 3) / 4 * 4
  {
  }

  // ---- The copy ----

  /** Where section i goes, counted from the copied ELF header. */
  function CopyPlace(p: Program, i: nat): nat
    requires i <= |p.secs|
  {
    EHDR + SHDR * |p.secs| + Appended(p.secs, i)
  }

  /** The header of section i in the copy: it leads to the copied bytes, if the section is a wanted one, and is
      as in the file, if not. */
  function CopiedShdr(p: Program, i: nat): (h: Shdr)
    requires p.Valid() && i < |p.secs| && IsWord(CopyPlace(p, |p.secs|))
    ensures h.Valid()
  {
    PlacesBelow(p, i);
    if p.secs[i].Wanted() then p.Shdr(i).(offset := CopyPlace(p, i)) else p.Shdr(i)
  }

  /** Section i stands in the copy at h. */
  ghost predicate Copied(mem: map<nat, byte>, p: Program, h: nat, i: nat)
    requires p.Valid() && i < |p.secs| && IsWord(CopyPlace(p, |p.secs|))
  {
    && Holds(mem, h + EHDR + SHDR * i, CopiedShdr(p, i).Written())
    && (p.secs[i].Wanted() ==> Holds(mem, h + CopyPlace(p, i), p.secs[i].data))
  }

  lemma {:induction false} AppendedMono(secs: seq<Sec>, m: nat, n: nat)
    requires m <= n <= |secs|
    ensures Appended(secs, m) <= Appended(secs, n)
  {
    if m < n {
      AppendedMono(secs, m, n - 1);
    }
  }

  /** Some section is a symbol table. */
  ghost predicate AnySymbols(p: Program) {
    exists i :: 0 <= i < |p.secs| && p.secs[i].Symbols()
  }

  lemma SymbolsRead(p: Program)
    requires p.Valid() && AnySymbols(p)
    ensures var f := p.File();
            && |f| >= EHDR && Present(f, Word(f, 32), TableSize(f)) && |ShTable(f)| == SHDR * |p.secs|
            && HasSymbols(ShTable(f), |p.secs|)
  {
    hide Program.File, Present, Word, Half, ShTable, ShType, Program.Offset, Program.Data, Program.Valid, Part;
    var i :| 0 <= i < |p.secs| && p.secs[i].Symbols();
    SectionRead(p, i);
  }

  lemma HoldsPart(mem: map<nat, byte>, a: nat, d: seq<byte>, q: nat, n: nat)
    requires Holds(mem, a, d) && q + n <= |d|
    ensures Holds(mem, a + q, d[q..q + n])
  {
  }

  /** A section header in a rewritten table. */
  lemma EntryRewritten(shp: seq<byte>, n: nat, i: nat, h: Shdr)
    requires i < n && SHDR * n <= |shp| && h.Valid() && Entry(shp, i) == h.Written() && IsWord(Place(shp, i))
    ensures Entry(Rewritten(shp, n), i) == (if Kept(shp, i) then h.(offset := Place(shp, i)) else h).Written()
  {
    hide Rewritten, Place, Entry, Shdr.Written, Put, Bytes, Kept;
    RewrittenEntry(shp, n, i);
    ShdrRewritten(h, Place(shp, i));
  }

  /** The header of section i in the copied table. */
  lemma HeaderCopied(p: Program, t: seq<byte>, i: nat)
    requires p.Valid() && i < |p.secs| && IsWord(CopyPlace(p, |p.secs|)) && |t| == SHDR * |p.secs|
    requires Entry(t, i) == p.Shdr(i).Written()
    requires Kept(t, i) == p.secs[i].Wanted() && Place(t, i) == CopyPlace(p, i)
    ensures Entry(Rewritten(t, |p.secs|), i) == CopiedShdr(p, i).Written()
  {
    hide Program.Valid, Rewritten, Place, Entry, Shdr.Written, CopyPlace, Kept, Sec.Wanted, Program.Shdr, Appended;
    PlacesBelow(p, i);
    EntryRewritten(t, |p.secs|, i, p.Shdr(i));
  }

  lemma PlacesBelow(p: Program, i: nat)
    requires i <= |p.secs|
    ensures CopyPlace(p, i) <= CopyPlace(p, |p.secs|)
  {
    AppendedMono(p.secs, i, |p.secs|);
  }

  lemma SectionCopied(p: Program, mem: map<nat, byte>, h: nat, i: nat)
    requires p.Valid() && i < |p.secs| && IsWord(CopyPlace(p, |p.secs|))
    requires |p.File()| >= EHDR && HeadersPresent(p.File()) && Image(mem, p.File(), h) && AnySymbols(p)
    ensures Copied(mem, p, h, i)
  {
    hide Program.File, Present, Word, Half, ShTable, ShType, ShSize, ShOffset, Program.Offset, Program.Data,
      Program.Valid, Part, Rewritten, Place, Shdr.Written, CopyPlace, CopiedShdr, Kept, Sec.Wanted, Holds, PhdrsPresent,
      HasSymbols, AnySymbols, Frobbed;
    var f := p.File();
    HeaderRead(p, 0);
    SymbolsRead(p);
    SectionRead(p, i);
    PlaceRead(p, i);
    HeaderCopied(p, ShTable(f), i);
    HoldsPart(mem, h + EHDR, Rewritten(ShTable(f), |p.secs|), SHDR * i, SHDR);
  }

  /** The copied ELF header. */
  function CopiedHeader(p: Program): (h: Ehdr)
    requires p.Valid()
    ensures h.Valid()
  {
    p.Header().(phoff := 0, shoff := EHDR, phentsize := 0, phnum := 0)
  }

  /** Where a program of which m is the end of the segments ends in memory, with all that is appended. */
  function EndOf(p: Program, m: nat): nat {
    (m + 3) / 4 * 4 + CopyPlace(p, |p.secs|)
  }

  /** Nothing of the program reaches 2^32, wherever it is loaded to. */
  ghost predicate Low32(p: Program, offset: nat)
    requires p.Valid()
  {
    exists m: nat :: Greatest(p.segs, |p.segs|, m) && IsWord(EndOf(p, m) + offset)
  }

  lemma GreatestUnique(segs: seq<Seg>, n: nat, m: nat, k: nat)
    requires n <= |segs| && Greatest(segs, n, m) && Greatest(segs, n, k)
    ensures m == k
  {
  }

  /** The marks of a program, wherever it is loaded to. */
  lemma MarksRead(p: Program, offset: nat)
    requires p.Valid()
    ensures |p.File()| >= EHDR && HeadersPresent(p.File()) && Phnum(p.File()) == |p.segs|
    ensures var f, lo, hi := p.File(), Lowest(p.File(), |p.segs|), Highest(p.File(), |p.segs|);
            MarksOf(f, offset)
            == Marks(lo + offset, p.head.entry + offset, 1, (hi + 3) / 4 * 4 + offset, EndOf(p, hi) + offset)
  {
    hide Program.File, Present, Word, Half, ShTable, Program.Offset, Program.Data, Program.Valid, Part, Place, Highest,
      Lowest, Greatest, Least, PhdrsPresent, CopyPlace;
    HeaderRead(p, 0);
    ExtentRead(p, |p.segs|);
    ShTableIs(p);
    PlaceRead(p, |p.secs|);
    RoundFour(Highest(p.File(), |p.segs|));
  }

  lemma FitsIn(p: Program, offset: nat)
    requires p.Valid() && Low32(p, offset)
    ensures IsWord(CopyPlace(p, |p.secs|))
    ensures |p.File()| >= EHDR && HeadersPresent(p.File()) && NoWrap(p.File(), offset)
  {
    hide Program.File, Present, Word, Half, Program.Offset, Program.Data, Program.Valid, Highest, Lowest, Greatest,
      Least, PhdrsPresent, CopyPlace, HeadersPresent, MarksOf, PhdrAt;
    var n := |p.segs|;
    MarksRead(p, offset);
    HeaderRead(p, n);
    ExtentRead(p, n);
    var m: nat :| Greatest(p.segs, n, m) && IsWord(EndOf(p, m) + offset);
    GreatestUnique(p.segs, n, m, Highest(p.File(), n));
  }

  /** Loading a program that was written: every segment stands in memory, zeros where the file has no bytes for
      it; above them all the header and the sections, if any of these is a symbol table, as a file of its own. */
  method LoadProgram(m: Memory, p: Program, offset: nat) returns (rc: int, marks: Marks)
    requires p.Valid() && Apart(p.segs) && Low32(p, offset)
    modifies m
    ensures rc == 0
    ensures forall i :: 0 <= i < |p.segs| && p.segs[i].Loaded() ==> Stands(m.cells, p.segs[i], offset)
    ensures exists least: nat, greatest: nat ::
              && Least(p.segs, |p.segs|, least) && Greatest(p.segs, |p.segs|, greatest)
              && marks == Marks(least + offset, p.head.entry + offset, 1, (greatest + 3) / 4 * 4 + offset,
                                EndOf(p, greatest) + offset)
    ensures Holds(m.cells, marks.sym, CopiedHeader(p).Written())
    ensures IsWord(CopyPlace(p, |p.secs|))
    ensures AnySymbols(p) ==> forall i :: 0 <= i < |p.secs| ==> Copied(m.cells, p, marks.sym, i)
  {
    hide Program.File, Present, Word, Half, ShTable, Program.Offset, Program.Data, Program.Valid, Part, Place, Highest,
      Lowest, Greatest, Least, PhdrsPresent, Appended, Apart, NoWrap, Loadable, SegmentsLoaded, Image, SegmentsApart,
      Low32, Stands, Copied, Holds, HeadersPresent, MarksOf, AnySymbols;
    FitsIn(p, offset);
    MarksRead(p, offset);
    ProgramLoadable(p);
    ApartRead(p);
    HeaderRead(p, 0);
    ExtentRead(p, |p.segs|);
    rc, marks := ElfExec(m, p.File(), offset, LOAD_ALL);
    ghost var lo, hi := Lowest(p.File(), |p.segs|), Highest(p.File(), |p.segs|);
    assert Least(p.segs, |p.segs|, lo) && Greatest(p.segs, |p.segs|, hi);
    forall i | 0 <= i < |p.segs| && p.segs[i].Loaded()
      ensures Stands(m.cells, p.segs[i], offset)
    {
      SegmentStands(p, m.cells, offset, i);
    }
    HeaderStands(p, m.cells, marks.sym);
    if AnySymbols(p) {
      forall i | 0 <= i < |p.secs|
        ensures Copied(m.cells, p, marks.sym, i)
      {
        SectionCopied(p, m.cells, marks.sym, i);
      }
    }
  }

  lemma HeaderStands(p: Program, mem: map<nat, byte>, h: nat)
    requires p.Valid() && |p.File()| >= EHDR && HeadersPresent(p.File()) && Image(mem, p.File(), h)
    ensures Holds(mem, h, CopiedHeader(p).Written())
  {
    hide Program.File, Present, Word, Half, ShTable, Program.Offset, Program.Data, Program.Valid, Part, Place, Holds,
      PhdrsPresent, HasSymbols, Frobbed, Rewritten, Ehdr.Written;
    HeaderRead(p, 0);
    EhdrFrobbed(p.Header());
  }
}
