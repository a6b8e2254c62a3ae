/** 32-bit ELF structures as a linker writes them, field by field in the order of their declarations. */
module ElfWriter {
  import opened Words
  import opened ZLib
  import opened ElfFormat

  function HalfBytes(h: nat): (d: seq<byte>)
    requires h < 0x1_0000
    ensures |d| == 2
  {
    [h / 0x100, h % 0x100]
  }

  lemma HalfOfBytes(h: nat)
    requires h < 0x1_0000
    ensures Half(HalfBytes(h), 0) == h
  {
  }

  predicate IsWord(w: nat) { w < 0x1_0000_0000 }

  predicate IsHalf(h: nat) { h < 0x1_0000 }

  /** A word between other bytes. */
  lemma WordAt(d: seq<byte>, p: nat, w: nat)
    requires IsWord(w) && p + 4 <= |d| && d[p..p + 4] == Bytes(w)
    ensures Word(d, p) == w
  {
    WordOfBytes(w);
    var e := d[p..p + 4];
    assert e[0] == d[p] && e[1] == d[p + 1] && e[2] == d[p + 2] && e[3] == d[p + 3];
    hide Bytes;
  }

  lemma HalfAt(d: seq<byte>, p: nat, h: nat)
    requires IsHalf(h) && p + 2 <= |d| && d[p..p + 2] == HalfBytes(h)
    ensures Half(d, p) == h
  {
    HalfOfBytes(h);
    var e := d[p..p + 2];
    assert e[0] == d[p] && e[1] == d[p + 1];
    hide HalfBytes;
  }

  // ---- Program headers ----

  /** A program header. */
  function PhdrBytes(ptype: nat, offset: nat, vaddr: nat, paddr: nat, filesz: nat, memsz: nat, flags: nat, align: nat):
      (d: seq<byte>)
    requires IsWord(ptype) && IsWord(offset) && IsWord(vaddr) && IsWord(paddr)
    requires IsWord(filesz) && IsWord(memsz) && IsWord(flags) && IsWord(align)
    ensures |d| == PHDR
  {
    Bytes(ptype) + Bytes(offset) + Bytes(vaddr) + Bytes(paddr)
    + Bytes(filesz) + Bytes(memsz) + Bytes(flags) + Bytes(align)
  }

  /** A program header is read as it was written. */
  lemma PhdrRead(ptype: nat, offset: nat, vaddr: nat, paddr: nat, filesz: nat, memsz: nat, flags: nat, align: nat)
    requires IsWord(ptype) && IsWord(offset) && IsWord(vaddr) && IsWord(paddr)
    requires IsWord(filesz) && IsWord(memsz) && IsWord(flags) && IsWord(align)
    ensures ParsePhdr(PhdrBytes(ptype, offset, vaddr, paddr, filesz, memsz, flags, align))
            == Phdr(ptype, offset, vaddr, filesz, memsz, flags)
  {
    hide Bytes, Word;
    var d := PhdrBytes(ptype, offset, vaddr, paddr, filesz, memsz, flags, align);
    WordAt(d, 0, ptype);
    WordAt(d, 4, offset);
    WordAt(d, 8, vaddr);
    WordAt(d, 16, filesz);
    WordAt(d, 20, memsz);
    WordAt(d, 24, flags);
  }

  // ---- Section headers ----

  datatype Shdr = Shdr(name: nat, stype: nat, flags: nat, addr: nat, offset: nat, size: nat, link: nat, info: nat,
                       align: nat, entsize: nat) {
    predicate Valid() {
      && IsWord(name) && IsWord(stype) && IsWord(flags) && IsWord(addr) && IsWord(offset)
      && IsWord(size) && IsWord(link) && IsWord(info) && IsWord(align) && IsWord(entsize)
    }

    function Written(): (d: seq<byte>)
      requires Valid()
      ensures |d| == SHDR
    {
      Bytes(name) + Bytes(stype) + Bytes(flags) + Bytes(addr) + Bytes(offset)
      + Bytes(size) + Bytes(link) + Bytes(info) + Bytes(align) + Bytes(entsize)
    }
  }

  /** A section header in a table of them. */
  lemma ShdrRead(shp: seq<byte>, i: nat, h: Shdr)
    requires h.Valid() && SHDR * i + SHDR <= |shp| && Entry(shp, i) == h.Written()
    ensures ShType(shp, i) == h.stype && ShOffset(shp, i) == h.offset && ShSize(shp, i) == h.size
  {
    hide Bytes, Word;
    var d := Entry(shp, i);
    EntryFields(shp, i);
    WordAt(d, 4, h.stype);
    WordAt(d, 16, h.offset);
    WordAt(d, 20, h.size);
  }

  /** Rewriting sh_offset touches nothing else. */
  lemma ShdrRewritten(h: Shdr, offset: nat)
    requires h.Valid() && IsWord(offset)
    ensures Put(h.Written(), 16, Bytes(offset)) == h.(offset := offset).Written()
  {
    hide Bytes;
  }

  // ---- The ELF header ----

  datatype Ehdr = Ehdr(ident: seq<byte>, etype: nat, machine: nat, version: nat, entry: nat, phoff: nat, shoff: nat,
                       flags: nat, ehsize: nat, phentsize: nat, phnum: nat, shentsize: nat, shnum: nat, shstrndx: nat) {
    predicate Valid() {
      && |ident| == 16 && IsHalf(etype) && IsHalf(machine)
      && IsWord(version) && IsWord(entry) && IsWord(phoff) && IsWord(shoff) && IsWord(flags)
      && IsHalf(ehsize) && IsHalf(phentsize) && IsHalf(phnum) && IsHalf(shentsize) && IsHalf(shnum) && IsHalf(shstrndx)
    }

    function Written(): (d: seq<byte>)
      requires Valid()
      ensures |d| == EHDR
    {
      ident + HalfBytes(etype) + HalfBytes(machine) + Bytes(version)
      + Bytes(entry) + Bytes(phoff) + Bytes(shoff) + Bytes(flags)
      + HalfBytes(ehsize) + HalfBytes(phentsize) + HalfBytes(phnum)
      + HalfBytes(shentsize) + HalfBytes(shnum) + HalfBytes(shstrndx)
    }
  }

  /** The ELF header at the beginning of a file. */
  lemma EhdrRead(f: seq<byte>, h: Ehdr, i: nat)
    requires h.Valid() && |f| >= EHDR && f[..EHDR] == h.Written()
    ensures Word(f, 24) == h.entry && Word(f, 32) == h.shoff && Phnum(f) == h.phnum && Shnum(f) == h.shnum
    ensures PhdrAt(f, i) == h.phoff + PHDR * i && TableSize(f) == SHDR * h.shnum
  {
    hide Bytes, HalfBytes, Word, Half;
    var d := h.Written();
    EhdrSlices(h);
    assert f[24..28] == f[..EHDR][24..28] && f[28..32] == f[..EHDR][28..32] && f[32..36] == f[..EHDR][32..36];
    assert f[44..46] == f[..EHDR][44..46] && f[48..50] == f[..EHDR][48..50];
    WordAt(f, 24, h.entry);
    WordAt(f, 28, h.phoff);
    WordAt(f, 32, h.shoff);
    HalfAt(f, 44, h.phnum);
    HalfAt(f, 48, h.shnum);
  }

  lemma EhdrSlices(h: Ehdr)
    requires h.Valid()
    ensures var d := h.Written();
            && d[24..28] == Bytes(h.entry) && d[28..32] == Bytes(h.phoff) && d[32..36] == Bytes(h.shoff)
            && d[42..44] == HalfBytes(h.phentsize) && d[44..46] == HalfBytes(h.phnum) && d[48..50] == HalfBytes(h.shnum)
  {
    hide Bytes, HalfBytes;
  }

  /** The copied header: no program headers, and section headers right behind it. */
  lemma EhdrFrobbed(h: Ehdr)
    requires h.Valid()
    ensures Frobbed(h.Written()) == h.(phoff := 0, shoff := EHDR, phentsize := 0, phnum := 0).Written()
  {
    hide Bytes;
    assert HalfBytes(0) == [0, 0];
    hide HalfBytes, Ehdr.Written;
    PutOffsets(h, 0, EHDR);
    PutCounts(h.(phoff := 0, shoff := EHDR), 0, 0);
  }

  lemma PutOffsets(h: Ehdr, ph: nat, sh: nat)
    requires h.Valid() && IsWord(ph) && IsWord(sh)
    ensures Put(Put(h.Written(), 28, Bytes(ph)), 32, Bytes(sh)) == h.(phoff := ph, shoff := sh).Written()
  {
    hide Bytes, HalfBytes;
    assert Put(h.Written(), 28, Bytes(ph)) == h.(phoff := ph).Written();
  }

  lemma PutCounts(h: Ehdr, size: nat, num: nat)
    requires h.Valid() && IsHalf(size) && IsHalf(num)
    ensures Put(Put(h.Written(), 42, HalfBytes(size)), 44, HalfBytes(num))
            == h.(phentsize := size, phnum := num).Written()
  {
    hide Bytes, HalfBytes;
    assert Put(h.Written(), 42, HalfBytes(size)) == h.(phentsize := size).Written();
  }
}
