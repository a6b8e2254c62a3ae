/** The 32-bit ELF structures that loadfile.c reads and writes, as bytes (big-endian, as on the m68k),
    and where the loader puts what it appends to the program. */
module ElfFormat {
  import opened Words
  import opened ZLib

  const EHDR := 52
  const PHDR := 32
  const SHDR := 40
  const LONG := 4
  const PT_LOAD := 1
  const SHT_SYMTAB := 2
  const SHT_STRTAB := 3

  function Half(d: seq<byte>, p: nat): nat
    requires p + 2 <= |d|
  {
    d[p] as nat * 0x100 + d[p + 1]
  }

  /** d with the bytes at p replaced. */
  function Put(d: seq<byte>, p: nat, b: seq<byte>): (r: seq<byte>)
    requires p + |b| <= |d|
    ensures |r| == |d|
  {
    d[..p] + b + d[p + |b|..]
  }

  /** Reading n bytes at off succeeds: reading nothing always does. */
  predicate Present(f: seq<byte>, off: nat, n: nat) {
    n == 0 || off + n <= |f|
  }

  function Part(f: seq<byte>, off: nat, n: nat): (d: seq<byte>)
    requires Present(f, off, n)
    ensures |d| == n
  {
    if n == 0 then [] else f[off..off + n]
  }

  function RoundUp(x: nat): (r: nat)
    ensures x <= r < x + LONG && r % LONG == 0
  {
    (x + (LONG - 1)) / LONG * LONG
  }

  // ---- Fields of the ELF header ----

  function Phnum(f: seq<byte>): nat
    requires |f| >= EHDR
  {
    Half(f, 44)
  }

  function Shnum(f: seq<byte>): nat
    requires |f| >= EHDR
  {
    Half(f, 48)
  }

  /** e_shnum * sizeof(Elf_Shdr) */
  function TableSize(f: seq<byte>): nat
    requires |f| >= EHDR
  {
    SHDR * Shnum(f)
  }

  // ---- Program headers ----

  datatype Phdr = Phdr(ptype: nat, offset: nat, vaddr: nat, filesz: nat, memsz: nat, flags: nat) {
    /** A loadable segment that is writable or executable. */
    predicate Loads() { ptype == PT_LOAD && (flags / 2 % 2 == 1 || flags % 2 == 1) }

    predicate IsBss() { filesz < memsz }

    /** Where it ends in memory. */
    function End(): nat { vaddr + if IsBss() then memsz else filesz }
  }

  function ParsePhdr(d: seq<byte>): Phdr
    requires |d| == PHDR
  {
    Phdr(Word(d, 0), Word(d, 4), Word(d, 8), Word(d, 16), Word(d, 20), Word(d, 24))
  }

  function PhdrAt(f: seq<byte>, i: nat): nat
    requires |f| >= EHDR
  {
    Word(f, 28) + PHDR * i
  }

  predicate PhdrsPresent(f: seq<byte>, n: nat)
    requires |f| >= EHDR
  {
    forall i :: 0 <= i < n ==> Present(f, PhdrAt(f, i), PHDR)
  }

  function Segment(f: seq<byte>, i: nat): Phdr
    requires |f| >= EHDR && Present(f, PhdrAt(f, i), PHDR)
  {
    ParsePhdr(Part(f, PhdrAt(f, i), PHDR))
  }

  /** The lowest address of the first n segments that are loaded. */
  function Lowest(f: seq<byte>, n: nat): nat
    requires |f| >= EHDR && PhdrsPresent(f, n)
  {
    if n == 0 then 0xffff_ffff
    else
      var s, m := Segment(f, n - 1), Lowest(f, n - 1);
      if s.Loads() && s.vaddr < m then s.vaddr else m
  }

  /** The end of the first n segments that are loaded. */
  function Highest(f: seq<byte>, n: nat): nat
    requires |f| >= EHDR && PhdrsPresent(f, n)
  {
    if n == 0 then 0
    else
      var s, m := Segment(f, n - 1), Highest(f, n - 1);
      if s.Loads() && s.End() > m then s.End() else m
  }

  // ---- Section headers ----

  function ShTable(f: seq<byte>): seq<byte>
    requires |f| >= EHDR && Present(f, Word(f, 32), TableSize(f))
  {
    Part(f, Word(f, 32), TableSize(f))
  }

  function ShType(shp: seq<byte>, i: nat): nat
    requires SHDR * i + SHDR <= |shp|
  {
    Word(shp, SHDR * i + 4)
  }

  function ShOffset(shp: seq<byte>, i: nat): nat
    requires SHDR * i + SHDR <= |shp|
  {
    Word(shp, SHDR * i + 16)
  }

  function ShSize(shp: seq<byte>, i: nat): nat
    requires SHDR * i + SHDR <= |shp|
  {
    Word(shp, SHDR * i + 20)
  }

  predicate Kept(shp: seq<byte>, i: nat)
    requires SHDR * i + SHDR <= |shp|
  {
    ShType(shp, i) == SHT_SYMTAB || ShType(shp, i) == SHT_STRTAB
  }

  /** There is a symbol table among the first n sections. */
  predicate HasSymbols(shp: seq<byte>, n: nat)
    requires SHDR * n <= |shp|
  {
    exists i :: 0 <= i < n && ShType(shp, i) == SHT_SYMTAB
  }

  /** Where section i goes, counted from the copied ELF header: after the headers and the sections
      kept before it, each padded to a long. */
  function Place(shp: seq<byte>, i: nat): (p: nat)
    requires SHDR * i <= |shp|
    ensures p >= EHDR + |shp|
  {
    if i == 0 then EHDR + |shp|
    else Place(shp, i - 1) + if Kept(shp, i - 1) then RoundUp(ShSize(shp, i - 1)) else 0
  }

  /** What fits in the 32 bits of sh_offset. */
  function Short(w: nat): (r: nat)
    ensures r < 0x1_0000_0000 && (w < 0x1_0000_0000 <==> r == w)
  {
    w % 0x1_0000_0000
  }

  /** The section headers with sh_offset of the first n rewritten. */
  function Rewritten(shp: seq<byte>, n: nat): (r: seq<byte>)
    requires SHDR * n <= |shp|
    ensures |r| == |shp|
  {
    if n == 0 then shp
    else
      var r := Rewritten(shp, n - 1);
      if Kept(shp, n - 1) then Put(r, SHDR * (n - 1) + 16, Bytes(Short(Place(shp, n - 1)))) else r
  }

  lemma {:induction false} PlaceMono(shp: seq<byte>, m: nat, n: nat)
    requires m <= n && SHDR * n <= |shp|
    ensures Place(shp, m) <= Place(shp, n)
    ensures m < n && Kept(shp, m) ==> Place(shp, m) + RoundUp(ShSize(shp, m)) <= Place(shp, n)
  {
    if m < n {
      PlaceMono(shp, m, n - 1);
    }
  }

  /** The ELF header as it is copied: no program headers, section headers right behind it. */
  function Frobbed(elf: seq<byte>): (r: seq<byte>)
    requires |elf| == EHDR
    ensures |r| == EHDR
  {
    Put(Put(Put(Put(elf, 28, Bytes(0)), 32, Bytes(EHDR)), 42, [0, 0]), 44, [0, 0])
  }

  // ---- What rewriting does ----

  /** Section header i. */
  function Entry(shp: seq<byte>, i: nat): (e: seq<byte>)
    requires SHDR * i + SHDR <= |shp|
    ensures |e| == SHDR
  {
    shp[SHDR * i..SHDR * i + SHDR]
  }

  lemma EntryFields(shp: seq<byte>, i: nat)
    requires SHDR * i + SHDR <= |shp|
    ensures ShType(shp, i) == Word(Entry(shp, i), 4) && ShOffset(shp, i) == Word(Entry(shp, i), 16)
    ensures ShSize(shp, i) == Word(Entry(shp, i), 20)
  {
  }

  lemma PutEntry(d: seq<byte>, k: nat, i: nat, b: seq<byte>)
    requires SHDR * k + SHDR <= |d| && SHDR * i + SHDR <= |d| && |b| == 4
    ensures Entry(Put(d, SHDR * k + 16, b), i) == if i == k then Put(Entry(d, i), 16, b) else Entry(d, i)
  {
    var r := Put(d, SHDR * k + 16, b);
    if i != k {
      assert SHDR * i + SHDR <= SHDR * k || SHDR * k + SHDR <= SHDR * i;
      forall j | 0 <= j < SHDR
        ensures Entry(r, i)[j] == Entry(d, i)[j]
      {
        assert r[SHDR * i + j] == d[SHDR * i + j];
      }
    } else {
      forall j | 0 <= j < SHDR
        ensures Entry(r, i)[j] == Put(Entry(d, i), 16, b)[j]
      {
        assert r[SHDR * i + j] == if 16 <= j < 20 then b[j - 16] else d[SHDR * i + j];
      }
    }
  }

  /** Rewriting touches sh_offset of the kept sections only. */
  lemma {:induction false} RewrittenEntry(shp: seq<byte>, n: nat, i: nat)
    requires SHDR * n <= |shp| && SHDR * i + SHDR <= |shp|
    ensures i >= n || !Kept(shp, i) ==> Entry(Rewritten(shp, n), i) == Entry(shp, i)
    ensures i < n && Kept(shp, i) ==>
              Entry(Rewritten(shp, n), i) == Put(Entry(shp, i), 16, Bytes(Short(Place(shp, i))))
    decreases n
  {
    hide Place, Bytes, Entry, Put, Kept, Short;
    if n > 0 {
      RewrittenEntry(shp, n - 1, i);
      if Kept(shp, n - 1) {
        PutEntry(Rewritten(shp, n - 1), n - 1, i, Bytes(Short(Place(shp, n - 1))));
      }
    }
  }

  lemma PutFields(e: seq<byte>, w: nat)
    requires |e| == SHDR && w < 0x1_0000_0000
    ensures var r := Put(e, 16, Bytes(w));
            Word(r, 4) == Word(e, 4) && Word(r, 20) == Word(e, 20) && Word(r, 16) == w
  {
    WordOfBytes(w);
    var r := Put(e, 16, Bytes(w));
    assert r[16..20] == Bytes(w);
  }

  /** The rewritten headers differ in the offsets of the kept sections, which are their places, or what 32
      bits hold of them. */
  lemma RewrittenFields(shp: seq<byte>, n: nat, i: nat)
    requires SHDR * n <= |shp| && SHDR * i + SHDR <= |shp|
    ensures ShType(Rewritten(shp, n), i) == ShType(shp, i) && ShSize(Rewritten(shp, n), i) == ShSize(shp, i)
    ensures ShOffset(Rewritten(shp, n), i) == if i < n && Kept(shp, i) then Short(Place(shp, i)) else ShOffset(shp, i)
  {
    hide Place, Bytes, Entry, Put, Word, Rewritten, Short;
    RewrittenEntry(shp, n, i);
    EntryFields(shp, i);
    EntryFields(Rewritten(shp, n), i);
    if i < n && Kept(shp, i) {
      PutFields(Entry(shp, i), Short(Place(shp, i)));
    }
  }

  lemma PutReads(d: seq<byte>, p: nat, b: seq<byte>, q: nat)
    requires p + |b| <= |d| && q < |d|
    ensures Put(d, p, b)[q] == if p <= q < p + |b| then b[q - p] else d[q]
  {
  }

  /** The copied header has no program headers, and its section headers come right behind it; their
      number and the entry point are as before. */
  lemma FrobbedFields(elf: seq<byte>)
    requires |elf| == EHDR
    ensures var r := Frobbed(elf);
            Word(r, 28) == 0 && Word(r, 32) == EHDR && Half(r, 44) == 0
            && Word(r, 24) == Word(elf, 24) && Half(r, 48) == Half(elf, 48)
  {
    WordOfBytes(0);
    WordOfBytes(EHDR);
    var a := Put(elf, 28, Bytes(0));
    var b := Put(a, 32, Bytes(EHDR));
    var c := Put(b, 42, [0, 0]);
    var r := Put(c, 44, [0, 0]);
    forall q | 0 <= q < EHDR
      ensures r[q] == if 42 <= q < 46 then 0 else if 32 <= q < 36 then Bytes(EHDR)[q - 32]
                      else if 28 <= q < 32 then Bytes(0)[q - 28] else elf[q]
    {
      hide Put, Bytes;
      PutReads(elf, 28, Bytes(0), q);
      PutReads(a, 32, Bytes(EHDR), q);
      PutReads(b, 42, [0, 0], q);
      PutReads(c, 44, [0, 0], q);
    }
  }
}
