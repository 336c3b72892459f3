/** Loading a program from an ELF file: its loadable segments are copied to fresh pages, cleared
    behind the file data, and mapped where the program wants them. */
module ElfLoad {
  import opened Pages

  const PT_LOAD: int := 1
  const PF_X: bv32 := 1
  const PF_W: bv32 := 2
  const AS_RW: bv32 := 2
  const AS_GLOBAL: bv32 := 4
  const AS_NX: bv32 := 8

  datatype Arch = I386 | X86_64 | RiscV64 | ArmV8

  datatype Phdr = Phdr(ptype: int, offset: nat, vaddr: nat, filesz: nat, memsz: nat, flags: bv32)

  /** The file header: identification bytes, machine, entry point, and the program headers. */
  datatype Header = Header(ident: seq<int>, machine: int, entry: nat, phdrs: seq<Phdr>)

  datatype Result = Loaded(entry: nat) | Rejected | AssertFails

  function NumPages(p: Phdr): nat {
    PageCount(p.memsz)
  }

  // ----- which files are accepted -----

  predicate Magic(h: Header) {
    6 <= |h.ident| && h.ident[0] == 0x7F && h.ident[1] == 'E' as int && h.ident[2] == 'L' as int && h.ident[3] == 'F' as int
  }

  function MachineOf(arch: Arch): int {
    match arch case I386 => 3 case X86_64 => 62 case RiscV64 => 243 case ArmV8 => 183
  }

  /** The class of files for an architecture: 1 for 32 bits, 2 for 64 bits. */
  function ClassOf(arch: Arch): int {
    if arch == I386 then 1 else 2
  }

  /** A little endian file for this architecture. */
  predicate Accepted(h: Header, arch: Arch) {
    Magic(h) && h.ident[4] == ClassOf(arch) && h.ident[5] == 1 && h.machine == MachineOf(arch)
  }

  /** The files that are accepted, architecture by architecture. */
  lemma AcceptedFor(h: Header)
    requires 6 <= |h.ident|
    ensures var elf := h.ident[..4] == [0x7F, 0x45, 0x4C, 0x46] && h.ident[5] == 1;
      && (Accepted(h, I386) <==> elf && h.ident[4] == 1 && h.machine == 3)
      && (Accepted(h, X86_64) <==> elf && h.ident[4] == 2 && h.machine == 62)
      && (Accepted(h, RiscV64) <==> elf && h.ident[4] == 2 && h.machine == 243)
      && (Accepted(h, ArmV8) <==> elf && h.ident[4] == 2 && h.machine == 183)
  {
    var m := h.ident[..4];
    assert m == [h.ident[0], h.ident[1], h.ident[2], h.ident[3]];
    assert m == [0x7F, 0x45, 0x4C, 0x46] <==> m[0] == 0x7F && m[1] == 0x45 && m[2] == 0x4C && m[3] == 0x46;
  }

  // ----- address space -----

  /** The number of pages that addresses of an architecture tell apart. */
  function Space(arch: Arch): nat {
    if ClassOf(arch) == 1 then 0x10_0000 else 0x10_0000_0000_0000
  }

  /** The page of an address computed in the width of addresses. */
  function PageAt(arch: Arch, addr: nat): nat {
    var page := addr / PAGE_SIZE;
    if page < Space(arch) then page else page - Space(arch)
  }

  /** Where a page is mapped to, and with which flags. */
  datatype Mapping = Mapping(phys: nat, flags: bv32)

  function MapFlags(p: Phdr): bv32 {
    var flags := AS_GLOBAL | AS_NX;
    var flags := if p.flags & PF_X != 0 then flags & !AS_NX else flags;
    if p.flags & PF_W != 0 then flags | AS_RW else flags
  }

  /** Addresses of 32 bits and of 64 bits, and what follows the last of them. */
  lemma PageAtIs(arch: Arch, addr: nat)
    ensures arch == I386 ==>
      PageAt(arch, addr) == if addr < 0x1_0000_0000 then addr / 4096 else (addr - 0x1_0000_0000) / 4096
    ensures arch != I386 ==>
      PageAt(arch, addr) ==
      if addr < 0x1_0000_0000_0000_0000 then addr / 4096 else (addr - 0x1_0000_0000_0000_0000) / 4096
  {
    assert addr == addr / 4096 * 4096 + addr % 4096;
  }

  /** A segment that can be loaded: its address is one, its data is in the file, and the positions of
      its pages are numbers of 32 bits. */
  predicate Loadable(arch: Arch, file: seq<int>, p: Phdr) {
    p.ptype == PT_LOAD ==>
      p.filesz <= p.memsz <= OFFSET_LIMIT && p.offset + p.filesz <= |file| && p.vaddr / PAGE_SIZE < Space(arch)
  }

  /** Two areas of whole pages do not meet. */
  predicate Apart(a: nat, n: nat, b: nat, m: nat) {
    a + n * PAGE_SIZE <= b || b + m * PAGE_SIZE <= a
  }

  /** Which page of a segment a page of the address space is, counted from its first one and past
      the end of the address space. */
  function Index(arch: Arch, p: Phdr, page: int): int {
    var first := p.vaddr / PAGE_SIZE;
    if first <= page then page - first else page - first + Space(arch)
  }

  /** The page is one of the first n pages of a segment. */
  predicate InFirst(arch: Arch, p: Phdr, n: nat, page: int) {
    0 <= page < Space(arch) && Index(arch, p, page) < n
  }

  /** The page is one of the pages of a segment. */
  predicate InPages(arch: Arch, p: Phdr, page: int) {
    p.ptype == PT_LOAD && InFirst(arch, p, NumPages(p), page)
  }

  /** The k-th page of a segment, and its number in the segment. */
  lemma PageIndex(arch: Arch, p: Phdr, k: nat)
    requires p.vaddr / PAGE_SIZE < Space(arch) && k < Space(arch)
    ensures (p.vaddr + k * PAGE_SIZE) / PAGE_SIZE == p.vaddr / PAGE_SIZE + k
    ensures var page := PageAt(arch, p.vaddr + k * PAGE_SIZE);
      && page < Space(arch) && Index(arch, p, page) == k
      && forall v | 0 <= v < Space(arch) && Index(arch, p, v) == k :: v == page
  {
  }

  /** The last of the first n segments that has a page; -1 when none has it. */
  function Owner(arch: Arch, phdrs: seq<Phdr>, n: nat, page: int): (o: int)
    requires n <= |phdrs|
    ensures -1 <= o < n
  {
    if n == 0 then -1 else if InPages(arch, phdrs[n - 1], page) then n - 1 else Owner(arch, phdrs, n - 1, page)
  }

  lemma {:induction false} OwnerIs(arch: Arch, phdrs: seq<Phdr>, n: nat, page: int, i: int)
    requires n <= |phdrs| && -1 <= i < n
    ensures Owner(arch, phdrs, n, page) == i <==>
      (i >= 0 ==> InPages(arch, phdrs[i], page)) && forall j | i < j < n :: !InPages(arch, phdrs[j], page)
  {
    if i < n - 1 {
      OwnerIs(arch, phdrs, n - 1, page, i);
    }
  }

  /** What the program is to find at a place of a segment. */
  function Image(file: seq<int>, p: Phdr, i: nat): int
    requires i < p.filesz ==> p.offset + p.filesz <= |file|
  {
    if i < p.filesz then file[p.offset + i] else 0
  }

  /** The segment is in memory from frame on. */
  ghost predicate InMemory(ram: seq<int>, file: seq<int>, p: Phdr, frame: nat) {
    && p.offset + p.filesz <= |file| && frame + NumPages(p) * PAGE_SIZE <= |ram|
    && forall i: nat | i < p.memsz :: ram[frame + i] == Image(file, p, i)
  }

  /** A page of a segment is mapped to the page with the same number from frame on. */
  ghost predicate MappedBy(arch: Arch, pages: map<int, Mapping>, p: Phdr, frame: nat, page: int) {
    var phys := frame + Index(arch, p, page) * PAGE_SIZE;
    page in pages && phys >= 0 && pages[page] == Mapping(phys, MapFlags(p))
  }

  /** A page is mapped, or not, as before. */
  ghost predicate SameAt(pages: map<int, Mapping>, pages': map<int, Mapping>, page: int) {
    (page in pages <==> page in pages') && (page in pages ==> pages'[page] == pages[page])
  }

  /** A page after the first n segments were mapped: as the last of them that has it asks for, or
      as before. */
  ghost predicate AsOwned(arch: Arch, pages: map<int, Mapping>, pages': map<int, Mapping>,
      phdrs: seq<Phdr>, frames: seq<nat>, n: nat, page: int)
    requires n <= |phdrs| == |frames|
  {
    var o := Owner(arch, phdrs, n, page);
    if 0 <= o < n then MappedBy(arch, pages', phdrs[o], frames[o], page) else SameAt(pages, pages', page)
  }

  /** A page after the first n pages of one segment were mapped. */
  ghost predicate AsMapped(arch: Arch, pages: map<int, Mapping>, pages': map<int, Mapping>,
      p: Phdr, frame: nat, n: nat, page: int) {
    if InFirst(arch, p, n, page) then MappedBy(arch, pages', p, frame, page) else SameAt(pages, pages', page)
  }

  lemma MappedNext(arch: Arch, pages: map<int, Mapping>, m: map<int, Mapping>, p: Phdr, frame: nat, k: nat)
    requires p.vaddr / PAGE_SIZE < Space(arch) && k < Space(arch)
    requires forall v {:trigger AsMapped(arch, pages, m, p, frame, k, v)} :: AsMapped(arch, pages, m, p, frame, k, v)
    ensures var m' := m[PageAt(arch, p.vaddr + k * PAGE_SIZE) := Mapping(frame + k * PAGE_SIZE, MapFlags(p))];
      forall v {:trigger AsMapped(arch, pages, m', p, frame, k + 1, v)} :: AsMapped(arch, pages, m', p, frame, k + 1, v)
  {
    PageIndex(arch, p, k);
    var page := PageAt(arch, p.vaddr + k * PAGE_SIZE);
    var m' := m[page := Mapping(frame + k * PAGE_SIZE, MapFlags(p))];
    forall v {:trigger AsMapped(arch, pages, m', p, frame, k + 1, v)}
      ensures AsMapped(arch, pages, m', p, frame, k + 1, v)
    {
      assert AsMapped(arch, pages, m, p, frame, k, v);
      assert InFirst(arch, p, k + 1, v) <==> v == page || InFirst(arch, p, k, v);
    }
  }

  lemma OwnedNext(arch: Arch, pages: map<int, Mapping>, m: map<int, Mapping>, m': map<int, Mapping>,
      phdrs: seq<Phdr>, frames: seq<nat>, n: nat, page: int)
    requires n < |phdrs| == |frames| && phdrs[n].ptype == PT_LOAD
    requires AsOwned(arch, pages, m, phdrs, frames, n, page)
    requires AsMapped(arch, m, m', phdrs[n], frames[n], NumPages(phdrs[n]), page)
    ensures AsOwned(arch, pages, m', phdrs, frames, n + 1, page)
  {
  }

  class Machine {
    const arch: Arch
    const ram: array<int>
    /** The mapping of each page of the address space, by page number. */
    var pages: map<int, Mapping>

    constructor (arch: Arch, ram: array<int>, pages: map<int, Mapping>)
      ensures this.arch == arch && this.ram == ram && this.pages == pages
    {
      this.arch, this.ram, this.pages := arch, ram, pages;
    }

    /** Maps the page of an address. */
    method Map(vaddr: nat, phys: nat, flags: bv32)
      modifies this
      ensures pages == old(pages)[PageAt(arch, vaddr) := Mapping(phys, flags)]
    {
      pages := pages[PageAt(arch, vaddr) := Mapping(phys, flags)];
    }

    /** Copies the data of a segment to fresh pages, and clears what follows it. */
    method Fill(file: seq<int>, p: Phdr, filePhys: nat)
      requires Loadable(arch, file, p) && p.ptype == PT_LOAD && filePhys + NumPages(p) * PAGE_SIZE <= ram.Length
      modifies ram
      ensures forall a | filePhys <= a < filePhys + p.filesz :: ram[a] == file[p.offset + (a - filePhys)]
      ensures forall a | filePhys + p.filesz <= a < filePhys + p.memsz :: ram[a] == 0
      ensures forall a | 0 <= a < ram.Length && !(filePhys <= a < filePhys + p.memsz) :: ram[a] == old(ram[a])
    {
      forall i | 0 <= i < p.filesz {
        ram[filePhys + i] := file[p.offset + i];
      }
      forall i | p.filesz <= i < p.memsz {
        ram[filePhys + i] := 0;
      }
    }

    /** Maps the pages of a segment. */
    method MapPages(p: Phdr, filePhys: nat)
      requires p.vaddr / PAGE_SIZE < Space(arch) && p.memsz <= OFFSET_LIMIT
      modifies this
      ensures forall v {:trigger AsMapped(arch, old(pages), pages, p, filePhys, NumPages(p), v)} ::
        AsMapped(arch, old(pages), pages, p, filePhys, NumPages(p), v)
    {
      var flags := AS_GLOBAL | AS_NX;
      if p.flags & PF_X != 0 {
        flags := flags & !AS_NX;
      }
      if p.flags & PF_W != 0 {
        flags := flags | AS_RW;
      }
      assert flags == MapFlags(p);
      PageOffsetsIff(p.memsz);
      for i := 0 to NumPages(p)
        invariant forall v {:trigger AsMapped(arch, old(pages), pages, p, filePhys, i, v)} ::
          AsMapped(arch, old(pages), pages, p, filePhys, i, v)
      {
        ghost var m := pages;
        MappedNext(arch, old(pages), m, p, filePhys, i);
        assert PageOffset(i) == i * PAGE_SIZE;
        Map(p.vaddr + PageOffset(i), filePhys + PageOffset(i), flags);
        assert pages == m[PageAt(arch, p.vaddr + i * PAGE_SIZE) := Mapping(filePhys + i * PAGE_SIZE, MapFlags(p))];
      }
    }

    /** Loads one segment to the pages from frame on. */
    method LoadSegment(file: seq<int>, p: Phdr, frame: nat)
      requires Loadable(arch, file, p) && p.ptype == PT_LOAD && frame + NumPages(p) * PAGE_SIZE <= ram.Length
      modifies this, ram
      ensures InMemory(ram[..], file, p, frame)
      ensures forall a | 0 <= a < ram.Length && !InFrames(p, frame, a) :: ram[a] == old(ram[a])
      ensures forall v {:trigger AsMapped(arch, old(pages), pages, p, frame, NumPages(p), v)} ::
        AsMapped(arch, old(pages), pages, p, frame, NumPages(p), v)
    {
      Fill(file, p, frame);
      forall i: nat | i < p.memsz ensures ram[..][frame + i] == Image(file, p, i) {
        assert ram[..][frame + i] == ram[frame + i];
      }
      MapPages(p, frame);
    }

    /** Loads the program headers, the i-th of them to the pages at frames[i] that the firmware gives
        for it. A page that several segments have is mapped for the last of them. */
    method LoadSegments(file: seq<int>, phdrs: seq<Phdr>, frames: seq<nat>)
      requires Fit(arch, file, phdrs, frames, ram.Length)
      modifies this, ram
      ensures forall i | 0 <= i < |phdrs| && phdrs[i].ptype == PT_LOAD :: InMemory(ram[..], file, phdrs[i], frames[i])
      ensures forall v {:trigger AsOwned(arch, old(pages), pages, phdrs, frames, |phdrs|, v)} ::
        AsOwned(arch, old(pages), pages, phdrs, frames, |phdrs|, v)
    {
      for i := 0 to |phdrs|
        invariant forall j | 0 <= j < i && phdrs[j].ptype == PT_LOAD :: InMemory(ram[..], file, phdrs[j], frames[j])
        invariant forall v {:trigger AsOwned(arch, old(pages), pages, phdrs, frames, i, v)} ::
          AsOwned(arch, old(pages), pages, phdrs, frames, i, v)
      {
        ghost var r, m := ram[..], pages;
        if phdrs[i].ptype == PT_LOAD {
          LoadSegment(file, phdrs[i], frames[i]);
          forall j | 0 <= j < i && phdrs[j].ptype == PT_LOAD ensures InMemory(ram[..], file, phdrs[j], frames[j]) {
            SegmentStays(r, ram[..], file, phdrs[j], frames[j], phdrs[i], frames[i]);
          }
        }
        forall v {:trigger AsOwned(arch, old(pages), pages, phdrs, frames, i + 1, v)}
          ensures AsOwned(arch, old(pages), pages, phdrs, frames, i + 1, v)
        {
          assert AsOwned(arch, old(pages), m, phdrs, frames, i, v);
          if phdrs[i].ptype == PT_LOAD {
            assert AsMapped(arch, m, pages, phdrs[i], frames[i], NumPages(phdrs[i]), v);
            OwnedNext(arch, old(pages), m, pages, phdrs, frames, i, v);
          }
        }
      }
    }

    /** Loads a file if it is one for this architecture, and gives the entry point. */
    method LoadFile(file: seq<int>, h: Header, frames: seq<nat>) returns (r: Result)
      requires 6 <= |h.ident| && Fit(arch, file, h.phdrs, frames, ram.Length)
      modifies this, ram
      ensures Accepted(h, arch) <==> r == Loaded(h.entry)
      ensures r == AssertFails <==> Magic(h) && h.ident[4] != 1 && h.ident[4] != 2
      ensures !Accepted(h, arch) ==> pages == old(pages) && ram[..] == old(ram[..])
      ensures Accepted(h, arch) ==>
        forall i | 0 <= i < |h.phdrs| && h.phdrs[i].ptype == PT_LOAD :: InMemory(ram[..], file, h.phdrs[i], frames[i])
      ensures Accepted(h, arch) ==>
        forall v {:trigger AsOwned(arch, old(pages), pages, h.phdrs, frames, |h.phdrs|, v)} ::
          AsOwned(arch, old(pages), pages, h.phdrs, frames, |h.phdrs|, v)
    {
      if h.ident[0] != 0x7F || h.ident[1] != 'E' as int || h.ident[2] != 'L' as int || h.ident[3] != 'F' as int {
        return Rejected;
      }
      if h.ident[4] == 1 || h.ident[4] == 2 {
        if (if h.ident[4] == 1 then arch != I386 else arch == I386) {
          return Rejected;
        }
        if h.ident[5] != 1 {
          return Rejected;
        }
        if h.machine != MachineOf(arch) {
          return Rejected;
        }
        LoadSegments(file, h.phdrs, frames);
        return Loaded(h.entry);
      }
      r := AssertFails;
    }
  }

  /** The byte that an address of a mapped page reads as. */
  ghost function ReadAt(arch: Arch, ram: seq<int>, pages: map<int, Mapping>, v: nat): int
    requires PageAt(arch, v) in pages
  {
    var a := pages[PageAt(arch, v)].phys + v % PAGE_SIZE;
    if a < |ram| then ram[a] else 0
  }

  /** What the program finds: from the start of its first page on, and so from its own start if it starts
      on a page, a segment reads as the bytes of the file, and zeros behind the file data, and can be
      written and executed exactly as it says, in each page that no later segment has. */
  lemma SegmentAsAsked(arch: Arch, ram: seq<int>, pages: map<int, Mapping>, pages': map<int, Mapping>, file: seq<int>,
      phdrs: seq<Phdr>, frames: seq<nat>, o: nat, i: nat, addr: nat)
    requires o < |phdrs| == |frames| && phdrs[o].ptype == PT_LOAD && Loadable(arch, file, phdrs[o])
    requires i < phdrs[o].memsz && InMemory(ram, file, phdrs[o], frames[o])
    requires addr == phdrs[o].vaddr - phdrs[o].vaddr % PAGE_SIZE + i
    requires AsOwned(arch, pages, pages', phdrs, frames, |phdrs|, PageAt(arch, addr))
    requires forall j | o < j < |phdrs| :: !InPages(arch, phdrs[j], PageAt(arch, addr))
    ensures PageAt(arch, addr) in pages'
    ensures ReadAt(arch, ram, pages', addr) == if i < phdrs[o].filesz then file[phdrs[o].offset + i] else 0
    ensures pages'[PageAt(arch, addr)].flags & 2 != 0 <==> phdrs[o].flags & 2 != 0
    ensures pages'[PageAt(arch, addr)].flags & 8 == 0 <==> phdrs[o].flags & 1 != 0
    ensures pages'[PageAt(arch, addr)].flags & 4 != 0
  {
    var p, frame := phdrs[o], frames[o];
    var k := i / PAGE_SIZE;
    assert addr / PAGE_SIZE == p.vaddr / PAGE_SIZE + k && addr % PAGE_SIZE == i % PAGE_SIZE;
    PageIndex(arch, p, k);
    assert PageAt(arch, addr) == PageAt(arch, p.vaddr + k * PAGE_SIZE);
    OwnerIs(arch, phdrs, |phdrs|, PageAt(arch, addr), o);
    assert frame + k * PAGE_SIZE + i % PAGE_SIZE == frame + i;
    assert ram[frame + i] == Image(file, p, i);
    FlagsAsAsked(p);
  }

  lemma FlagsAsAsked(p: Phdr)
    ensures MapFlags(p) & 2 != 0 <==> p.flags & 2 != 0
    ensures MapFlags(p) & 8 == 0 <==> p.flags & 1 != 0
    ensures MapFlags(p) & 4 != 0
  {
  }

  /** Filling the pages given for a segment q leaves those of a segment p. */
  lemma SegmentStays(ram: seq<int>, ram': seq<int>, file: seq<int>, p: Phdr, frame: nat, q: Phdr, frame': nat)
    requires InMemory(ram, file, p, frame) && q.ptype == PT_LOAD && |ram'| == |ram|
    requires forall a | 0 <= a < |ram| && !InFrames(q, frame', a) :: ram'[a] == ram[a]
    requires Apart(frame, NumPages(p), frame', NumPages(q))
    ensures InMemory(ram', file, p, frame)
  {
  }

  /** The address is in the pages given for a segment. */
  predicate InFrames(p: Phdr, frame: nat, a: int) {
    p.ptype == PT_LOAD && frame <= a < frame + NumPages(p) * PAGE_SIZE
  }

  /** Segments can be loaded, and the pages given for them by the firmware do not meet. */
  ghost predicate Fit(arch: Arch, file: seq<int>, phdrs: seq<Phdr>, frames: seq<nat>, size: nat) {
    && |frames| == |phdrs|
    && (forall i | 0 <= i < |phdrs| :: Loadable(arch, file, phdrs[i]))
    && (forall i | 0 <= i < |phdrs| && phdrs[i].ptype == PT_LOAD :: frames[i] + NumPages(phdrs[i]) * PAGE_SIZE <= size)
    && (forall i, j | 0 <= i < j < |phdrs| && phdrs[i].ptype == PT_LOAD && phdrs[j].ptype == PT_LOAD ::
          Apart(frames[i], NumPages(phdrs[i]), frames[j], NumPages(phdrs[j])))
  }
}
