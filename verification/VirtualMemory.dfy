/** The paging code of simpleos over physical memory addressed directly: page directories and page
    tables are frames of `mem`, and pointers to them are frame numbers. */
module VirtualMemory {
  import opened Bits
  import opened PhysicalMemory
  import opened PageTables

  /** A `pte_t*`: NULL, or the first word of a frame. */
  datatype TablePointer = Null | Frame(frame: nat)

  class AddressSpaces {
    const frames: FrameAllocator
    const mem: array<Word>
    const kernelPd: nat                 // frame of kernel_page_directory
    const firstTable: nat               // frame of first_page_table
    var currentPd: Word                 // current_pd_phys
    ghost var dirs: set<nat>            // every directory made and not destroyed

    ghost predicate Shape()
      reads this, frames, frames.bitmap, mem
    {
      && frames.Valid() && mem != frames.bitmap && mem.Length == MAX_PAGES * PAGE_ENTRIES
      && currentPd % PAGE_SIZE == 0 && currentPd / PAGE_SIZE in dirs
    }

    ghost predicate Valid()
      reads this, frames, frames.bitmap, mem
    {
      Shape() && WellFormed(mem[..], dirs, frames.Used(), kernelPd)
    }

    ghost function Current(): nat
      reads this
    {
      currentPd / PAGE_SIZE
    }

    ghost predicate OutOfFrames()
      requires Shape()
      reads this, frames, frames.bitmap, mem
    {
      forall s: nat :: !FreeRun(frames.Used(), frames.totalPages, s, 1)
    }

    /** How many frames the allocator can still hand out. */
    ghost function FreeCount(): nat
      requires Shape()
      reads this, frames, frames.bitmap, mem
    {
      |FreeFrames(frames.Used(), frames.totalPages)|
    }

    /** vmm_init: identity-maps the first 4 MB through first_page_table; the two frames lie in the
        kernel image and so are marked used. */
    constructor (frames: FrameAllocator, mem: array<Word>, kernelPd: nat, firstTable: nat)
      requires frames.Valid() && mem != frames.bitmap && mem.Length == MAX_PAGES * PAGE_ENTRIES
      requires kernelPd in frames.Used() && firstTable in frames.Used() && kernelPd != firstTable
      modifies mem
      ensures Valid() && this.frames == frames && this.mem == mem
      ensures this.kernelPd == kernelPd && this.firstTable == firstTable
      ensures dirs == {kernelPd} && Current() == kernelPd && Live(mem[..], dirs) == {kernelPd, firstTable}
      ensures forall v: nat :: v < PAGES ==>
        Entry(mem[..], kernelPd, v) == if v < 1024 then v * 4096 + 7 else 0
      ensures forall k: nat :: Present(At(mem[..], kernelPd, k)) <==> k == 0
      ensures forall v: nat :: v < PAGES ==>
        (UserMayRead(mem[..], kernelPd, v) <==> v < 1024) && (UserMayWrite(mem[..], kernelPd, v) <==> v < 1024)
    {
      this.frames, this.mem, this.kernelPd, this.firstTable := frames, mem, kernelPd, firstTable;
      this.currentPd, this.dirs := kernelPd * PAGE_SIZE, {kernelPd};
      new;
      SetUp();
    }

    method SetUp()
      requires frames.Valid() && mem != frames.bitmap && mem.Length == MAX_PAGES * PAGE_ENTRIES
      requires kernelPd in frames.Used() && firstTable in frames.Used() && kernelPd != firstTable
      requires currentPd == kernelPd * PAGE_SIZE && dirs == {kernelPd}
      modifies mem
      ensures Valid() && Current() == kernelPd && Live(mem[..], dirs) == {kernelPd, firstTable}
      ensures forall v: nat :: v < PAGES ==>
        Entry(mem[..], kernelPd, v) == if v < 1024 then v * 4096 + 7 else 0
      ensures forall k: nat :: Present(At(mem[..], kernelPd, k)) <==> k == 0
      ensures forall v: nat :: v < PAGES ==>
        (UserMayRead(mem[..], kernelPd, v) <==> v < 1024) && (UserMayWrite(mem[..], kernelPd, v) <==> v < 1024)
    {
      FillBootTables();
      BootDirectory(mem[..], frames.Used(), kernelPd, firstTable);
      BootAccess(mem[..], frames.Used(), kernelPd);
      forall k: nat
        ensures Present(At(mem[..], kernelPd, k)) <==> k == 0
      {
        BootPointer(mem[..], kernelPd, firstTable, k);
      }
    }

    method FillBootTables()
      requires mem.Length == MAX_PAGES * PAGE_ENTRIES
      requires kernelPd < MAX_PAGES && firstTable < MAX_PAGES && kernelPd != firstTable
      modifies mem
      ensures IsBootDirectory(mem[..], kernelPd, firstTable)
    {
      ZeroPage(kernelPd);
      ZeroPage(firstTable);
      var i := 0;
      while i < PAGE_ENTRIES
        invariant 0 <= i <= PAGE_ENTRIES
        invariant forall j: nat :: At(mem[..], firstTable, j) == if j < i then j * PAGE_SIZE + TABLE_FLAGS else 0
        invariant forall j: nat :: At(mem[..], kernelPd, j) == 0
      {
        WriteWord(firstTable, i, i * PAGE_SIZE + TABLE_FLAGS);
        i := i + 1;
      }
      WriteWord(kernelPd, 0, firstTable * PAGE_SIZE + TABLE_FLAGS);
    }

    function ReadWord(frame: nat, i: nat): (w: Word)
      requires mem.Length == MAX_PAGES * PAGE_ENTRIES && frame < MAX_PAGES && i < PAGE_ENTRIES
      reads mem
      ensures w == At(mem[..], frame, i)
    {
      mem[frame * PAGE_ENTRIES + i]
    }

    method WriteWord(frame: nat, i: nat, w: Word)
      requires mem.Length == MAX_PAGES * PAGE_ENTRIES && frame < MAX_PAGES && i < PAGE_ENTRIES
      modifies mem
      ensures forall g: nat, j: nat ::
        At(mem[..], g, j) == if g == frame && j == i then w else old(At(mem[..], g, j))
    {
      OneWord(mem[..], frame, i, w);
      mem[frame * PAGE_ENTRIES + i] := w;
      assert mem[..] == old(mem[..])[frame * PAGE_ENTRIES + i := w];
    }

    method ZeroPage(frame: nat)
      requires mem.Length == MAX_PAGES * PAGE_ENTRIES && frame < MAX_PAGES
      modifies mem
      ensures forall g: nat, j: nat :: At(mem[..], g, j) == if g == frame then 0 else old(At(mem[..], g, j))
    {
      var i := 0;
      while i < PAGE_ENTRIES
        invariant 0 <= i <= PAGE_ENTRIES
        invariant forall g: nat, j: nat ::
          At(mem[..], g, j) == if g == frame && j < i then 0 else old(At(mem[..], g, j))
      {
        WriteWord(frame, i, 0);
        i := i + 1;
      }
    }

    /** Enters an empty table at an absent index of the current directory, if a frame is left. */
    method InstallTable(pdIndex: nat) returns (ok: bool)
      requires Valid() && pdIndex < PAGE_ENTRIES && !Present(At(mem[..], Current(), pdIndex))
      modifies frames`usedPages, frames.bitmap, mem
      ensures Valid() && frames.totalPages == old(frames.totalPages)
      ensures ok <==> !old(OutOfFrames())
      ensures !ok ==> mem[..] == old(mem[..]) && frames.Used() == old(frames.Used())
      ensures ok ==> TablesAdded(old(mem[..]), mem[..], Current(), {pdIndex})
      ensures ok ==> FreeCount() == old(FreeCount()) - 1
      ensures SameEntries(old(mem[..]), mem[..], dirs)
      ensures Grown(old(mem[..]), old(frames.Used()), mem[..], frames.Used(), dirs)
      ensures |frames.Used() - old(frames.Used())| <= 1
    {
      ghost var used0 := frames.Used();
      var ptPhys := frames.AllocPage();
      if ptPhys == 0 {
        return false;
      }
      FrameTaken(used0, frames.totalPages, ptPhys / PAGE_SIZE);
      EnterTable(pdIndex, ptPhys, used0);
      return true;
    }

    /** Zeroes the frame just allocated and points the directory entry to it. */
    method EnterTable(pdIndex: nat, ptPhys: Word, ghost used0: set<nat>)
      requires Shape() && WellFormed(mem[..], dirs, used0, kernelPd) && ptPhys % PAGE_SIZE == 0
      requires pdIndex < PAGE_ENTRIES && !Present(At(mem[..], Current(), pdIndex))
      requires 0 < ptPhys / PAGE_SIZE < MAX_PAGES && ptPhys / PAGE_SIZE !in used0
      requires frames.Used() == used0 + {ptPhys / PAGE_SIZE}
      modifies mem
      ensures Valid() && SameEntries(old(mem[..]), mem[..], dirs)
      ensures TablesAdded(old(mem[..]), mem[..], Current(), {pdIndex})
      ensures Grown(old(mem[..]), used0, mem[..], frames.Used(), dirs) && |frames.Used() - used0| <= 1
    {
      ghost var m0 := mem[..];
      var t := ptPhys / PAGE_SIZE;
      ZeroPage(t);
      WriteWord(currentPd / PAGE_SIZE, pdIndex, ptPhys + TABLE_FLAGS);
      NewTable(m0, mem[..], dirs, used0, kernelPd, Current(), pdIndex, t);
      LiveUsed(m0, dirs, used0, kernelPd);
      OneTableGrown(m0, used0, mem[..], frames.Used(), dirs, t);
    }

    /** The page table for a virtual address under the current directory, made when missing if
        `create`.  No translation changes; a null result with `create` means no frame was left. */
    method GetPageTable(virt: Word, create: bool) returns (pt: TablePointer)
      requires Valid()
      modifies frames`usedPages, frames.bitmap, mem
      ensures Valid() && frames.totalPages == old(frames.totalPages)
      ensures SameEntries(old(mem[..]), mem[..], dirs)
      ensures Grown(old(mem[..]), old(frames.Used()), mem[..], frames.Used(), dirs)
      ensures |frames.Used() - old(frames.Used())| <= 1
      ensures !create || pt == Null || old(Present(PdeOf(virt))) ==>
        mem[..] == old(mem[..]) && frames.Used() == old(frames.Used())
      ensures pt == if Present(PdeOf(virt)) then Frame(FrameOf(PdeOf(virt))) else Null
      ensures create ==> (pt == Null <==> old(OutOfFrames() && !Present(PdeOf(virt))))
      ensures pt != Null ==> TablesAdded(old(mem[..]), mem[..], Current(), old(TableNeeded(virt)))
      ensures pt != Null ==> FreeCount() == old(FreeCount() - |TableNeeded(virt)|)
    {
      var pdIndex := virt / PAGE_SIZE / PAGE_ENTRIES;
      var pd := currentPd / PAGE_SIZE;
      if !Present(ReadWord(pd, pdIndex)) {
        if !create {
          return Null;
        }
        var ok := InstallTable(pdIndex);
        if !ok {
          return Null;
        }
      }
      return Frame(FrameOf(ReadWord(pd, pdIndex)));
    }

    ghost function PdeOf(virt: Word): Word
      requires Shape()
      reads this, frames, frames.bitmap, mem
    {
      At(mem[..], Current(), virt / PAGE_SIZE / PAGE_ENTRIES)
    }

    /** The directory index at which mapping the page has to add a table, if any. */
    ghost function TableNeeded(virt: Word): set<nat>
      requires Shape()
      reads this, frames, frames.bitmap, mem
    {
      if Present(PdeOf(virt)) then {} else {virt / PAGE_SIZE / PAGE_ENTRIES}
    }

    /** Maps one page, replacing what was there.  It fails only when a page table is missing and no
        frame is left, and then nothing has changed. */
    method MapPage(virt: Word, phys: Word, flags: Word) returns (ok: bool)
      requires Valid()
      modifies frames`usedPages, frames.bitmap, mem
      ensures Valid() && frames.totalPages == old(frames.totalPages)
      ensures ok <==> !old(OutOfFrames() && !Present(PdeOf(virt)))
      ensures !ok ==> mem[..] == old(mem[..]) && frames.Used() == old(frames.Used())
      ensures ok ==> Updated(old(mem[..]), mem[..], dirs, Current(), virt / PAGE_SIZE, MakeEntry(phys, flags))
      ensures Grown(old(mem[..]), old(frames.Used()), mem[..], frames.Used(), dirs)
      ensures |frames.Used() - old(frames.Used())| <= 1
      ensures ok ==> TablesAdded(old(mem[..]), mem[..], Current(), old(TableNeeded(virt)))
      ensures ok ==> FreeCount() == old(FreeCount() - |TableNeeded(virt)|)
      ensures ok ==> (UserMayRead(mem[..], Current(), virt / PAGE_SIZE) <==> Test(flags, 2))
      ensures ok ==> (UserMayWrite(mem[..], Current(), virt / PAGE_SIZE) <==> Test(flags, 2) && Test(flags, 1))
    {
      ghost var m0 := mem[..];
      var pt := GetPageTable(virt, true);
      if pt == Null {
        return false;
      }
      WriteEntry(virt, pt.frame, MakeEntry(phys, flags), m0);
      EntryBits(phys, flags);
      PageDecides(mem[..], dirs, Current(), virt / PAGE_SIZE);
      return true;
    }

    /** `pt[pt_index] = w` */
    method WriteEntry(virt: Word, pt: nat, w: Word, ghost m0: Memory)
      requires Valid() && Present(PdeOf(virt)) && pt == FrameOf(PdeOf(virt))
      requires SameEntries(m0, mem[..], dirs) && SameSharing(m0, mem[..], dirs)
      requires w == 0 || Present(w)
      modifies mem
      ensures Valid() && Live(mem[..], dirs) == old(Live(mem[..], dirs)) && SameSharing(m0, mem[..], dirs)
      ensures Updated(m0, mem[..], dirs, Current(), virt / PAGE_SIZE, w)
      ensures forall k: nat :: At(mem[..], Current(), k) == old(At(mem[..], Current(), k))
    {
      ghost var m1 := mem[..];
      assert Points(m1, Current(), virt / PAGE_SIZE / PAGE_ENTRIES, pt);
      WriteWord(pt, virt / PAGE_SIZE % PAGE_ENTRIES, w);
      SetEntry(m1, mem[..], dirs, frames.Used(), kernelPd, Current(), virt / PAGE_SIZE, w);
    }

    /** Removes one page's mapping, if any; no table is given back. */
    method UnmapPage(virt: Word)
      requires Valid()
      modifies mem
      ensures Valid() && Live(mem[..], dirs) == old(Live(mem[..], dirs))
      ensures Updated(old(mem[..]), mem[..], dirs, Current(), virt / PAGE_SIZE, 0)
      ensures SameSharing(old(mem[..]), mem[..], dirs)
    {
      ghost var m0 := mem[..];
      var pt := LookupTable(virt);
      if pt == Null {
        return;
      }
      WriteEntry(virt, pt.frame, 0, m0);
    }

    /** `get_page_table(virt, false)` */
    function LookupTable(virt: Word): (pt: TablePointer)
      requires Valid()
      reads this, frames, frames.bitmap, mem
      ensures pt == if Present(PdeOf(virt)) then Frame(FrameOf(PdeOf(virt))) else Null
      ensures pt.Frame? ==> pt.frame < MAX_PAGES
    {
      assert Points(mem[..], Current(), virt / PAGE_SIZE / PAGE_ENTRIES, FrameOf(PdeOf(virt)))
        ==> FrameOf(PdeOf(virt)) < MAX_PAGES;
      var pde := ReadWord(currentPd / PAGE_SIZE, virt / PAGE_SIZE / PAGE_ENTRIES);
      if Present(pde) then Frame(FrameOf(pde)) else Null
    }

    /** The physical address of a virtual one; 0 when unmapped. */
    function GetPhysical(virt: Word): (phys: Word)
      requires Valid()
      reads this, frames, frames.bitmap, mem
      ensures phys ==
        if Present(Entry(mem[..], Current(), virt / PAGE_SIZE))
        then FrameOf(Entry(mem[..], Current(), virt / PAGE_SIZE)) * PAGE_SIZE + virt % PAGE_SIZE else 0
    {
      match LookupTable(virt)
      case Null => 0
      case Frame(pt) =>
        var pte := ReadWord(pt, virt / PAGE_SIZE % PAGE_ENTRIES);
        if Present(pte) then pte / PAGE_SIZE * PAGE_SIZE + virt % PAGE_SIZE else 0
    }

    predicate IsMapped(virt: Word)
      requires Valid()
      reads this, frames, frames.bitmap, mem
      ensures IsMapped(virt) <==> virt / PAGE_SIZE in Translation(mem[..], Current())
    {
      match LookupTable(virt)
      case Null => false
      case Frame(pt) => Present(ReadWord(pt, virt / PAGE_SIZE % PAGE_ENTRIES))
    }

    /** Unmaps the pages of a range; the page count is computed in 32 bits. */
    method UnmapRange(virtStart: Word, size: Word)
      requires Valid()
      modifies mem
      ensures Valid() && Live(mem[..], dirs) == old(Live(mem[..], dirs))
      ensures SameSharing(old(mem[..]), mem[..], dirs)
      ensures RangeUpdated(old(mem[..]), mem[..], dirs, Current(), virtStart / PAGE_SIZE, PagesIn(size), Cleared)
    {
      var pages := PagesIn(size);
      ghost var m0 := mem[..];
      var i := 0;
      while i < pages
        invariant 0 <= i <= pages && Valid() && Live(mem[..], dirs) == old(Live(mem[..], dirs))
        invariant SameSharing(m0, mem[..], dirs)
        invariant RangeUpdated(m0, mem[..], dirs, Current(), virtStart / PAGE_SIZE, i, Cleared)
      {
        ghost var m1 := mem[..];
        UnmapPage(PageAddress(virtStart, i));
        PageOfStep(virtStart, i);
        RangeStep(m0, m1, mem[..], dirs, Current(), virtStart / PAGE_SIZE, i, Cleared);
        i := i + 1;
      }
    }

    /** Maps a range of pages to consecutive frames.  It fails exactly when the range needs more tables than
        there are free frames, at the first page whose table is one too many.  The pages before that page are
        then left unmapped: that is the earlier translation if and only if none of them was mapped before. */
    method MapRange(virtStart: Word, physStart: Word, size: Word, flags: Word) returns (ok: bool, ghost done: nat)
      requires Valid()
      modifies frames`usedPages, frames.bitmap, mem
      ensures Valid() && frames.totalPages == old(frames.totalPages)
      ensures Grown(old(mem[..]), old(frames.Used()), mem[..], frames.Used(), dirs)
      ensures done == old(MappablePages(virtStart, PagesIn(size)))
      ensures ok <==> |old(MissingTables(virtStart, PagesIn(size)))| <= old(FreeCount())
      ensures ok <==> done == PagesIn(size)
      ensures ok ==> RangeMapped(old(mem[..]), virtStart, done, physStart, flags)
      ensures !ok ==>
        RangeUpdated(old(mem[..]), mem[..], dirs, Current(), virtStart / PAGE_SIZE, done, Cleared)
      ensures !ok ==>
        (SameEntries(old(mem[..]), mem[..], dirs) <==>
          RangeAbsent(old(mem[..]), Current(), virtStart / PAGE_SIZE, done))
    {
      var pages := PagesIn(size);
      ghost var m0, used0, free0, v0 := mem[..], frames.Used(), FreeCount(), virtStart / PAGE_SIZE;
      NoneMissing(m0, Current(), v0);
      done := 0;
      var i := 0;
      while i < pages
        invariant 0 <= i == done <= pages && Valid() && frames.totalPages == old(frames.totalPages)
        invariant Grown(m0, used0, mem[..], frames.Used(), dirs)
        invariant RangeMapped(m0, virtStart, i, physStart, flags)
        invariant Taken(m0, free0, v0, i)
      {
        PageOfStep(virtStart, i);
        var virt, phys := PageAddress(virtStart, i), PageAddress(physStart, i);
        ok := MapNext(virt, phys, flags, virtStart, physStart, i, m0, used0, free0);
        if !ok {
          MappableIs(m0, Current(), v0, pages, free0, i);
          RollBack(virtStart, physStart, flags, i, m0);
          return false, i;
        }
        i := i + 1;
        done := i;
      }
      MappableIs(m0, Current(), v0, pages, free0, pages);
      return true, done;
    }

    /** The directory indices at which the first n pages from an address on have no table. */
    ghost function MissingTables(virtStart: Word, n: nat): set<nat>
      requires Shape()
      reads this, frames, frames.bitmap, mem
    {
      Missing(mem[..], Current(), virtStart / PAGE_SIZE, n)
    }

    /** How many of the first n pages can be mapped before the free frames run out. */
    ghost function MappablePages(virtStart: Word, n: nat): nat
      requires Shape()
      reads this, frames, frames.bitmap, mem
    {
      Mappable(mem[..], Current(), virtStart / PAGE_SIZE, n, FreeCount())
    }

    /** Since m0, when free0 frames were free, the first n pages from v0 on took the tables they needed. */
    ghost predicate Taken(m0: Memory, free0: nat, v0: nat, n: nat)
      requires Shape()
      reads this, frames, frames.bitmap, mem
    {
      && TablesAdded(m0, mem[..], Current(), Missing(m0, Current(), v0, n))
      && FreeCount() + |Missing(m0, Current(), v0, n)| == free0
    }

    /** Since m0, the first n pages of the range came to be mapped to consecutive frames. */
    ghost predicate RangeMapped(m0: Memory, virtStart: Word, n: nat, physStart: Word, flags: Word)
      requires Shape()
      reads this, frames, frames.bitmap, mem
    {
      RangeUpdated(m0, mem[..], dirs, Current(), virtStart / PAGE_SIZE, n, RangeEntries(physStart, flags))
    }

    /** One round of the loop of MapRange. */
    method MapNext(virt: Word, phys: Word, flags: Word, ghost virtStart: Word, ghost physStart: Word,
                   ghost i: nat, ghost m0: Memory, ghost used0: set<nat>, ghost free0: nat)
      returns (ok: bool)
      requires Valid() && i + 1 < PAGES && RangeMapped(m0, virtStart, i, physStart, flags)
      requires virt / PAGE_SIZE == PageAt(virtStart / PAGE_SIZE, i)
      requires RangeEntries(physStart, flags)(i) == MakeEntry(phys, flags)
      requires Grown(m0, used0, mem[..], frames.Used(), dirs) && Taken(m0, free0, virtStart / PAGE_SIZE, i)
      modifies frames`usedPages, frames.bitmap, mem
      ensures Valid() && frames.totalPages == old(frames.totalPages)
      ensures Grown(m0, used0, mem[..], frames.Used(), dirs)
      ensures RangeMapped(m0, virtStart, if ok then i + 1 else i, physStart, flags)
      ensures ok ==> Taken(m0, free0, virtStart / PAGE_SIZE, i + 1)
      ensures !ok ==> |Missing(m0, Current(), virtStart / PAGE_SIZE, i)| <= free0
      ensures !ok ==> free0 < |Missing(m0, Current(), virtStart / PAGE_SIZE, i + 1)|
    {
      ghost var m1, used1 := mem[..], frames.Used();
      ok := MapCounted(virt, phys, flags, virtStart / PAGE_SIZE, i, m0, free0);
      if ok {
        ghost var m2, used2, w := mem[..], frames.Used(), RangeEntries(physStart, flags);
        GrownTwice(m0, used0, m1, used1, m2, used2, dirs);
        RangeStep(m0, m1, m2, dirs, Current(), virtStart / PAGE_SIZE, i, w);
      }
    }

    /** MapPage on page i of a range, with the account of tables kept. */
    method MapCounted(virt: Word, phys: Word, flags: Word,
                      ghost v0: nat, ghost i: nat, ghost m0: Memory, ghost free0: nat)
      returns (ok: bool)
      requires Valid() && virt / PAGE_SIZE == PageAt(v0, i) && Taken(m0, free0, v0, i)
      modifies frames`usedPages, frames.bitmap, mem
      ensures Valid() && frames.totalPages == old(frames.totalPages)
      ensures Grown(old(mem[..]), old(frames.Used()), mem[..], frames.Used(), dirs)
      ensures !ok ==> mem[..] == old(mem[..]) && frames.Used() == old(frames.Used())
      ensures ok ==> Updated(old(mem[..]), mem[..], dirs, Current(), PageAt(v0, i), MakeEntry(phys, flags))
      ensures ok ==> Taken(m0, free0, v0, i + 1)
      ensures !ok ==> |Missing(m0, Current(), v0, i)| <= free0 < |Missing(m0, Current(), v0, i + 1)|
    {
      ghost var m1 := mem[..];
      TablesCount(m0, m1, Current(), v0, i);
      NoneFree(frames.Used(), frames.totalPages);
      ok := MapPage(virt, phys, flags);
      if ok {
        TablesStep(m0, m1, mem[..], Current(), v0, i);
      }
    }

    /** `vmm_unmap_range(virt_start, i * PAGE_SIZE)` after page i could not be mapped. */
    method RollBack(virtStart: Word, ghost physStart: Word, ghost flags: Word, i: nat, ghost m0: Memory)
      requires Valid() && i < PAGES && SameSharing(m0, mem[..], dirs) && EntriesClean(m0, dirs)
      requires RangeMapped(m0, virtStart, i, physStart, flags)
      modifies mem
      ensures Valid() && Live(mem[..], dirs) == old(Live(mem[..], dirs)) && SameSharing(m0, mem[..], dirs)
      ensures RangeUpdated(m0, mem[..], dirs, Current(), virtStart / PAGE_SIZE, i, Cleared)
      ensures SameEntries(m0, mem[..], dirs) <==> RangeAbsent(m0, Current(), virtStart / PAGE_SIZE, i)
    {
      ghost var m1 := mem[..];
      UnmapRange(virtStart, i * PAGE_SIZE);
      assert PagesIn(i * PAGE_SIZE) == i;
      RangeUndone(m0, m1, mem[..], dirs, Current(), virtStart / PAGE_SIZE, i, RangeEntries(physStart, flags));
      ClearedRange(m0, mem[..], dirs, Current(), virtStart / PAGE_SIZE, i);
    }

    /** Makes a directory with the kernel's entries 0 and 768..1023; 0 when no frame is left. */
    method CreatePageDirectory() returns (pdPhys: Word)
      requires Valid()
      modifies this`dirs, frames`usedPages, frames.bitmap, mem
      ensures Valid() && frames.totalPages == old(frames.totalPages)
      ensures pdPhys == 0 <==> old(OutOfFrames())
      ensures pdPhys == 0 ==>
        dirs == old(dirs) && mem[..] == old(mem[..]) && frames.Used() == old(frames.Used())
      ensures pdPhys != 0 ==>
        && pdPhys % PAGE_SIZE == 0 && pdPhys / PAGE_SIZE !in old(frames.Used())
        && dirs == old(dirs) + {pdPhys / PAGE_SIZE}
        && frames.Used() == old(frames.Used()) + {pdPhys / PAGE_SIZE}
        && Live(mem[..], dirs) == old(Live(mem[..], dirs)) + {pdPhys / PAGE_SIZE}
      ensures SameEntries(old(mem[..]), mem[..], old(dirs)) && SameSharing(old(mem[..]), mem[..], old(dirs))
      ensures pdPhys != 0 ==> forall v: nat :: v < PAGES ==>
        Entry(mem[..], pdPhys / PAGE_SIZE, v) ==
          if v < 1024 || 0xC_0000 <= v then old(Entry(mem[..], kernelPd, v)) else 0
    {
      ghost var m0, used0, dirs0 := mem[..], frames.Used(), dirs;
      pdPhys := frames.AllocPage();
      if pdPhys == 0 {
        return;
      }
      var pd := pdPhys / PAGE_SIZE;
      FillDirectory(pd);
      NewDirectory(m0, mem[..], dirs0, used0, kernelPd, pd);
      dirs := dirs + {pd};
    }

    method FillDirectory(pd: nat)
      requires mem.Length == MAX_PAGES * PAGE_ENTRIES && pd < MAX_PAGES && kernelPd < MAX_PAGES && pd != kernelPd
      modifies mem
      ensures CopiesKernel(old(mem[..]), mem[..], kernelPd, pd)
    {
      ghost var m0 := mem[..];
      var i := 0;
      while i < USER_ENTRIES
        invariant 0 <= i <= USER_ENTRIES && OnlyFrame(m0, mem[..], pd)
        invariant forall j: nat :: j < i ==> At(mem[..], pd, j) == 0
      {
        WriteWord(pd, i, 0);
        i := i + 1;
      }
      while i < PAGE_ENTRIES
        invariant USER_ENTRIES <= i <= PAGE_ENTRIES && OnlyFrame(m0, mem[..], pd)
        invariant forall j: nat :: j < i ==> At(mem[..], pd, j) == if j < USER_ENTRIES then 0 else At(m0, kernelPd, j)
      {
        WriteWord(pd, i, ReadWord(kernelPd, i));
        i := i + 1;
      }
      WriteWord(pd, 0, ReadWord(kernelPd, 0));
    }

    method SwitchPageDirectory(pdPhys: Word)
      requires Valid() && pdPhys % PAGE_SIZE == 0 && pdPhys / PAGE_SIZE in dirs
      modifies this`currentPd
      ensures Valid() && currentPd == pdPhys
    {
      if pdPhys != currentPd {
        currentPd := pdPhys;
      }
    }

    /** Allocates a frame, maps it at a page-aligned address and zeroes it.  A failure changes
        neither the bitmap, its count, nor memory. */
    method AllocPage(virt: Word, flags: Word) returns (ok: bool, ghost p: nat)
      requires Valid() && virt % PAGE_SIZE == 0
      modifies frames`usedPages, frames.bitmap, mem
      ensures Valid() && frames.totalPages == old(frames.totalPages)
      ensures !ok ==> mem[..] == old(mem[..]) && frames.Used() == old(frames.Used())
      ensures !ok ==> frames.usedPages == old(frames.usedPages)
      ensures ok <==> !old(OutOfFrames()) && !old(OneLeft(frames.Used(), frames.totalPages) && !Present(PdeOf(virt)))
      ensures ok ==> LowestFreeRun(old(frames.Used()), frames.totalPages, p, 1)
      ensures ok ==> PageAllocated(old(mem[..]), old(frames.Used()), mem[..], frames.Used(), dirs, p)
      ensures ok ==>
        Updated(old(mem[..]), mem[..], dirs, Current(), virt / PAGE_SIZE, MakeEntry(p * PAGE_SIZE, flags))
      ensures ok ==> forall j: nat :: At(mem[..], p, j) == 0
    {
      ghost var m0, used0 := mem[..], frames.Used();
      p := 0;
      var phys := TakeFrame();
      if phys == 0 {
        return false, p;
      }
      p := phys / PAGE_SIZE;
      TakenLast(used0, frames.totalPages, p);
      assert mem[..] == m0 && p * PAGE_SIZE == phys;
      ok := MapFresh(virt, phys, flags, used0);
      if ok {
        ZeroMapped(GetPhysical(virt) / PAGE_SIZE);
      }
    }

    /** A frame from the allocator is no live directory or table. */
    method TakeFrame() returns (phys: Word)
      requires Valid()
      modifies frames`usedPages, frames.bitmap
      ensures Valid() && frames.totalPages == old(frames.totalPages) && Live(mem[..], dirs) <= old(frames.Used())
      ensures phys == 0 <==> old(OutOfFrames())
      ensures phys == 0 ==> frames.Used() == old(frames.Used()) && frames.usedPages == old(frames.usedPages)
      ensures phys != 0 ==>
        && phys % PAGE_SIZE == 0
        && LowestFreeRun(old(frames.Used()), frames.totalPages, phys / PAGE_SIZE, 1)
        && frames.Used() == old(frames.Used()) + {phys / PAGE_SIZE}
    {
      ghost var used0 := frames.Used();
      LiveUsed(mem[..], dirs, used0, kernelPd);
      phys := frames.AllocPage();
      OnlyLiveMatters(mem[..], dirs, used0, frames.Used(), kernelPd);
    }

    /** The part of vmm_alloc_page that maps the frame just allocated, or frees it again. */
    method MapFresh(virt: Word, phys: Word, flags: Word, ghost used0: set<nat>) returns (ok: bool)
      requires Valid() && phys % PAGE_SIZE == 0 && FreeRun(used0, frames.totalPages, phys / PAGE_SIZE, 1)
      requires frames.Used() == used0 + {phys / PAGE_SIZE} && Live(mem[..], dirs) <= used0
      modifies frames`usedPages, frames.bitmap, mem
      ensures Valid() && frames.totalPages == old(frames.totalPages)
      ensures ok <==> !old(OutOfFrames() && !Present(PdeOf(virt)))
      ensures !ok ==> mem[..] == old(mem[..]) && frames.Used() == used0
      ensures ok ==>
        && AllocationHolds(old(mem[..]), used0, mem[..], frames.Used(), dirs, phys / PAGE_SIZE,
             Current(), virt / PAGE_SIZE, MakeEntry(phys, flags))
        && phys / PAGE_SIZE !in Live(mem[..], dirs) && GetPhysical(virt) / PAGE_SIZE == phys / PAGE_SIZE
    {
      ghost var m0, p := mem[..], phys / PAGE_SIZE;
      ok := MapPage(virt, phys, flags);
      if !ok {
        GiveBack(phys, used0);
      } else {
        AllocationAccount(m0, used0, mem[..], frames.Used(), dirs, p);
        ThenDataWrite(m0, used0, mem[..], frames.Used(), dirs, p, Current(), virt / PAGE_SIZE, MakeEntry(phys, flags));
      }
    }

    /** Frees a frame that was just allocated and not used. */
    method GiveBack(phys: Word, ghost used0: set<nat>)
      requires Valid() && phys % PAGE_SIZE == 0 && FreeRun(used0, frames.totalPages, phys / PAGE_SIZE, 1)
      requires frames.Used() == used0 + {phys / PAGE_SIZE} && Live(mem[..], dirs) <= used0
      modifies frames`usedPages, frames.bitmap
      ensures Valid() && frames.totalPages == old(frames.totalPages) && frames.Used() == used0
    {
      ghost var p := phys / PAGE_SIZE;
      assert Run(p, 1) == {p};
      RunRoundTrip(used0, frames.totalPages, p, 1);
      OnlyLiveMatters(mem[..], dirs, frames.Used(), used0, kernelPd);
      frames.FreePage(phys);
    }

    /** zero_page on a frame that is no directory or table. */
    method ZeroMapped(p: nat)
      requires Valid() && p < MAX_PAGES && p !in Live(mem[..], dirs)
      modifies mem
      ensures Valid() && SameTables(old(mem[..]), mem[..], dirs)
      ensures forall j: nat :: At(mem[..], p, j) == 0
    {
      ghost var m1 := mem[..];
      ZeroPage(p);
      DataWrite(m1, mem[..], dirs, frames.Used(), kernelPd, p);
    }

    /** Unmaps a page and frees its frame.  Frame 0 at offset 0 reads as unmapped and stays.  The
        paging structures survive if and only if the freed frame was not one of theirs. */
    method FreePage(virt: Word)
      requires Valid()
      modifies frames`usedPages, frames.bitmap, mem
      ensures Shape() && frames.totalPages == old(frames.totalPages)
      ensures old(GetPhysical(virt)) == 0 ==> mem[..] == old(mem[..]) && frames.Used() == old(frames.Used())
      ensures old(GetPhysical(virt)) != 0 ==> Updated(old(mem[..]), mem[..], dirs, Current(), virt / PAGE_SIZE, 0)
      ensures old(GetPhysical(virt)) != 0 ==>
        frames.Used() == Released(old(frames.Used()), frames.totalPages, old(GetPhysical(virt)) / PAGE_SIZE, 1)
      ensures Live(mem[..], dirs) == old(Live(mem[..], dirs)) && SameSharing(old(mem[..]), mem[..], dirs)
      ensures Valid() <==>
        || old(GetPhysical(virt)) == 0
        || old(GetPhysical(virt)) / PAGE_SIZE >= frames.totalPages
        || old(GetPhysical(virt)) / PAGE_SIZE !in old(Live(mem[..], dirs))
    {
      var phys := GetPhysical(virt);
      if phys != 0 {
        UnmapPage(virt);
        ReleaseFrame(phys);
      }
    }

    method ReleaseFrame(phys: Word)
      requires Valid()
      modifies frames`usedPages, frames.bitmap
      ensures Shape() && frames.totalPages == old(frames.totalPages)
      ensures frames.Used() == Released(old(frames.Used()), frames.totalPages, phys / PAGE_SIZE, 1)
      ensures Valid() <==> phys / PAGE_SIZE >= frames.totalPages || phys / PAGE_SIZE !in Live(mem[..], dirs)
    {
      ReleaseOne(mem[..], dirs, frames.Used(), kernelPd, frames.totalPages, phys / PAGE_SIZE);
      frames.FreePage(phys);
    }

    /** Allocating an unmapped page and freeing it again: every translation and every data frame is
        as before, and at most one frame, an empty page table, stays in use. */
    method AllocThenFree(virt: Word, flags: Word) returns (ok: bool)
      requires Valid() && virt % PAGE_SIZE == 0 && !IsMapped(virt)
      modifies frames`usedPages, frames.bitmap, mem
      ensures Valid() && SameEntries(old(mem[..]), mem[..], dirs)
      ensures Grown(old(mem[..]), old(frames.Used()), mem[..], frames.Used(), dirs)
      ensures |frames.Used() - old(frames.Used())| <= 1
    {
      ghost var p, w;
      ok, p, w := AllocUndoable(virt, flags);
      if ok {
        FreeMapped(virt, virt / PAGE_SIZE, p, w);
      }
    }

    method AllocUndoable(virt: Word, flags: Word) returns (ok: bool, ghost p: nat, ghost w: Word)
      requires Valid() && virt % PAGE_SIZE == 0 && !IsMapped(virt)
      modifies frames`usedPages, frames.bitmap, mem
      ensures Valid() && frames.totalPages == old(frames.totalPages)
      ensures !ok ==> mem[..] == old(mem[..]) && frames.Used() == old(frames.Used())
      ensures ok ==> Entry(mem[..], Current(), virt / PAGE_SIZE) == w && Present(w)
      ensures ok ==> FIRST_PFN <= p && FrameOf(w) == p && p !in Live(mem[..], dirs)
      ensures ok ==> Undoable(old(mem[..]), old(frames.Used()), mem[..], frames.Used(), dirs, frames.totalPages,
        Current(), virt / PAGE_SIZE, p)
    {
      ghost var m0, used0 := mem[..], frames.Used();
      ok, p, w := AllocFresh(virt, flags);
      if ok {
        AllocationUndoable(m0, used0, mem[..], frames.Used(), dirs, frames.totalPages,
          Current(), virt / PAGE_SIZE, p, w);
      }
    }

    method AllocFresh(virt: Word, flags: Word) returns (ok: bool, ghost p: nat, ghost w: Word)
      requires Valid() && virt % PAGE_SIZE == 0 && !IsMapped(virt)
      modifies frames`usedPages, frames.bitmap, mem
      ensures Valid() && frames.totalPages == old(frames.totalPages)
      ensures !ok ==> mem[..] == old(mem[..]) && frames.Used() == old(frames.Used())
      ensures ok ==> FIRST_PFN <= p < frames.totalPages
      ensures ok ==> FreshlyMapped(old(mem[..]), old(frames.Used()), mem[..], frames.Used(), dirs,
        Current(), virt / PAGE_SIZE, p, w)
    {
      ghost var m0, used0, v := mem[..], frames.Used(), virt / PAGE_SIZE;
      LiveUsed(m0, dirs, used0, kernelPd);
      assert Entry(m0, Current(), v) == 0;
      ok, p := AllocPage(virt, flags);
      w := 0;
      if ok {
        w := MakeEntry(p * PAGE_SIZE, flags);
      }
    }

    /** Freeing a page mapped to a frame that is no live table. */
    method FreeMapped(virt: Word, ghost v: nat, ghost p: nat, ghost w: Word)
      requires Valid() && v == virt / PAGE_SIZE && virt % PAGE_SIZE == 0 && Entry(mem[..], Current(), v) == w
      requires FIRST_PFN <= p && Present(w) && FrameOf(w) == p && p !in Live(mem[..], dirs)
      modifies frames`usedPages, frames.bitmap, mem
      ensures Valid()
      ensures UnmappedAndFreed(old(mem[..]), old(frames.Used()), mem[..], frames.Used(), dirs,
        old(frames.totalPages), old(Current()), v, p)
    {
      ghost var phys := GetPhysical(virt);
      assert phys == p * PAGE_SIZE && phys / PAGE_SIZE == p;
      FreePage(virt);
    }

    /** Destroys a directory: frees the frames below totalPages among the directory, its present
        tables below 3 GB and everything they map. */
    method DestroyPageDirectory(pdPhys: Word)
      requires Valid() && pdPhys % PAGE_SIZE == 0
      requires pdPhys == 0 || pdPhys / PAGE_SIZE in dirs
      modifies frames`usedPages, frames.bitmap
      ensures frames.Valid() && frames.totalPages == old(frames.totalPages)
      ensures pdPhys == 0 || pdPhys / PAGE_SIZE == kernelPd ==> frames.Used() == old(frames.Used())
      ensures pdPhys != 0 && pdPhys / PAGE_SIZE != kernelPd ==> forall f: nat ::
        f in frames.Used() <==>
          f in old(frames.Used()) && !(f < frames.totalPages && InFootprint(mem[..], pdPhys / PAGE_SIZE, f))
    {
      if pdPhys == 0 || pdPhys == kernelPd * PAGE_SIZE {
        return;
      }
      var pd := pdPhys / PAGE_SIZE;
      ghost var m, used0 := mem[..], frames.Used();
      var i := 0;
      while i < USER_ENTRIES
        invariant 0 <= i <= USER_ENTRIES && frames.Valid() && frames.totalPages == old(frames.totalPages)
        invariant forall f: nat :: f in frames.Used() <==>
          f in used0 && !(f < frames.totalPages && ReachedBy(m, pd, i, f))
      {
        forall f: nat {
          ReachedByNext(m, pd, i, f);
        }
        if Present(ReadWord(pd, i)) {
          assert Points(m, pd, i, FrameOf(At(m, pd, i)));
          FreeTable(FrameOf(ReadWord(pd, i)));
        }
        i := i + 1;
      }
      frames.FreePage(pdPhys);
      assert Run(pd, 1) == {pd};
    }

    /** Frees the frames a table maps, then the table's own. */
    method FreeTable(pt: nat)
      requires frames.Valid() && mem != frames.bitmap && mem.Length == MAX_PAGES * PAGE_ENTRIES && pt < MAX_PAGES
      modifies frames`usedPages, frames.bitmap
      ensures frames.Valid() && frames.totalPages == old(frames.totalPages)
      ensures forall f: nat :: f in frames.Used() <==>
        f in old(frames.Used()) && !(f < frames.totalPages && UnderTable(mem[..], pt, f))
    {
      ghost var m, used0 := mem[..], frames.Used();
      var j := 0;
      while j < PAGE_ENTRIES
        invariant 0 <= j <= PAGE_ENTRIES && frames.Valid() && frames.totalPages == old(frames.totalPages)
        invariant forall f: nat :: f in frames.Used() <==>
          f in used0 && !(f < frames.totalPages && MappedBy(m, pt, j, f))
      {
        forall f: nat {
          MappedByNext(m, pt, j, f);
        }
        var pte := ReadWord(pt, j);
        if Present(pte) {
          frames.FreePage(pte / PAGE_SIZE * PAGE_SIZE);
          assert Run(FrameOf(pte), 1) == {FrameOf(pte)};
        }
        j := j + 1;
      }
      frames.FreePage(pt * PAGE_SIZE);
      assert Run(pt, 1) == {pt};
    }
  }

  /** `(size + PAGE_SIZE - 1) / PAGE_SIZE` in 32 bits: a size above 2^32 - 4096 wraps to no pages. */
  function PagesIn(size: Word): (pages: nat)
    ensures pages < PAGES
    ensures size <= WORD_LIMIT - PAGE_SIZE ==> (pages - 1) * PAGE_SIZE < size <= pages * PAGE_SIZE
    ensures size > WORD_LIMIT - PAGE_SIZE ==> pages == 0
  {
    (size + PAGE_SIZE - 1) % WORD_LIMIT / PAGE_SIZE
  }

  /** `start + (i * PAGE_SIZE)` in 32 bits. */
  function PageAddress(start: Word, i: nat): Word {
    (start + i * PAGE_SIZE) % WORD_LIMIT
  }

  /** The entries of a range mapped to consecutive frames. */
  ghost function RangeEntries(physStart: Word, flags: Word): nat -> Word {
    (k: nat) => MakeEntry(PageAddress(physStart, k), flags)
  }

  lemma PageOfStep(virtStart: Word, i: nat)
    ensures PageAddress(virtStart, i) / PAGE_SIZE == PageAt(virtStart / PAGE_SIZE, i)
  {}

  /** Boots, makes a directory and destroys it: the kernel's directory is left without its first table. */
  method CreateThenDestroy(frames: FrameAllocator, mem: array<Word>, kernelPd: nat, firstTable: nat)
    returns (spaces: AddressSpaces, pdPhys: Word)
    requires frames.Valid() && mem != frames.bitmap && mem.Length == MAX_PAGES * PAGE_ENTRIES
    requires kernelPd in frames.Used() && firstTable in frames.Used() && kernelPd != firstTable
    requires firstTable < frames.totalPages
    modifies mem, frames`usedPages, frames.bitmap
    ensures pdPhys == 0 <==> old(forall p: nat :: !FreeRun(frames.Used(), frames.totalPages, p, 1))
    ensures spaces.mem == mem && spaces.frames == frames && frames.Valid()
    ensures pdPhys != 0 ==>
      spaces.dirs == {kernelPd, pdPhys / PAGE_SIZE} && !WellFormed(mem[..], {kernelPd}, frames.Used(), kernelPd)
  {
    spaces := new AddressSpaces(frames, mem, kernelPd, firstTable);
    pdPhys := spaces.CreatePageDirectory();
    if pdPhys != 0 {
      ghost var m, used, pd := mem[..], frames.Used(), pdPhys / PAGE_SIZE;
      FirstTableFrame(m, {kernelPd, pd}, used, kernelPd, firstTable);
      assert spaces.dirs == {kernelPd, pd} && spaces.dirs - {pd} == {kernelPd};
      spaces.DestroyPageDirectory(pdPhys);
      DestroyBreaks(m, spaces.dirs, used, frames.Used(), kernelPd, pd, frames.totalPages);
    }
  }

  /** Boots with no frame left and asks for a page in the first table and one beyond it: the call fails and
      the identity mapping of the first of them is lost. */
  method FailedRangeLosesPage(frames: FrameAllocator, mem: array<Word>, kernelPd: nat, firstTable: nat)
    returns (spaces: AddressSpaces, ok: bool)
    requires frames.Valid() && mem != frames.bitmap && mem.Length == MAX_PAGES * PAGE_ENTRIES
    requires kernelPd in frames.Used() && firstTable in frames.Used() && kernelPd != firstTable
    requires forall p: nat :: !FreeRun(frames.Used(), frames.totalPages, p, 1)
    modifies mem, frames`usedPages, frames.bitmap
    ensures spaces.mem == mem && spaces.Valid() && spaces.Current() == kernelPd && !ok
    ensures Entry(mem[..], kernelPd, 1023) == 0
  {
    spaces := new AddressSpaces(frames, mem, kernelPd, firstTable);
    assert Entry(mem[..], kernelPd, 1023) == 1023 * PAGE_SIZE + TABLE_FLAGS;
    NoneFree(frames.Used(), frames.totalPages);
    ok := MapTwoPages(spaces);
  }

  /** Pages 1023 and 1024 where only the first has a table, and no frame is free. */
  method MapTwoPages(spaces: AddressSpaces) returns (ok: bool)
    requires spaces.Valid() && spaces.FreeCount() == 0
    requires Present(At(spaces.mem[..], spaces.Current(), 0)) && !Present(At(spaces.mem[..], spaces.Current(), 1))
    modifies spaces.mem, spaces.frames`usedPages, spaces.frames.bitmap
    ensures spaces.Valid() && !ok && Entry(spaces.mem[..], spaces.Current(), 1023) == 0
  {
    ghost var m0, d := spaces.mem[..], spaces.Current();
    OnePageFits(m0, d);
    assert PagesIn(8192) == 2 && spaces.MappablePages(0x3F_F000, 2) == 1;
    assert |spaces.MissingTables(0x3F_F000, 2)| == 1;
    ghost var done;
    ok, done := spaces.MapRange(0x3F_F000, 0, 8192, 3);
    FirstCleared(m0, spaces.mem[..], spaces.dirs, d, 1023);
  }

  /** At boot page 1023 has its table and page 1024 has none. */
  lemma OnePageFits(m: Memory, d: nat)
    requires Present(At(m, d, 0)) && !Present(At(m, d, 1))
    ensures Mappable(m, d, 1023, 2, 0) == 1 && |Missing(m, d, 1023, 2)| == 1
  {
    assert IndexAt(1023, 0) == 0 && IndexAt(1023, 1) == 1;
    NoneMissing(m, d, 1023);
    MissingNext(m, d, 1023, 0);
    MissingNext(m, d, 1023, 1);
    MappableIs(m, d, 1023, 2, 0, 1);
  }

  lemma FirstTableFrame(m: Memory, dirs: set<nat>, used: set<nat>, kernel: nat, table: nat)
    requires WellFormed(m, dirs, used, kernel) && kernel in dirs && Live(m, dirs) == dirs + {table}
    ensures FrameOf(At(m, kernel, 0)) == table
  {
    assert Points(m, kernel, 0, FrameOf(At(m, kernel, 0)));
  }
}
