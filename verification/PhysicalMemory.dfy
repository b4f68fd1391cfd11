/** The page-frame allocator of simpleos: a bitmap with one bit per 4 KB frame. */
module PhysicalMemory {
  import opened Bits

  const PAGE_SIZE: int := 4096
  const MAX_PAGES: int := 65536            // 256 MB
  const BITMAP_SIZE: int := 2048           // MAX_PAGES / 32
  const FIRST_PFN: int := 256              // frame of address 0x100000
  const NOT_FOUND: int := 0xFFFF_FFFF

  // ----- The abstract frame map -----

  /** The frames start, ..., start + count - 1. */
  ghost function Run(start: nat, count: nat): set<nat> {
    set p: nat | start <= p < start + count && InRun(p, start, count)
  }

  ghost predicate InRun(p: nat, start: nat, count: nat) {
    start <= p < start + count
  }

  ghost function Below(used: set<nat>, limit: nat): set<nat> {
    set p | p in used && p < limit
  }

  /** A run the allocator may hand out: at or above 1 MB, below total, nothing in it used. */
  ghost predicate FreeRun(used: set<nat>, total: nat, start: nat, count: nat) {
    && FIRST_PFN <= start && start + count <= total
    && forall p :: start <= p < start + count ==> p !in used
  }

  ghost predicate LowestFreeRun(used: set<nat>, total: nat, start: nat, count: nat) {
    && FreeRun(used, total, start, count)
    && forall s: nat :: s < start ==> !FreeRun(used, total, s, count)
  }

  /** Frame p is free and no other frame is. */
  ghost predicate OnlyFree(used: set<nat>, total: nat, p: nat) {
    FreeRun(used, total, p, 1) && forall q: nat :: FreeRun(used, total, q, 1) ==> q == p
  }

  ghost predicate OneLeft(used: set<nat>, total: nat) {
    exists p: nat :: OnlyFree(used, total, p)
  }

  /** Taking a free frame leaves none if and only if it was the only one. */
  lemma TakenLast(used: set<nat>, total: nat, p: nat)
    requires FreeRun(used, total, p, 1)
    ensures (forall q: nat :: !FreeRun(used + {p}, total, q, 1)) <==> OneLeft(used, total)
  {
    forall q: nat
      ensures FreeRun(used + {p}, total, q, 1) <==> FreeRun(used, total, q, 1) && q != p
    {
      if FreeRun(used, total, q, 1) && q != p {
        assert q !in used + {p};
      }
      if FreeRun(used + {p}, total, q, 1) {
        assert q !in used + {p};
      }
    }
    if forall q: nat :: !FreeRun(used + {p}, total, q, 1) {
      assert OnlyFree(used, total, p);
    }
  }

  /** The frames the allocator can still hand out. */
  ghost function FreeFrames(used: set<nat>, total: nat): set<nat> {
    set p: nat | FIRST_PFN <= p < total && p !in used
  }

  lemma FrameTaken(used: set<nat>, total: nat, p: nat)
    requires FreeRun(used, total, p, 1)
    ensures |FreeFrames(used + {p}, total)| == |FreeFrames(used, total)| - 1
  {
    assert FreeFrames(used + {p}, total) == FreeFrames(used, total) - {p};
    assert p in FreeFrames(used, total);
  }

  lemma NoneFree(used: set<nat>, total: nat)
    ensures |FreeFrames(used, total)| == 0 <==> forall s: nat :: !FreeRun(used, total, s, 1)
  {
    forall s: nat
      ensures FreeRun(used, total, s, 1) <==> s in FreeFrames(used, total)
    {}
    if forall s: nat :: !FreeRun(used, total, s, 1) {
      assert FreeFrames(used, total) == {};
    }
  }

  /** What releasing the frames of a run leaves used: frames at or above total are never released. */
  ghost function Released(used: set<nat>, total: nat, start: nat, count: nat): set<nat> {
    used - Below(Run(start, count), total)
  }

  /** Taking a free run adds exactly its length to the number of used frames below total, and
      releasing the same run gives back exactly the earlier set. */
  lemma {:induction false} RunRoundTrip(used: set<nat>, total: nat, start: nat, count: nat)
    requires FreeRun(used, total, start, count)
    ensures |Below(used + Run(start, count), total)| == |Below(used, total)| + count
    ensures Released(used + Run(start, count), total, start, count) == used
  {
    if count == 0 {
      assert used + Run(start, 0) == used;
    } else {
      RunRoundTrip(used, total, start, count - 1);
      var shorter := used + Run(start, count - 1);
      assert used + Run(start, count) == shorter + {start + count - 1};
      CountAdded(shorter, total, start + count - 1);
    }
    assert Released(used + Run(start, count), total, start, count) == used;
  }

  lemma CountAdded(used: set<nat>, total: nat, p: nat)
    requires p !in used
    ensures |Below(used + {p}, total)| == |Below(used, total)| + if p < total then 1 else 0
  {
    if p < total {
      assert Below(used + {p}, total) == Below(used, total) + {p};
    } else {
      assert Below(used + {p}, total) == Below(used, total);
    }
  }

  lemma CountRemoved(used: set<nat>, total: nat, p: nat)
    requires p in used
    ensures |Below(used - {p}, total)| == |Below(used, total)| - if p < total then 1 else 0
  {
    CountAdded(used - {p}, total, p);
    assert used - {p} + {p} == used;
  }

  // ----- The bitmap -----

  predicate BitAt(words: seq<Word>, pfn: nat)
    requires |words| == BITMAP_SIZE && pfn < MAX_PAGES
  {
    Test(words[pfn / 32], pfn % 32)
  }

  ghost function UsedFrames(words: seq<Word>): set<nat>
    requires |words| == BITMAP_SIZE
  {
    set p: nat | p < MAX_PAGES && BitAt(words, p)
  }

  /** Writing one word with one bit set or cleared changes the frame map by that frame alone. */
  lemma WordUpdate(words: seq<Word>, pfn: nat)
    requires |words| == BITMAP_SIZE && pfn < MAX_PAGES
    ensures Set(words[pfn / 32], pfn % 32) < WORD_LIMIT && Clear(words[pfn / 32], pfn % 32) < WORD_LIMIT
    ensures UsedFrames(words[pfn / 32 := Set(words[pfn / 32], pfn % 32)]) == UsedFrames(words) + {pfn}
    ensures UsedFrames(words[pfn / 32 := Clear(words[pfn / 32], pfn % 32)]) == UsedFrames(words) - {pfn}
  {
    var i, b := pfn / 32, pfn % 32;
    WordStays(words[i], b);
    var up, down := words[i := Set(words[i], b)], words[i := Clear(words[i], b)];
    forall p: nat | p < MAX_PAGES
      ensures BitAt(up, p) <==> p == pfn || BitAt(words, p)
      ensures BitAt(down, p) <==> p != pfn && BitAt(words, p)
    {
      SetClear(words[i], b, p % 32);
    }
  }

  // ----- The boot memory map -----

  const MMAP_TYPE_AVAILABLE: int := 1

  /** One record of the boot loader's memory map; `size` does not count its own four bytes. */
  datatype MmapEntry = MmapEntry(size: Word, baseAddr: nat, length: nat, kind: Word)

  /** The walk from one record to the next stays inside the 32-bit address space. */
  ghost predicate WalkFits(entryAt: nat -> MmapEntry, addr: nat, end: nat)
    decreases end - addr
  {
    addr < end ==>
      && addr + entryAt(addr).size + 4 < WORD_LIMIT
      && WalkFits(entryAt, addr + entryAt(addr).size + 4, end)
  }

  /** The records of the map, in the order the walk meets them. */
  ghost function Records(entryAt: nat -> MmapEntry, addr: nat, end: nat): seq<MmapEntry>
    decreases end - addr
  {
    if addr < end then
      [entryAt(addr)] + Records(entryAt, addr + entryAt(addr).size + 4, end)
    else []
  }

  lemma NextRecord(entryAt: nat -> MmapEntry, addr: nat, end: nat, seen: seq<MmapEntry>, records: seq<MmapEntry>)
    requires addr < end && WalkFits(entryAt, addr, end) && records == seen + Records(entryAt, addr, end)
    ensures var e := entryAt(addr);
      && e in records && WalkFits(entryAt, addr + e.size + 4, end)
      && records == (seen + [e]) + Records(entryAt, addr + e.size + 4, end)
  {
    assert records[|seen|] == entryAt(addr);
  }

  ghost predicate Fits32(e: MmapEntry) {
    e.kind == MMAP_TYPE_AVAILABLE ==> e.baseAddr + e.length < WORD_LIMIT
  }

  /** Frame f lies wholly inside an available region. */
  ghost predicate Available(records: seq<MmapEntry>, f: nat) {
    exists k :: 0 <= k < |records| && Covers(records[k], f)
  }

  ghost predicate Covers(e: MmapEntry, f: nat) {
    e.kind == MMAP_TYPE_AVAILABLE && Inside(e.baseAddr, e.length, f)
  }

  ghost predicate Inside(base: nat, length: nat, f: nat) {
    base <= f * PAGE_SIZE && (f + 1) * PAGE_SIZE <= base + length
  }

  /** A frame is 4096 bytes, and type 1 is available memory. */
  lemma AvailableIs(records: seq<MmapEntry>, f: nat)
    ensures Available(records, f) <==>
      exists e :: e in records && e.kind == 1 && e.baseAddr <= 4096 * f && 4096 * (f + 1) <= e.baseAddr + e.length
  {
    if Available(records, f) {
      var k :| 0 <= k < |records| && Covers(records[k], f);
      assert records[k] in records;
    }
    if e :| e in records && e.kind == 1 && e.baseAddr <= 4096 * f && 4096 * (f + 1) <= e.baseAddr + e.length {
      var k :| 0 <= k < |records| && records[k] == e;
      assert Covers(records[k], f);
    }
  }

  ghost function AvailableBytes(records: seq<MmapEntry>): nat {
    if records == [] then 0
    else AvailableBytes(records[..|records| - 1]) + AvailableIn(records[|records| - 1])
  }

  ghost function AvailableIn(e: MmapEntry): nat {
    if e.kind == MMAP_TYPE_AVAILABLE then e.length else 0
  }

  function AlignUp(addr: nat): nat {
    (addr + PAGE_SIZE - 1) / PAGE_SIZE * PAGE_SIZE
  }

  class FrameAllocator {
    const bitmap: array<Word>
    var totalPages: nat
    var usedPages: nat

    ghost predicate Valid()
      reads this, bitmap
    {
      && Shape()
      && usedPages == |Below(Used(), totalPages)|
    }

    ghost predicate Shape()
      reads this
    {
      bitmap.Length == BITMAP_SIZE && totalPages <= MAX_PAGES
    }

    ghost function Used(): set<nat>
      requires bitmap.Length == BITMAP_SIZE
      reads bitmap
    {
      UsedFrames(bitmap[..])
    }

    constructor ()
      ensures bitmap.Length == BITMAP_SIZE && fresh(bitmap)
      ensures totalPages == usedPages == 0
    {
      bitmap := new Word[BITMAP_SIZE];
      totalPages, usedPages := 0, 0;
    }

    method BitmapSet(pfn: nat)
      requires bitmap.Length == BITMAP_SIZE
      modifies bitmap
      ensures Used() == if pfn < MAX_PAGES then old(Used()) + {pfn} else old(Used())
    {
      if pfn < MAX_PAGES {
        WordUpdate(bitmap[..], pfn);
        bitmap[pfn / 32] := Set(bitmap[pfn / 32], pfn % 32);
        assert bitmap[..] == old(bitmap[..])[pfn / 32 := Set(old(bitmap[pfn / 32]), pfn % 32)];
      }
    }

    method BitmapClear(pfn: nat)
      requires bitmap.Length == BITMAP_SIZE
      modifies bitmap
      ensures Used() == if pfn < MAX_PAGES then old(Used()) - {pfn} else old(Used())
    {
      if pfn < MAX_PAGES {
        WordUpdate(bitmap[..], pfn);
        bitmap[pfn / 32] := Clear(bitmap[pfn / 32], pfn % 32);
        assert bitmap[..] == old(bitmap[..])[pfn / 32 := Clear(old(bitmap[pfn / 32]), pfn % 32)];
      }
    }

    /** Out of range counts as used. */
    predicate BitmapTest(pfn: nat)
      requires bitmap.Length == BITMAP_SIZE
      reads bitmap
      ensures BitmapTest(pfn) <==> pfn >= MAX_PAGES || pfn in Used()
    {
      pfn < MAX_PAGES ==> BitAt(bitmap[..], pfn)
    }

    method FindFreePage(start: nat) returns (pfn: nat)
      requires Shape() && start <= MAX_PAGES
      ensures pfn == NOT_FOUND || (start <= pfn < totalPages && pfn !in Used())
      ensures forall p :: start <= p < totalPages && p < pfn ==> p in Used()
    {
      var i := start;
      while i < totalPages
        invariant start <= i <= MAX_PAGES
        invariant forall p :: start <= p < i ==> p in Used()
      {
        if !BitmapTest(i) {
          return i;
        }
        i := i + 1;
      }
      return NOT_FOUND;
    }

    method FindFreePages(count: nat) returns (pfn: nat)
      requires Shape() && count > 0
      ensures pfn == NOT_FOUND || LowestFreeRun(Used(), totalPages, pfn, count)
      ensures pfn == NOT_FOUND ==> forall s: nat :: !FreeRun(Used(), totalPages, s, count)
    {
      var consecutive: nat, start: nat := 0, 0;
      var i := FIRST_PFN;
      ghost var from: nat := FIRST_PFN;    // no run can start below here
      while i < totalPages
        invariant FIRST_PFN <= i && (i <= totalPages || i == FIRST_PFN)
        invariant FIRST_PFN <= from <= i && consecutive == i - from < count
        invariant consecutive > 0 ==> start == from
        invariant forall p :: from <= p < i ==> p !in Used()
        invariant forall s: nat :: s < from ==> !FreeRun(Used(), totalPages, s, count)
      {
        if !BitmapTest(i) {
          if consecutive == 0 {
            start := i;
          }
          consecutive := consecutive + 1;
          if consecutive == count {
            return start;
          }
        } else {
          forall s: nat | s <= i
            ensures !FreeRun(Used(), totalPages, s, count)
          {
            if from <= s {
              assert s <= i < s + count;
            }
          }
          consecutive := 0;
          from := i + 1;
        }
        i := i + 1;
      }
      return NOT_FOUND;
    }

    /** Allocates one frame: the lowest free one from 1 MB up; 0 exactly when there is none. */
    method AllocPage() returns (addr: Word)
      requires Valid()
      modifies this`usedPages, bitmap
      ensures Valid() && totalPages == old(totalPages)
      ensures addr == 0 ==> bitmap[..] == old(bitmap[..]) && usedPages == old(usedPages)
      ensures addr == 0 <==> forall s: nat :: !FreeRun(old(Used()), totalPages, s, 1)
      ensures addr != 0 ==>
        && addr % 4096 == 0 && addr >= 0x10_0000
        && LowestFreeRun(old(Used()), totalPages, addr / PAGE_SIZE, 1)
        && Used() == old(Used()) + {addr / PAGE_SIZE}
        && usedPages == old(usedPages) + 1
    {
      var pfn := FindFreePage(FIRST_PFN);
      if pfn == NOT_FOUND {
        forall s: nat
          ensures !FreeRun(Used(), totalPages, s, 1)
        {
          if FIRST_PFN <= s < totalPages {
            assert s in Used();
          }
        }
        return 0;
      }
      assert FreeRun(Used(), totalPages, pfn, 1);
      CountAdded(Used(), totalPages, pfn);
      BitmapSet(pfn);
      usedPages := usedPages + 1;
      addr := pfn * PAGE_SIZE;
      assert addr / PAGE_SIZE == pfn;
      forall s: nat | s < pfn
        ensures !FreeRun(old(Used()), totalPages, s, 1)
      {
        if FIRST_PFN <= s {
          assert s in old(Used());
        }
      }
    }

    /** Allocates the lowest run of count free frames; 0 exactly when count is 0 or there is none. */
    method AllocPages(count: nat) returns (addr: Word)
      requires Valid()
      modifies this`usedPages, bitmap
      ensures Valid() && totalPages == old(totalPages)
      ensures addr == 0 ==> bitmap[..] == old(bitmap[..]) && usedPages == old(usedPages)
      ensures addr == 0 <==> count == 0 || forall s: nat :: !FreeRun(old(Used()), totalPages, s, count)
      ensures addr != 0 ==>
        && addr % 4096 == 0 && addr >= 0x10_0000
        && LowestFreeRun(old(Used()), totalPages, addr / PAGE_SIZE, count)
        && Used() == old(Used()) + Run(addr / PAGE_SIZE, count)
        && usedPages == old(usedPages) + count
    {
      if count == 0 {
        return 0;
      }
      if count == 1 {
        addr := AllocPage();
        assert addr != 0 ==> Run(addr / PAGE_SIZE, 1) == {addr / PAGE_SIZE};
        return;
      }
      var pfn := FindFreePages(count);
      if pfn == NOT_FOUND {
        return 0;
      }
      var i := 0;
      while i < count
        invariant i <= count && unchanged(this)
        invariant Used() == old(Used()) + Run(pfn, i)
      {
        BitmapSet(pfn + i);
        i := i + 1;
        assert Run(pfn, i) == Run(pfn, i - 1) + {pfn + i - 1};
      }
      RunRoundTrip(old(Used()), totalPages, pfn, count);
      usedPages := usedPages + count;
      addr := pfn * PAGE_SIZE;
      assert addr / PAGE_SIZE == pfn;
    }

    method FreePage(addr: Word)
      requires Valid()
      modifies this`usedPages, bitmap
      ensures Valid() && totalPages == old(totalPages)
      ensures Used() == Released(old(Used()), totalPages, addr / PAGE_SIZE, 1)
    {
      var pfn := addr / PAGE_SIZE;
      if pfn < totalPages && BitmapTest(pfn) {
        CountRemoved(Used(), totalPages, pfn);
        BitmapClear(pfn);
        assert usedPages > 0;
        if usedPages > 0 {
          usedPages := usedPages - 1;
        }
      }
    }

    /** Frees a run; the frame numbers must not pass 2^32. */
    method FreePages(addr: Word, count: Word)
      requires Valid() && addr / PAGE_SIZE + count <= WORD_LIMIT
      modifies this`usedPages, bitmap
      ensures Valid() && totalPages == old(totalPages)
      ensures Used() == Released(old(Used()), totalPages, addr / PAGE_SIZE, count)
    {
      var pfn := addr / PAGE_SIZE;
      var i := 0;
      while i < count
        invariant i <= count && Valid() && totalPages == old(totalPages)
        invariant Used() == Released(old(Used()), totalPages, pfn, i)
      {
        if pfn + i < totalPages && BitmapTest(pfn + i) {
          CountRemoved(Used(), totalPages, pfn + i);
          BitmapClear(pfn + i);
          if usedPages > 0 {
            usedPages := usedPages - 1;
          }
        }
        i := i + 1;
        assert Released(old(Used()), totalPages, pfn, i)
            == Released(old(Used()), totalPages, pfn, i - 1) - Below({pfn + i - 1}, totalPages);
      }
    }

    // ----- Initialisation -----

    method MarkAllUsed()
      requires bitmap.Length == BITMAP_SIZE
      modifies bitmap
      ensures forall f: nat :: f in Used() <==> f < MAX_PAGES
    {
      var i := 0;
      while i < BITMAP_SIZE
        invariant 0 <= i <= BITMAP_SIZE
        invariant forall k :: 0 <= k < i ==> bitmap[k] == 0xFFFF_FFFF
      {
        bitmap[i] := 0xFFFF_FFFF;
        i := i + 1;
      }
      forall f: nat | f < MAX_PAGES
        ensures f in Used()
      {
        FullWord(f % 32);
      }
    }

    /** Clears the bits of the whole frames inside one available region. */
    method ReleaseRegion(base: Word, length: Word)
      requires bitmap.Length == BITMAP_SIZE && base + length < WORD_LIMIT
      modifies bitmap
      ensures forall f: nat :: f in Used() <==> f in old(Used()) && !Inside(base, length, f)
    {
      if base < MAX_PAGES * PAGE_SIZE {
        var end := base + length;
        if end > MAX_PAGES * PAGE_SIZE {
          end := MAX_PAGES * PAGE_SIZE;
        }
        var startPfn, endPfn := AlignUp(base) / PAGE_SIZE, end / PAGE_SIZE;
        var pfn := startPfn;
        while pfn < endPfn && pfn < MAX_PAGES
          invariant startPfn <= pfn
          invariant pfn <= endPfn || pfn == startPfn
          invariant forall f: nat :: f in Used() <==> f in old(Used()) && !(startPfn <= f < pfn)
        {
          BitmapClear(pfn);
          pfn := pfn + 1;
        }
      }
    }

    method ReserveFrames(start: nat, count: nat)
      requires bitmap.Length == BITMAP_SIZE
      modifies bitmap
      ensures forall f: nat :: f in Used() <==>
        f in old(Used()) || (start <= f < start + count && f < MAX_PAGES)
    {
      var i := 0;
      while i < count
        invariant i <= count
        invariant forall f: nat :: f in Used() <==>
          f in old(Used()) || (start <= f < start + i && f < MAX_PAGES)
      {
        BitmapSet(start + i);
        i := i + 1;
      }
    }

    method CountUsed()
      requires Shape()
      modifies this`usedPages
      ensures Valid()
    {
      usedPages := 0;
      var pfn: nat := 0;
      while pfn < totalPages
        invariant pfn <= totalPages && Shape()
        invariant usedPages == |Below(Used(), pfn)|
      {
        if BitmapTest(pfn) {
          assert Below(Used(), pfn + 1) == Below(Used(), pfn) + {pfn};
          usedPages := usedPages + 1;
        } else {
          assert Below(Used(), pfn + 1) == Below(Used(), pfn);
        }
        pfn := pfn + 1;
      }
    }

    /** The loop body of the walk: takes in one record after those already seen. */
    method TakeRecord(e: MmapEntry, total: Word, ghost seen: seq<MmapEntry>) returns (totalMemory: Word)
      requires bitmap.Length == BITMAP_SIZE && Fits32(e)
      requires total == AvailableBytes(seen) % WORD_LIMIT
      requires forall f: nat :: f in Used() <==> f < MAX_PAGES && !Available(seen, f)
      modifies bitmap
      ensures totalMemory == AvailableBytes(seen + [e]) % WORD_LIMIT
      ensures forall f: nat :: f in Used() <==> f < MAX_PAGES && !Available(seen + [e], f)
    {
      AvailableGrows(seen, e);
      totalMemory := total;
      if e.kind == MMAP_TYPE_AVAILABLE {
        var base, length := e.baseAddr % WORD_LIMIT, e.length % WORD_LIMIT;
        assert base == e.baseAddr && length == e.length;
        totalMemory := (totalMemory + length) % WORD_LIMIT;
        ReleaseRegion(base, length);
      }
    }

    /** Walks the memory map: clears the frames of every available region and adds up the lengths. */
    method ParseMap(entryAt: nat -> MmapEntry, mmapAddr: nat, mmapEnd: nat) returns (totalMemory: Word)
      requires bitmap.Length == BITMAP_SIZE && forall f: nat :: f in Used() <==> f < MAX_PAGES
      requires WalkFits(entryAt, mmapAddr, mmapEnd)
      requires forall e :: e in Records(entryAt, mmapAddr, mmapEnd) ==> Fits32(e)
      modifies bitmap
      ensures totalMemory == AvailableBytes(Records(entryAt, mmapAddr, mmapEnd)) % WORD_LIMIT
      ensures forall f: nat :: f in Used() <==>
        f < MAX_PAGES && !Available(Records(entryAt, mmapAddr, mmapEnd), f)
    {
      totalMemory := 0;
      var mmap := mmapAddr;
      ghost var seen: seq<MmapEntry> := [];
      ghost var records := Records(entryAt, mmapAddr, mmapEnd);
      while mmap < mmapEnd
        invariant WalkFits(entryAt, mmap, mmapEnd)
        invariant records == seen + Records(entryAt, mmap, mmapEnd)
        invariant totalMemory == AvailableBytes(seen) % WORD_LIMIT
        invariant forall f: nat :: f in Used() <==> f < MAX_PAGES && !Available(seen, f)
        decreases mmapEnd - mmap
      {
        var e := entryAt(mmap);
        NextRecord(entryAt, mmap, mmapEnd, seen, records);
        totalMemory := TakeRecord(e, totalMemory, seen);
        seen := seen + [e];
        mmap := mmap + e.size + 4;
      }
      assert seen == records;
    }

    /** Builds the bitmap from the boot memory map: a frame is free exactly when it lies wholly in
        an available region and at or above the end of the kernel image. */
    method Init(entryAt: nat -> MmapEntry, mmapAddr: Word, mmapLength: Word, kernelEnd: Word)
      requires bitmap.Length == BITMAP_SIZE
      requires mmapAddr + mmapLength < WORD_LIMIT
      requires WalkFits(entryAt, mmapAddr, mmapAddr + mmapLength)
      requires forall e :: e in Records(entryAt, mmapAddr, mmapAddr + mmapLength) ==> Fits32(e)
      requires FIRST_PFN * PAGE_SIZE <= kernelEnd < WORD_LIMIT - PAGE_SIZE
      modifies this, bitmap
      ensures Valid()
      ensures forall f: nat :: f < 0x1_0000 ==>
        (f !in Used() <==>
          Available(Records(entryAt, mmapAddr, mmapAddr + mmapLength), f) && kernelEnd <= 4096 * f)
      ensures totalPages ==
        Min(AvailableBytes(Records(entryAt, mmapAddr, mmapAddr + mmapLength)) % WORD_LIMIT / 4096, 0x1_0000)
    {
      MarkAllUsed();
      var totalMemory := ParseMap(entryAt, mmapAddr, mmapAddr + mmapLength);
      totalPages := totalMemory / PAGE_SIZE;
      if totalPages > MAX_PAGES {
        totalPages := MAX_PAGES;
      }
      ReserveKernel(kernelEnd);
      CountUsed();
    }

    /** Marks used what lies below 1 MB and the frames the kernel image touches. */
    method ReserveKernel(kernelEnd: Word)
      requires bitmap.Length == BITMAP_SIZE && FIRST_PFN * PAGE_SIZE <= kernelEnd < WORD_LIMIT - PAGE_SIZE
      modifies bitmap
      ensures forall f: nat :: f in Used() <==> f in old(Used()) || (f < 0x1_0000 && 4096 * f < kernelEnd)
    {
      ReserveFrames(0, FIRST_PFN);
      var kernelPages := (AlignUp(kernelEnd) - FIRST_PFN * PAGE_SIZE) / PAGE_SIZE;
      ReserveFrames(FIRST_PFN, kernelPages);
    }
  }

  function Min(a: int, b: int): int {
    if a < b then a else b
  }

  /** The memory counted is the lengths of the records of type 1. */
  lemma BytesAre(seen: seq<MmapEntry>, e: MmapEntry)
    ensures AvailableBytes([]) == 0
    ensures AvailableBytes(seen + [e]) == AvailableBytes(seen) + if e.kind == 1 then e.length else 0
  {
    assert (seen + [e])[..|seen|] == seen;
  }

  lemma WordSum(a: nat, b: nat)
    ensures (a % WORD_LIMIT + b % WORD_LIMIT) % WORD_LIMIT == (a + b) % WORD_LIMIT
  {}

  lemma AvailableGrows(seen: seq<MmapEntry>, e: MmapEntry)
    ensures AvailableBytes(seen + [e]) % WORD_LIMIT
         == (AvailableBytes(seen) % WORD_LIMIT + AvailableIn(e) % WORD_LIMIT) % WORD_LIMIT
    ensures forall f: nat :: Available(seen + [e], f) <==> Available(seen, f) || Covers(e, f)
  {
    var more := seen + [e];
    assert more[..|seen|] == seen;
    WordSum(AvailableBytes(seen), AvailableIn(e));
    forall f: nat
      ensures Available(more, f) <==> Available(seen, f) || Covers(e, f)
    {
      if Available(seen, f) {
        var k :| 0 <= k < |seen| && Covers(seen[k], f);
        assert Covers(more[k], f);
      }
      if Covers(e, f) {
        assert Covers(more[|seen|], f);
      }
    }
  }
}
