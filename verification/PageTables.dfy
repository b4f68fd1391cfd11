/** Two-level page tables as values: what a directory translates, which frames hold live tables,
    and what each kind of write to physical memory does to every translation. */
module PageTables {
  import opened Bits
  import opened PhysicalMemory

  const PAGE_ENTRIES: int := 1024
  const USER_ENTRIES: int := 768            // directory entries of the lower 3 GB
  const PAGES: int := 0x10_0000             // 4 KB pages in the 32-bit address space
  const TABLE_FLAGS: int := 7               // present, writable, user

  /** All of physical memory below 256 MB, as 32-bit words, 1024 of them to a frame. */
  type Memory = m: seq<Word> | |m| == MAX_PAGES * PAGE_ENTRIES witness seq(MAX_PAGES * PAGE_ENTRIES, _ => 0)

  function At(m: Memory, frame: nat, i: nat): Word {
    if frame < MAX_PAGES && i < PAGE_ENTRIES then m[frame * PAGE_ENTRIES + i] else 0
  }

  predicate Present(e: Word) {
    e % 2 == 1
  }

  function FrameOf(e: Word): nat {
    e / PAGE_SIZE
  }

  /** `(phys & PTE_FRAME_MASK) | (flags & PTE_FLAGS_MASK) | PTE_PRESENT` */
  function MakeEntry(phys: Word, flags: Word): (e: Word)
    ensures Present(e) && FrameOf(e) == phys / PAGE_SIZE
    ensures e % PAGE_SIZE / 2 == flags % PAGE_SIZE / 2
  {
    phys / PAGE_SIZE * PAGE_SIZE + flags % PAGE_SIZE / 2 * 2 + 1
  }

  /** The page-table entry directory d holds for page v; 0 where it has no table. */
  ghost function Entry(m: Memory, d: nat, v: nat): Word {
    var pde := At(m, d, v / PAGE_ENTRIES);
    if Present(pde) then At(m, FrameOf(pde), v % PAGE_ENTRIES) else 0
  }

  /** The partial map from pages to entries that directory d implements. */
  ghost function Translation(m: Memory, d: nat): map<nat, Word> {
    map v: nat | v < PAGES && Present(Entry(m, d, v)) :: Entry(m, d, v)
  }

  /** Directories d and e reach page-directory index i through the same page table. */
  ghost predicate Alias(m: Memory, d: nat, e: nat, i: nat) {
    d == e || (Present(At(m, d, i)) && Present(At(m, e, i)) && FrameOf(At(m, d, i)) == FrameOf(At(m, e, i)))
  }

  /** Entry i of directory d points at table t. */
  ghost predicate Points(m: Memory, d: nat, i: nat, t: nat) {
    i < PAGE_ENTRIES && Present(At(m, d, i)) && FrameOf(At(m, d, i)) == t
  }

  // ----- What the processor does with the words -----

  /** The walk for a virtual address: ten bits index the directory, ten the table, and twelve the page; bit 0
      of a word says that it is present, and its upper twenty bits are a frame. */
  lemma WalkIs(m: Memory, d: nat, virt: Word)
    requires d < 0x1_0000
    ensures Present(m[1024 * d + virt / 0x40_0000]) <==> Test(m[1024 * d + virt / 0x40_0000], 0)
    ensures At(m, d, virt / 0x40_0000) == m[1024 * d + virt / 0x40_0000]
    ensures FrameOf(At(m, d, virt / 0x40_0000)) < 0x1_0000 && Present(At(m, d, virt / 0x40_0000)) ==>
      Entry(m, d, virt / 4096) == m[1024 * (m[1024 * d + virt / 0x40_0000] / 4096) + virt / 4096 % 1024]
    ensures !Present(At(m, d, virt / 0x40_0000)) ==> Entry(m, d, virt / 4096) == 0
  {
    assert virt / 4096 / 1024 == virt / 0x40_0000;
  }

  /** User mode may read a page when bits 0 (present) and 2 (user) are set in the directory entry and in the
      page's own, and may write it when bit 1 (writable) is set in both as well. */
  ghost predicate UserMayRead(m: Memory, d: nat, v: nat) {
    var pde, pte := At(m, d, v / PAGE_ENTRIES), Entry(m, d, v);
    Test(pde, 0) && Test(pde, 2) && Test(pte, 0) && Test(pte, 2)
  }

  ghost predicate UserMayWrite(m: Memory, d: nat, v: nat) {
    UserMayRead(m, d, v) && Test(At(m, d, v / PAGE_ENTRIES), 1) && Test(Entry(m, d, v), 1)
  }

  lemma LowBit(w: Word)
    ensures Present(w) <==> Test(w, 0)
  {}

  /** Bits 0, 1 and 2 of a word whose low twelve bits are f. */
  lemma FlagBits(p: nat, f: nat)
    requires f < 4096
    ensures (Test(p * 4096 + f, 0) <==> f % 2 == 1) && (Test(p * 4096 + f, 1) <==> f / 2 % 2 == 1)
    ensures Test(p * 4096 + f, 2) <==> f / 4 % 2 == 1
  {
    LowestBits(p * 4096 + f);
    LowParts(p, f);
  }

  lemma LowParts(p: nat, f: nat)
    ensures (p * 4096 + f) % 2 == f % 2 && (p * 4096 + f) / 2 % 2 == f / 2 % 2 && (p * 4096 + f) / 4 % 2 == f / 4 % 2
  {
    var w, half, quarter := p * 4096 + f, 2048 * p + f / 2, 1024 * p + f / 2 / 2;
    Halves(half, f % 2);
    Halves(quarter, f / 2 % 2);
    Halves(512 * p + f / 2 / 2 / 2, f / 2 / 2 % 2);
    assert w == 2 * half + f % 2 && half == 2 * quarter + f / 2 % 2;
    assert quarter == 2 * (512 * p + f / 2 / 2 / 2) + f / 2 / 2 % 2;
  }

  /** An entry is present and has the flags asked for, bit by bit. */
  lemma EntryBits(phys: Word, flags: Word)
    ensures var e := MakeEntry(phys, flags);
      Test(e, 0) && (Test(e, 1) <==> Test(flags, 1)) && (Test(e, 2) <==> Test(flags, 2))
  {
    var e := MakeEntry(phys, flags);
    FlagBits(e / 4096, e % 4096);
    FlagBits(flags / 4096, flags % 4096);
  }

  lemma TableFlagsOpen(t: nat)
    requires t < MAX_PAGES
    ensures Open(t * PAGE_SIZE + TABLE_FLAGS)
  {
    FlagBits(t, 7);
  }

  /** Under directory entries that allow everything, the page's own entry decides. */
  lemma PageDecides(m: Memory, dirs: set<nat>, d: nat, v: nat)
    requires TablesOpen(m, dirs) && d in dirs && v < PAGES
    ensures UserMayRead(m, d, v) <==> Test(Entry(m, d, v), 0) && Test(Entry(m, d, v), 2)
    ensures UserMayWrite(m, d, v) <==> Test(Entry(m, d, v), 0) && Test(Entry(m, d, v), 2) && Test(Entry(m, d, v), 1)
  {
    LowBit(At(m, d, v / PAGE_ENTRIES));
    assert v / PAGE_ENTRIES < PAGE_ENTRIES;
  }

  // ----- The ownership invariant -----

  /** A table entry leaves the decision to the pages below: bits 1 and 2 are set. */
  ghost predicate Open(w: Word) {
    Test(w, 1) && Test(w, 2)
  }

  ghost predicate TablesOpen(m: Memory, dirs: set<nat>) {
    forall d, i: nat :: d in dirs && i < PAGE_ENTRIES && Present(At(m, d, i)) ==> Open(At(m, d, i))
  }

  ghost predicate DirectoriesUsed(dirs: set<nat>, used: set<nat>) {
    forall d :: d in dirs ==> d < MAX_PAGES && d in used
  }

  /** Every table a directory points at is in memory, in use, and no directory. */
  ghost predicate TablesUsed(m: Memory, dirs: set<nat>, used: set<nat>) {
    forall d, i: nat, t: nat :: d in dirs && Points(m, d, i, t) ==> t < MAX_PAGES && t in used && t !in dirs
  }

  /** A table serves one directory index only, and in 1..767 one directory only. */
  ghost predicate TablesApart(m: Memory, dirs: set<nat>) {
    forall d, e, i: nat, j: nat, t: nat ::
      d in dirs && e in dirs && Points(m, d, i, t) && Points(m, e, j, t)
      ==> i == j && (1 <= i < USER_ENTRIES ==> d == e)
  }

  /** A page-table entry is either absent altogether or present. */
  ghost predicate EntriesClean(m: Memory, dirs: set<nat>) {
    forall d, v: nat :: d in dirs && v < PAGES ==> Entry(m, d, v) == 0 || Present(Entry(m, d, v))
  }

  /** All directories have the kernel's table for the first 4 MB. */
  ghost predicate LowShared(m: Memory, dirs: set<nat>, kernel: nat) {
    forall d :: d in dirs ==> At(m, d, 0) == At(m, kernel, 0) && Present(At(m, d, 0))
  }

  ghost predicate WellFormed(m: Memory, dirs: set<nat>, used: set<nat>, kernel: nat) {
    && kernel in dirs
    && DirectoriesUsed(dirs, used) && TablesUsed(m, dirs, used)
    && TablesApart(m, dirs) && EntriesClean(m, dirs) && LowShared(m, dirs, kernel) && TablesOpen(m, dirs)
  }

  ghost predicate IsTable(m: Memory, dirs: set<nat>, t: nat) {
    exists d, i: nat :: d in dirs && Points(m, d, i, t)
  }

  /** The frames that hold directories and page tables. */
  ghost function Live(m: Memory, dirs: set<nat>): set<nat> {
    dirs + set t: nat | t < MAX_PAGES && IsTable(m, dirs, t)
  }

  /** The sharing pattern: index 0 is one table for everyone, indices 1..767 are private. */
  lemma Sharing(m: Memory, dirs: set<nat>, used: set<nat>, kernel: nat, d: nat, e: nat, i: nat)
    requires WellFormed(m, dirs, used, kernel) && d in dirs && e in dirs && i < USER_ENTRIES
    ensures Alias(m, d, e, i) <==> d == e || i == 0
  {
    var t := FrameOf(At(m, d, i));
    assert At(m, d, 0) == At(m, e, 0);
    assert Points(m, d, i, t) && Points(m, e, i, t) ==> i == 0 || d == e;
  }

  /** What a write of entry w for page v under directory d does to every directory. */
  ghost predicate Updated(m: Memory, m': Memory, dirs: set<nat>, d: nat, v: nat, w: Word) {
    forall e, u: nat {:trigger Entry(m', e, u)} :: e in dirs && u < PAGES ==>
      Entry(m', e, u) == if u == v && Alias(m, e, d, v / PAGE_ENTRIES) then w else Entry(m, e, u)
  }

  ghost predicate SameEntries(m: Memory, m': Memory, dirs: set<nat>) {
    forall e, u: nat :: e in dirs && u < PAGES ==> Entry(m', e, u) == Entry(m, e, u)
  }

  ghost predicate SameSharing(m: Memory, m': Memory, dirs: set<nat>) {
    forall e, f, k: nat :: e in dirs && f in dirs ==> (Alias(m', e, f, k) <==> Alias(m, e, f, k))
  }

  /** One map or unmap is one update of the partial map of every directory that shares the table, and of no
      other: of the current directory alone for a page in 4 MB..3 GB, of all alike for one in the first 4 MB. */
  lemma UpdateRefinesMap(m: Memory, m': Memory, dirs: set<nat>, used: set<nat>, kernel: nat, d: nat, v: nat, w: Word)
    requires WellFormed(m, dirs, used, kernel) && d in dirs && v < PAGES && Updated(m, m', dirs, d, v, w)
    ensures forall e :: e in dirs ==>
      Translation(m', e) == if !Alias(m, e, d, v / PAGE_ENTRIES) then Translation(m, e)
                            else if Present(w) then Translation(m, e)[v := w] else Translation(m, e) - {v}
    ensures v < 0xC_0000 ==>
      forall e :: e in dirs ==> (Alias(m, e, d, v / PAGE_ENTRIES) <==> e == d || v < 1024)
  {
    if v < 0xC_0000 {
      forall e | e in dirs
        ensures Alias(m, e, d, v / PAGE_ENTRIES) <==> e == d || v < 1024
      {
        Sharing(m, dirs, used, kernel, e, d, v / PAGE_ENTRIES);
      }
    }
  }

  // ----- Ranges of pages -----

  /** How far page u lies past page v0, counting around the 32-bit address space. */
  function Offset(u: nat, v0: nat): nat {
    (u - v0) % PAGES
  }

  function PageAt(v0: nat, k: nat): nat {
    (v0 + k) % PAGES
  }

  /** The n pages from v0 on hold w(0), w(1), ... under d and every directory sharing the table;
      nothing else changed. */
  ghost predicate RangeUpdated(m: Memory, m': Memory, dirs: set<nat>, d: nat, v0: nat, n: nat, w: nat -> Word) {
    forall e, u: nat :: e in dirs && u < PAGES ==>
      Entry(m', e, u) ==
        if Alias(m, e, d, u / PAGE_ENTRIES) && Offset(u, v0) < n then w(Offset(u, v0)) else Entry(m, e, u)
  }

  /** The entries an unmapped range is left with. */
  function Cleared(k: nat): Word {
    0
  }

  lemma RangeStep(m: Memory, m1: Memory, m2: Memory, dirs: set<nat>, d: nat, v0: nat, n: nat, w: nat -> Word)
    requires d in dirs && v0 < PAGES && n < PAGES && SameSharing(m, m1, dirs)
    requires RangeUpdated(m, m1, dirs, d, v0, n, w) && Updated(m1, m2, dirs, d, PageAt(v0, n), w(n))
    ensures RangeUpdated(m, m2, dirs, d, v0, n + 1, w)
  {
    forall e, u: nat | e in dirs && u < PAGES
      ensures Entry(m2, e, u) ==
        if Alias(m, e, d, u / PAGE_ENTRIES) && Offset(u, v0) < n + 1 then w(Offset(u, v0)) else Entry(m, e, u)
    {
      OffsetOfPage(u, v0, n);
      assert Alias(m1, e, d, u / PAGE_ENTRIES) <==> Alias(m, e, d, u / PAGE_ENTRIES);
    }
  }

  lemma OffsetOfPage(u: nat, v0: nat, n: nat)
    requires u < PAGES && v0 < PAGES && n < PAGES
    ensures u == PageAt(v0, n) <==> Offset(u, v0) == n
  {}

  /** Undoing a range: pages absent before are absent again, pages present before are lost. */
  lemma RangeUndone(m: Memory, m1: Memory, m2: Memory, dirs: set<nat>, d: nat, v0: nat, n: nat, w: nat -> Word)
    requires d in dirs && v0 < PAGES && n < PAGES && SameSharing(m, m1, dirs)
    requires RangeUpdated(m, m1, dirs, d, v0, n, w) && RangeUpdated(m1, m2, dirs, d, v0, n, Cleared)
    ensures RangeUpdated(m, m2, dirs, d, v0, n, Cleared)
  {
    forall e, u: nat | e in dirs && u < PAGES
      ensures Entry(m2, e, u) ==
        if Alias(m, e, d, u / PAGE_ENTRIES) && Offset(u, v0) < n then 0 else Entry(m, e, u)
    {
      assert Alias(m1, e, d, u / PAGE_ENTRIES) <==> Alias(m, e, d, u / PAGE_ENTRIES);
    }
  }

  ghost predicate RangeAbsent(m: Memory, d: nat, v0: nat, n: nat) {
    forall k: nat :: k < n ==> !Present(Entry(m, d, PageAt(v0, k)))
  }

  /** Clearing a range leaves every translation as it was if and only if the range was unmapped. */
  lemma ClearedRange(m: Memory, m': Memory, dirs: set<nat>, d: nat, v0: nat, n: nat)
    requires d in dirs && v0 < PAGES && n < PAGES && EntriesClean(m, dirs)
    requires RangeUpdated(m, m', dirs, d, v0, n, Cleared)
    ensures SameEntries(m, m', dirs) <==> RangeAbsent(m, d, v0, n)
  {
    if RangeAbsent(m, d, v0, n) {
      forall e, u: nat | e in dirs && u < PAGES
        ensures Entry(m', e, u) == Entry(m, e, u)
      {
        if Alias(m, e, d, u / PAGE_ENTRIES) && Offset(u, v0) < n {
          OffsetOfPage(u, v0, Offset(u, v0));
          assert Entry(m, e, u) == Entry(m, d, u);
        }
      }
    }
    if SameEntries(m, m', dirs) {
      forall k: nat | k < n
        ensures !Present(Entry(m, d, PageAt(v0, k)))
      {
        OffsetOfPage(PageAt(v0, k), v0, k);
        assert Entry(m', d, PageAt(v0, k)) == 0;
      }
    }
  }

  lemma FirstCleared(m: Memory, m': Memory, dirs: set<nat>, d: nat, v0: nat)
    requires d in dirs && v0 < PAGES && RangeUpdated(m, m', dirs, d, v0, 1, Cleared)
    ensures Entry(m', d, v0) == 0
  {
    OffsetOfPage(v0, v0, 0);
  }

  // ----- Tables a range needs -----

  /** The directory index of the k-th page from v0 on. */
  function IndexAt(v0: nat, k: nat): nat {
    PageAt(v0, k) / PAGE_ENTRIES
  }

  /** The indices of directory d below the first n pages from v0 on that have no table. */
  ghost function Missing(m: Memory, d: nat, v0: nat, n: nat): set<nat> {
    set k: nat | k < PAGE_ENTRIES && IsMissing(m, d, v0, n, k)
  }

  ghost predicate IsMissing(m: Memory, d: nat, v0: nat, n: nat, k: nat) {
    !Present(At(m, d, k)) && exists j: nat :: j < n && IndexAt(v0, j) == k
  }

  /** How many of the first n pages can be mapped with so many frames for tables. */
  ghost function Mappable(m: Memory, d: nat, v0: nat, n: nat, free: nat): (r: nat)
    ensures r <= n
  {
    if n == 0 || |Missing(m, d, v0, n)| <= free then n else Mappable(m, d, v0, n - 1, free)
  }

  /** The tables of directory d are those it had and new ones at these indices. */
  ghost predicate TablesAdded(m: Memory, m': Memory, d: nat, added: set<nat>) {
    forall k: nat :: k < PAGE_ENTRIES ==> (Present(At(m', d, k)) <==> Present(At(m, d, k)) || k in added)
  }

  lemma MissingNext(m: Memory, d: nat, v0: nat, n: nat)
    ensures Missing(m, d, v0, n + 1) ==
      Missing(m, d, v0, n) + if Present(At(m, d, IndexAt(v0, n))) then {} else {IndexAt(v0, n)}
  {
    forall k: nat
      ensures IsMissing(m, d, v0, n + 1, k) <==>
        IsMissing(m, d, v0, n, k) || (!Present(At(m, d, k)) && k == IndexAt(v0, n))
    {
      if IsMissing(m, d, v0, n, k) {
        var j: nat :| j < n && IndexAt(v0, j) == k;
        assert j < n + 1;
      }
    }
  }

  lemma NoneMissing(m: Memory, d: nat, v0: nat)
    ensures Missing(m, d, v0, 0) == {}
  {}

  /** Mapping page n of the range takes a table exactly when that makes more tables missing. */
  lemma TablesStep(m0: Memory, m1: Memory, m2: Memory, d: nat, v0: nat, n: nat)
    requires TablesAdded(m0, m1, d, Missing(m0, d, v0, n))
    requires TablesAdded(m1, m2, d, if Present(At(m1, d, IndexAt(v0, n))) then {} else {IndexAt(v0, n)})
    ensures TablesAdded(m0, m2, d, Missing(m0, d, v0, n + 1))
  {
    MissingNext(m0, d, v0, n);
  }

  lemma TablesCount(m0: Memory, m1: Memory, d: nat, v0: nat, n: nat)
    requires TablesAdded(m0, m1, d, Missing(m0, d, v0, n))
    ensures |Missing(m0, d, v0, n + 1)| ==
      |Missing(m0, d, v0, n)| + if Present(At(m1, d, IndexAt(v0, n))) then 0 else 1
  {
    MissingNext(m0, d, v0, n);
    var k := IndexAt(v0, n);
    assert Present(At(m1, d, k)) <==> Present(At(m0, d, k)) || k in Missing(m0, d, v0, n);
    if Present(At(m1, d, k)) {
      assert Missing(m0, d, v0, n + 1) == Missing(m0, d, v0, n);
    }
  }

  lemma {:induction false} MissingGrows(m: Memory, d: nat, v0: nat, j: nat, n: nat)
    requires j <= n
    ensures |Missing(m, d, v0, j)| <= |Missing(m, d, v0, n)|
  {
    if j < n {
      MissingGrows(m, d, v0, j, n - 1);
      OneMorePage(m, d, v0, n - 1);
    }
  }

  lemma OneMorePage(m: Memory, d: nat, v0: nat, n: nat)
    ensures |Missing(m, d, v0, n)| <= |Missing(m, d, v0, n + 1)|
  {
    MissingNext(m, d, v0, n);
    var before, k := Missing(m, d, v0, n), IndexAt(v0, n);
    if k in before {
      assert before + {k} == before;
    }
  }

  /** The mappable pages end where the missing tables outnumber the free frames. */
  lemma {:induction false} MappableIs(m: Memory, d: nat, v0: nat, n: nat, free: nat, j: nat)
    requires j <= n && |Missing(m, d, v0, j)| <= free
    requires j < n ==> free < |Missing(m, d, v0, j + 1)|
    ensures Mappable(m, d, v0, n, free) == j
    ensures |Missing(m, d, v0, n)| <= free <==> j == n
    decreases n
  {
    if j < n {
      MissingGrows(m, d, v0, j + 1, n);
      MappableIs(m, d, v0, n - 1, free, j);
    }
  }

  // ----- Writes -----

  /** One word of one frame is replaced. */
  lemma OneWord(m: Memory, f: nat, i: nat, w: Word)
    requires f < MAX_PAGES && i < PAGE_ENTRIES
    ensures forall g: nat, j: nat ::
      At(m[f * PAGE_ENTRIES + i := w], g, j) == if g == f && j == i then w else At(m, g, j)
  {
    var m' := m[f * PAGE_ENTRIES + i := w];
    forall g: nat, j: nat
      ensures At(m', g, j) == if g == f && j == i then w else At(m, g, j)
    {
      if g < MAX_PAGES && j < PAGE_ENTRIES {
        assert g * PAGE_ENTRIES + j == f * PAGE_ENTRIES + i ==> g == f && j == i;
      }
    }
  }

  /** m' differs from m inside frame f at most. */
  ghost predicate OnlyFrame(m: Memory, m': Memory, f: nat) {
    forall g: nat, i: nat :: g != f ==> At(m', g, i) == At(m, g, i)
  }

  /** Writing a frame that is not live changes no translation and no sharing. */
  lemma DataWrite(m: Memory, m': Memory, dirs: set<nat>, used: set<nat>, kernel: nat, f: nat)
    requires WellFormed(m, dirs, used, kernel) && OnlyFrame(m, m', f) && f !in Live(m, dirs)
    ensures WellFormed(m', dirs, used, kernel) && SameTables(m, m', dirs)
  {
    forall d, v: nat | d in dirs && v < PAGES
      ensures Entry(m', d, v) == Entry(m, d, v)
    {
      var t := FrameOf(At(m, d, v / PAGE_ENTRIES));
      assert At(m', d, v / PAGE_ENTRIES) == At(m, d, v / PAGE_ENTRIES);
      assert Points(m, d, v / PAGE_ENTRIES, t) ==> IsTable(m, dirs, t) && t in Live(m, dirs);
    }
    SameDirectories(m, m', dirs, used);
  }

  lemma SameDirectories(m: Memory, m': Memory, dirs: set<nat>, used: set<nat>)
    requires forall d, i: nat :: d in dirs ==> At(m', d, i) == At(m, d, i)
    ensures Live(m', dirs) == Live(m, dirs)
    ensures TablesUsed(m, dirs, used) ==> TablesUsed(m', dirs, used)
    ensures TablesApart(m, dirs) ==> TablesApart(m', dirs)
  {
    assert forall d, i: nat, t: nat :: d in dirs ==> (Points(m', d, i, t) <==> Points(m, d, i, t));
    forall t: nat
      ensures IsTable(m', dirs, t) <==> IsTable(m, dirs, t)
    {
      if IsTable(m, dirs, t) {
        var d, i: nat :| d in dirs && Points(m, d, i, t);
        assert Points(m', d, i, t);
      }
    }
  }

  /** Entering an empty table from an unused frame changes no translation and no sharing. */
  lemma NewTable(m: Memory, m': Memory, dirs: set<nat>, used: set<nat>, kernel: nat, d: nat, i: nat, t: nat)
    requires WellFormed(m, dirs, used, kernel) && d in dirs && i < PAGE_ENTRIES && !Present(At(m, d, i))
    requires 0 < t < MAX_PAGES && t !in used
    requires forall g: nat, j: nat ::
      At(m', g, j) == if g == t then 0 else if g == d && j == i then t * PAGE_SIZE + TABLE_FLAGS else At(m, g, j)
    ensures WellFormed(m', dirs, used + {t}, kernel) && Live(m', dirs) == Live(m, dirs) + {t}
    ensures Points(m', d, i, t) && TablesAdded(m, m', d, {i})
    ensures SameEntries(m, m', dirs) && SameSharing(m, m', dirs)
  {
    TableEntered(m, m', d, i, t);
    TableFlagsOpen(t);
    NewTablePointers(m, m', dirs, used, kernel, d, i, t);
    forall e, v: nat | e in dirs && v < PAGES
      ensures Entry(m', e, v) == Entry(m, e, v)
    {
      assert At(m', e, v / PAGE_ENTRIES) == Pointer(m, d, i, t, e, v / PAGE_ENTRIES);
      assert Points(m, e, v / PAGE_ENTRIES, FrameOf(At(m, e, v / PAGE_ENTRIES))) ==>
        FrameOf(At(m, e, v / PAGE_ENTRIES)) != t && FrameOf(At(m, e, v / PAGE_ENTRIES)) != d;
    }
    forall e, f, k: nat | e in dirs && f in dirs
      ensures Alias(m', e, f, k) <==> Alias(m, e, f, k)
    {
      assert At(m', e, k) == Pointer(m, d, i, t, e, k) && At(m', f, k) == Pointer(m, d, i, t, f, k);
      assert Points(m, e, k, t) ==> t in used;
      assert Points(m, f, k, t) ==> t in used;
      assert k >= PAGE_ENTRIES ==> At(m, e, k) == At(m, f, k) == 0;
    }
  }

  lemma TableEntered(m: Memory, m': Memory, d: nat, i: nat, t: nat)
    requires t < MAX_PAGES && t != d
    requires forall g: nat, j: nat ::
      At(m', g, j) == if g == t then 0 else if g == d && j == i then t * PAGE_SIZE + TABLE_FLAGS else At(m, g, j)
    ensures TablesAdded(m, m', d, {i})
  {}

  ghost function Pointer(m: Memory, d: nat, i: nat, t: nat, e: nat, k: nat): (w: Word)
    requires t < MAX_PAGES
    ensures e == d && k == i ==> Present(w) && FrameOf(w) == t
  {
    if e == d && k == i then t * PAGE_SIZE + TABLE_FLAGS else At(m, e, k)
  }

  lemma NewTablePointers(m: Memory, m': Memory, dirs: set<nat>, used: set<nat>, kernel: nat, d: nat, i: nat, t: nat)
    requires WellFormed(m, dirs, used, kernel) && d in dirs && i < PAGE_ENTRIES && !Present(At(m, d, i))
    requires 0 < t < MAX_PAGES && t !in used
    requires forall e, k: nat :: e in dirs ==> At(m', e, k) == Pointer(m, d, i, t, e, k)
    ensures Live(m', dirs) == Live(m, dirs) + {t}
    ensures TablesUsed(m', dirs, used + {t}) && TablesApart(m', dirs) && LowShared(m', dirs, kernel)
  {
    forall e, k: nat, x: nat | e in dirs
      ensures Points(m', e, k, x) <==> Points(m, e, k, x) || (e == d && k == i && x == t)
    {
      assert At(m', e, k) == Pointer(m, d, i, t, e, k);
    }
    forall x: nat
      ensures IsTable(m', dirs, x) <==> x == t || IsTable(m, dirs, x)
    {
      assert Points(m', d, i, t);
      if IsTable(m, dirs, x) {
        var e, j: nat :| e in dirs && Points(m, e, j, x);
        assert Points(m', e, j, x);
      }
    }
    forall e | e in dirs
      ensures At(m', e, 0) == At(m', kernel, 0) && Present(At(m', e, 0))
    {
      assert At(m', e, 0) == Pointer(m, d, i, t, e, 0) && At(m', kernel, 0) == Pointer(m, d, i, t, kernel, 0);
      assert Present(At(m, d, 0));
    }
  }

  /** Writing one entry of the table behind index v / 1024 of directory d changes page v, for
      every directory that shares the table, and no other translation. */
  lemma SetEntry(m: Memory, m': Memory, dirs: set<nat>, used: set<nat>, kernel: nat, d: nat, v: nat, w: Word)
    requires WellFormed(m, dirs, used, kernel) && d in dirs && v < PAGES
    requires Present(At(m, d, v / PAGE_ENTRIES)) && (w == 0 || Present(w))
    requires forall g: nat, j: nat ::
      At(m', g, j) == if g == FrameOf(At(m, d, v / PAGE_ENTRIES)) && j == v % PAGE_ENTRIES then w else At(m, g, j)
    ensures WellFormed(m', dirs, used, kernel) && Live(m', dirs) == Live(m, dirs)
    ensures Updated(m, m', dirs, d, v, w) && SameSharing(m, m', dirs)
  {
    var t := FrameOf(At(m, d, v / PAGE_ENTRIES));
    assert Points(m, d, v / PAGE_ENTRIES, t);
    forall e, u: nat | e in dirs && u < PAGES
      ensures Entry(m', e, u) == if u == v && Alias(m, e, d, v / PAGE_ENTRIES) then w else Entry(m, e, u)
    {
      assert At(m', e, u / PAGE_ENTRIES) == At(m, e, u / PAGE_ENTRIES);
      assert Points(m, e, u / PAGE_ENTRIES, t) ==> u / PAGE_ENTRIES == v / PAGE_ENTRIES;
    }
    SameDirectories(m, m', dirs, used);
  }

  /** Frame t holds the kernel directory's entries 0 and 768..1023 and zeros elsewhere. */
  ghost predicate CopiesKernel(m: Memory, m': Memory, kernel: nat, t: nat) {
    forall g: nat, j: nat ::
      At(m', g, j) == if g != t then At(m, g, j) else if j == 0 || USER_ENTRIES <= j then At(m, kernel, j) else 0
  }

  /** A new directory that copies the kernel's entries 0 and 768..1023 and clears the rest. */
  lemma NewDirectory(m: Memory, m': Memory, dirs: set<nat>, used: set<nat>, kernel: nat, t: nat)
    requires WellFormed(m, dirs, used, kernel) && t < MAX_PAGES && t !in used
    requires CopiesKernel(m, m', kernel, t)
    ensures WellFormed(m', dirs + {t}, used + {t}, kernel) && Live(m', dirs + {t}) == Live(m, dirs) + {t}
    ensures SameEntries(m, m', dirs)
    ensures forall v: nat :: v < PAGES ==>
      Entry(m', t, v) == if v / PAGE_ENTRIES == 0 || USER_ENTRIES <= v / PAGE_ENTRIES then Entry(m, kernel, v) else 0
    ensures SameSharing(m, m', dirs)
  {
    NewDirectoryTables(m, m', dirs, used, kernel, t);
    NewDirectoryEntries(m, m', dirs, used, kernel, t);
  }

  lemma NewDirectoryEntries(m: Memory, m': Memory, dirs: set<nat>, used: set<nat>, kernel: nat, t: nat)
    requires WellFormed(m, dirs, used, kernel) && t < MAX_PAGES && t !in used && CopiesKernel(m, m', kernel, t)
    ensures SameEntries(m, m', dirs)
    ensures forall v: nat :: v < PAGES ==>
      Entry(m', t, v) == if v / PAGE_ENTRIES == 0 || USER_ENTRIES <= v / PAGE_ENTRIES then Entry(m, kernel, v) else 0
  {
    forall e, v: nat | e in dirs && v < PAGES
      ensures Entry(m', e, v) == Entry(m, e, v)
    {
      var x := FrameOf(At(m, e, v / PAGE_ENTRIES));
      assert At(m', e, v / PAGE_ENTRIES) == At(m, e, v / PAGE_ENTRIES);
      assert Points(m, e, v / PAGE_ENTRIES, x) ==> x != t;
    }
    forall v: nat | v < PAGES
      ensures Entry(m', t, v) ==
        if v / PAGE_ENTRIES == 0 || USER_ENTRIES <= v / PAGE_ENTRIES then Entry(m, kernel, v) else 0
    {
      var x := FrameOf(At(m, kernel, v / PAGE_ENTRIES));
      assert Points(m, kernel, v / PAGE_ENTRIES, x) ==> x != t;
    }
  }

  lemma NewDirectoryTables(m: Memory, m': Memory, dirs: set<nat>, used: set<nat>, kernel: nat, t: nat)
    requires WellFormed(m, dirs, used, kernel) && t < MAX_PAGES && t !in used
    requires CopiesKernel(m, m', kernel, t)
    ensures TablesUsed(m', dirs + {t}, used + {t}) && TablesApart(m', dirs + {t})
    ensures Live(m', dirs + {t}) == Live(m, dirs) + {t}
  {
    var dirs' := dirs + {t};
    forall e, i: nat, x: nat | e in dirs'
      ensures Points(m', e, i, x) <==>
        Points(m, Model(e, t, kernel), i, x) && (e == t ==> i == 0 || USER_ENTRIES <= i)
    {
      assert At(m', e, i) == At(m', e, i);
    }
    forall x: nat
      ensures IsTable(m', dirs', x) <==> IsTable(m, dirs, x)
    {
      if IsTable(m, dirs, x) {
        var e, j: nat :| e in dirs && Points(m, e, j, x);
        assert Points(m', e, j, x);
      }
    }
  }

  /** The directory whose pointers a directory has after t was created from the kernel's. */
  ghost function Model(e: nat, t: nat, kernel: nat): nat {
    if e == t then kernel else e
  }

  /** Between two moments only page tables were added: they come from unused frames, and which
      used frames hold data is unchanged. */
  ghost predicate Grown(m0: Memory, used0: set<nat>, m: Memory, used: set<nat>, dirs: set<nat>) {
    && SameSharing(m0, m, dirs)
    && used0 <= used && Live(m0, dirs) <= Live(m, dirs)
    && used - Live(m, dirs) == used0 - Live(m0, dirs)
  }

  lemma GrownTwice(m0: Memory, used0: set<nat>, m1: Memory, used1: set<nat>, m2: Memory, used2: set<nat>,
                   dirs: set<nat>)
    requires Grown(m0, used0, m1, used1, dirs) && Grown(m1, used1, m2, used2, dirs)
    ensures Grown(m0, used0, m2, used2, dirs)
  {}

  lemma OneTableGrown(m0: Memory, used0: set<nat>, m: Memory, used: set<nat>, dirs: set<nat>, t: nat)
    requires Live(m0, dirs) <= used0 && t !in used0 && SameSharing(m0, m, dirs)
    requires used == used0 + {t} && Live(m, dirs) == Live(m0, dirs) + {t}
    ensures Grown(m0, used0, m, used, dirs) && used - used0 == {t} && |used - used0| == 1
  {
    assert used - used0 == {t};
  }

  /** Between two moments frame p became a data frame, and at most one page table was added. */
  ghost predicate PageAllocated(m0: Memory, used0: set<nat>, m: Memory, used: set<nat>, dirs: set<nat>, p: nat) {
    && SameSharing(m0, m, dirs)
    && p !in used0 && p !in Live(m, dirs) && used0 + {p} <= used && Live(m0, dirs) <= Live(m, dirs)
    && used - Live(m, dirs) == used0 - Live(m0, dirs) + {p}
    && |used - used0 - {p}| <= 1
  }

  lemma AllocationAccount(m0: Memory, used0: set<nat>, m: Memory, used: set<nat>, dirs: set<nat>, p: nat)
    requires Live(m0, dirs) <= used0 && p !in used0
    requires Grown(m0, used0 + {p}, m, used, dirs) && |used - (used0 + {p})| <= 1
    ensures PageAllocated(m0, used0, m, used, dirs, p)
  {
    assert used - used0 - {p} == used - (used0 + {p});
    var live0, live := Live(m0, dirs), Live(m, dirs);
    assert used0 + {p} - live0 == used0 - live0 + {p};
  }

  /** Only data frames differ. */
  ghost predicate SameTables(m: Memory, m': Memory, dirs: set<nat>) {
    Live(m', dirs) == Live(m, dirs) && SameEntries(m, m', dirs) && SameSharing(m, m', dirs)
  }

  /** Whatever is written to data frames from m1 on, page v of directory d was given the new frame p. */
  ghost predicate AllocationHolds(m0: Memory, used0: set<nat>, m1: Memory, used: set<nat>, dirs: set<nat>,
                                  p: nat, d: nat, v: nat, w: Word)
  {
    forall m2: Memory :: SameTables(m1, m2, dirs) ==>
      PageAllocated(m0, used0, m2, used, dirs, p) && Updated(m0, m2, dirs, d, v, w)
  }

  /** A data write after an allocation does not show in the tables. */
  lemma ThenDataWrite(m0: Memory, used0: set<nat>, m1: Memory, used: set<nat>, dirs: set<nat>,
                      p: nat, d: nat, v: nat, w: Word)
    requires PageAllocated(m0, used0, m1, used, dirs, p) && Updated(m0, m1, dirs, d, v, w)
    ensures AllocationHolds(m0, used0, m1, used, dirs, p, d, v, w) && p !in Live(m1, dirs)
  {}

  /** Page v of directory d, unmapped before, was given the new frame p with entry w. */
  ghost predicate FreshlyMapped(m0: Memory, used0: set<nat>, m: Memory, used: set<nat>, dirs: set<nat>,
                                d: nat, v: nat, p: nat, w: Word)
  {
    && d in dirs && v < PAGES && Live(m0, dirs) <= used0 && Present(w) && FrameOf(w) == p
    && PageAllocated(m0, used0, m, used, dirs, p) && Updated(m0, m, dirs, d, v, w) && Entry(m0, d, v) == 0
  }

  lemma MappedNow(m0: Memory, used0: set<nat>, m: Memory, used: set<nat>, dirs: set<nat>,
                  d: nat, v: nat, p: nat, w: Word)
    requires FreshlyMapped(m0, used0, m, used, dirs, d, v, p, w)
    ensures Entry(m, d, v) == w && Present(w) && FrameOf(w) == p && p !in Live(m, dirs)
  {}

  /** Page v of directory d was unmapped and frame p released. */
  ghost predicate UnmappedAndFreed(m: Memory, used: set<nat>, m': Memory, used': set<nat>, dirs: set<nat>,
                                   total: nat, d: nat, v: nat, p: nat)
  {
    && d in dirs && v < PAGES && Updated(m, m', dirs, d, v, 0) && SameSharing(m, m', dirs)
    && Live(m', dirs) == Live(m, dirs) && used' == Released(used, total, p, 1)
  }

  /** Unmapping page v and releasing frame p undoes an allocation, but for a page table. */
  lemma AllocationUndone(m0: Memory, used0: set<nat>, m1: Memory, used1: set<nat>, m2: Memory, used2: set<nat>,
                         dirs: set<nat>, total: nat, d: nat, v: nat, p: nat, w: Word)
    requires FreshlyMapped(m0, used0, m1, used1, dirs, d, v, p, w) && p < total
    requires UnmappedAndFreed(m1, used1, m2, used2, dirs, total, d, v, p)
    ensures SameEntries(m0, m2, dirs) && Grown(m0, used0, m2, used2, dirs) && |used2 - used0| <= 1
  {
    forall e, u: nat | e in dirs && u < PAGES
      ensures Entry(m2, e, u) == Entry(m0, e, u)
    {
      if u == v && Alias(m0, e, d, v / PAGE_ENTRIES) {
        assert Entry(m0, e, v) == Entry(m0, d, v) == 0;
      }
    }
    assert Run(p, 1) == {p};
    assert used2 == used1 - {p};
    assert used2 - used0 == used1 - used0 - {p};
  }

  /** Whatever unmaps page v and releases frame p brings the earlier state back, but for a page table. */
  ghost predicate Undoable(m0: Memory, used0: set<nat>, m1: Memory, used1: set<nat>, dirs: set<nat>,
                           total: nat, d: nat, v: nat, p: nat)
  {
    forall m2: Memory, used2: set<nat> :: UnmappedAndFreed(m1, used1, m2, used2, dirs, total, d, v, p) ==>
      SameEntries(m0, m2, dirs) && Grown(m0, used0, m2, used2, dirs) && |used2 - used0| <= 1
  }

  lemma AllocationUndoable(m0: Memory, used0: set<nat>, m1: Memory, used1: set<nat>,
                           dirs: set<nat>, total: nat, d: nat, v: nat, p: nat, w: Word)
    requires FreshlyMapped(m0, used0, m1, used1, dirs, d, v, p, w) && p < total
    ensures Undoable(m0, used0, m1, used1, dirs, total, d, v, p)
    ensures Entry(m1, d, v) == w && Present(w) && FrameOf(w) == p && p !in Live(m1, dirs)
  {
    MappedNow(m0, used0, m1, used1, dirs, d, v, p, w);
    forall m2: Memory, used2: set<nat> | UnmappedAndFreed(m1, used1, m2, used2, dirs, total, d, v, p)
      ensures SameEntries(m0, m2, dirs) && Grown(m0, used0, m2, used2, dirs) && |used2 - used0| <= 1
    {
      AllocationUndone(m0, used0, m1, used1, m2, used2, dirs, total, d, v, p, w);
    }
  }

  lemma LiveUsed(m: Memory, dirs: set<nat>, used: set<nat>, kernel: nat)
    requires WellFormed(m, dirs, used, kernel)
    ensures Live(m, dirs) <= used
  {
    forall t | t in Live(m, dirs)
      ensures t in used
    {
      if t !in dirs {
        var d, i: nat :| d in dirs && Points(m, d, i, t);
      }
    }
  }

  /** The invariant needs of the used frames only that they include the live ones. */
  lemma OnlyLiveMatters(m: Memory, dirs: set<nat>, used: set<nat>, used': set<nat>, kernel: nat)
    requires WellFormed(m, dirs, used, kernel)
    ensures WellFormed(m, dirs, used', kernel) <==> Live(m, dirs) <= used'
  {
    if Live(m, dirs) <= used' {
      forall d, i: nat, t: nat | d in dirs && Points(m, d, i, t)
        ensures t in used'
      {
        assert IsTable(m, dirs, t) && t in Live(m, dirs);
      }
    }
    if WellFormed(m, dirs, used', kernel) {
      LiveUsed(m, dirs, used', kernel);
    }
  }

  /** Releasing one frame keeps the structures well formed iff it is not live or not managed. */
  lemma ReleaseOne(m: Memory, dirs: set<nat>, used: set<nat>, kernel: nat, total: nat, p: nat)
    requires WellFormed(m, dirs, used, kernel)
    ensures WellFormed(m, dirs, Released(used, total, p, 1), kernel) <==> p >= total || p !in Live(m, dirs)
  {
    var left := Released(used, total, p, 1);
    assert Run(p, 1) == {p};
    assert left == if p < total then used - {p} else used;
    LiveUsed(m, dirs, used, kernel);
    OnlyLiveMatters(m, dirs, used, left, kernel);
  }

  /** The paging structures at boot: one directory with one table. */
  ghost predicate IsBootDirectory(m: Memory, kernel: nat, table: nat)
    requires table < MAX_PAGES
  {
    && (forall j: nat :: At(m, kernel, j) == if j == 0 then table * PAGE_SIZE + TABLE_FLAGS else 0)
    && (forall j: nat :: At(m, table, j) == if j < PAGE_ENTRIES then j * PAGE_SIZE + TABLE_FLAGS else 0)
  }

  lemma BootDirectory(m: Memory, used: set<nat>, kernel: nat, table: nat)
    requires kernel in used && table in used && kernel != table && kernel < MAX_PAGES && table < MAX_PAGES
    requires IsBootDirectory(m, kernel, table)
    ensures WellFormed(m, {kernel}, used, kernel) && Live(m, {kernel}) == {kernel, table}
    ensures forall v: nat :: v < PAGES ==>
      Entry(m, kernel, v) == if v < PAGE_ENTRIES then v * PAGE_SIZE + TABLE_FLAGS else 0
  {
    BootOpen(m, kernel, table);
    BootTables(m, used, kernel, table);
    BootEntries(m, kernel, table);
  }

  lemma BootTables(m: Memory, used: set<nat>, kernel: nat, table: nat)
    requires kernel in used && table in used && kernel != table && kernel < MAX_PAGES && table < MAX_PAGES
    requires IsBootDirectory(m, kernel, table)
    ensures TablesUsed(m, {kernel}, used) && TablesApart(m, {kernel}) && LowShared(m, {kernel}, kernel)
    ensures Live(m, {kernel}) == {kernel, table}
  {
    forall d, i: nat, t: nat
      ensures d == kernel ==> (Points(m, d, i, t) <==> i == 0 && t == table)
    {
      BootPointer(m, kernel, table, i);
    }
    assert kernel in {kernel} && Points(m, kernel, 0, table);
    assert forall t: nat :: IsTable(m, {kernel}, t) ==> t == table;
    BootPointer(m, kernel, table, 0);
  }

  lemma BootPointer(m: Memory, kernel: nat, table: nat, i: nat)
    requires table < MAX_PAGES && IsBootDirectory(m, kernel, table)
    ensures Present(At(m, kernel, i)) <==> i == 0
    ensures FrameOf(At(m, kernel, 0)) == table
  {}

  lemma BootOpen(m: Memory, kernel: nat, table: nat)
    requires table < MAX_PAGES && IsBootDirectory(m, kernel, table)
    ensures TablesOpen(m, {kernel})
  {
    TableFlagsOpen(table);
  }

  lemma BootEntries(m: Memory, kernel: nat, table: nat)
    requires table < MAX_PAGES && IsBootDirectory(m, kernel, table)
    ensures EntriesClean(m, {kernel})
    ensures forall v: nat :: v < PAGES ==>
      Entry(m, kernel, v) == if v < PAGE_ENTRIES then v * PAGE_SIZE + TABLE_FLAGS else 0
  {
    forall v: nat | v < PAGES
      ensures Entry(m, kernel, v) == if v < PAGE_ENTRIES then v * PAGE_SIZE + TABLE_FLAGS else 0
      ensures Entry(m, kernel, v) == 0 || Present(Entry(m, kernel, v))
    {
      BootEntry(m, kernel, table, v);
    }
  }

  /** At boot user mode may read and write the first 4 MB, and nothing else. */
  lemma BootAccess(m: Memory, used: set<nat>, kernel: nat)
    requires WellFormed(m, {kernel}, used, kernel)
    requires forall v: nat :: v < PAGES ==> Entry(m, kernel, v) == if v < 1024 then v * 4096 + 7 else 0
    ensures forall v: nat :: v < PAGES ==>
      (UserMayRead(m, kernel, v) <==> v < 1024) && (UserMayWrite(m, kernel, v) <==> v < 1024)
  {
    forall v: nat | v < PAGES
      ensures (UserMayRead(m, kernel, v) <==> v < 1024) && (UserMayWrite(m, kernel, v) <==> v < 1024)
    {
      BootPageAccess(m, used, kernel, v);
    }
  }

  lemma BootPageAccess(m: Memory, used: set<nat>, kernel: nat, v: nat)
    requires WellFormed(m, {kernel}, used, kernel) && v < PAGES
    requires Entry(m, kernel, v) == if v < 1024 then v * 4096 + 7 else 0
    ensures (UserMayRead(m, kernel, v) <==> v < 1024) && (UserMayWrite(m, kernel, v) <==> v < 1024)
  {
    PageDecides(m, {kernel}, kernel, v);
    FlagBits(v, 7);
    FlagBits(0, 0);
  }

  lemma BootEntry(m: Memory, kernel: nat, table: nat, v: nat)
    requires table < MAX_PAGES && v < PAGES && IsBootDirectory(m, kernel, table)
    ensures Entry(m, kernel, v) == if v < PAGE_ENTRIES then v * PAGE_SIZE + TABLE_FLAGS else 0
    ensures Entry(m, kernel, v) == 0 || Present(Entry(m, kernel, v))
  {
    var pde := At(m, kernel, v / PAGE_ENTRIES);
    if v < PAGE_ENTRIES {
      assert v / PAGE_ENTRIES == 0 && v % PAGE_ENTRIES == v;
      assert Present(pde) && FrameOf(pde) == table;
    } else {
      assert pde == 0;
    }
  }

  // ----- What destroying a directory reaches -----

  /** Frame f is mapped by one of the first n entries of table t. */
  ghost predicate MappedBy(m: Memory, t: nat, n: nat, f: nat) {
    exists j: nat :: j < n && j < PAGE_ENTRIES && Present(At(m, t, j)) && FrameOf(At(m, t, j)) == f
  }

  /** Frame f is a table at one of the first n indices of directory pd, or mapped by one. */
  ghost predicate ReachedBy(m: Memory, pd: nat, n: nat, f: nat) {
    exists i: nat :: i < n && i < PAGE_ENTRIES && Present(At(m, pd, i)) && UnderTable(m, FrameOf(At(m, pd, i)), f)
  }

  ghost predicate UnderTable(m: Memory, t: nat, f: nat) {
    t == f || MappedBy(m, t, PAGE_ENTRIES, f)
  }

  /** The frames vmm_destroy_page_directory gives to pmm_free_page. */
  ghost predicate InFootprint(m: Memory, pd: nat, f: nat) {
    f == pd || ReachedBy(m, pd, USER_ENTRIES, f)
  }

  lemma MappedByNext(m: Memory, t: nat, n: nat, f: nat)
    requires n < PAGE_ENTRIES
    ensures MappedBy(m, t, n + 1, f) <==>
      MappedBy(m, t, n, f) || (Present(At(m, t, n)) && FrameOf(At(m, t, n)) == f)
  {
    if MappedBy(m, t, n + 1, f) {
      var j: nat :| j < n + 1 && j < PAGE_ENTRIES && Present(At(m, t, j)) && FrameOf(At(m, t, j)) == f;
      assert j < n || j == n;
    }
  }

  lemma ReachedByNext(m: Memory, pd: nat, n: nat, f: nat)
    requires n < PAGE_ENTRIES
    ensures ReachedBy(m, pd, n + 1, f) <==>
      ReachedBy(m, pd, n, f) || (Present(At(m, pd, n)) && UnderTable(m, FrameOf(At(m, pd, n)), f))
  {
    if ReachedBy(m, pd, n + 1, f) {
      var i: nat :| i < n + 1 && i < PAGE_ENTRIES && Present(At(m, pd, i)) && UnderTable(m, FrameOf(At(m, pd, i)), f);
      assert i < n || i == n;
    }
  }

  /** Destroying a directory keeps the remaining ones well formed if and only if it frees none of
      their frames.  All directories share the table of the first 4 MB, so it never does when that
      table's frame is one the allocator manages. */
  lemma DestroyBreaks(m: Memory, dirs: set<nat>, used: set<nat>, used': set<nat>, kernel: nat, pd: nat, total: nat)
    requires WellFormed(m, dirs, used, kernel) && pd in dirs && pd != kernel
    requires forall f: nat :: f in used' <==> f in used && !(f < total && InFootprint(m, pd, f))
    ensures WellFormed(m, dirs - {pd}, used', kernel) <==>
      forall f: nat :: f in Live(m, dirs - {pd}) && f < total ==> !InFootprint(m, pd, f)
    ensures FrameOf(At(m, kernel, 0)) < total ==> !WellFormed(m, dirs - {pd}, used', kernel)
  {
    var rest := dirs - {pd};
    FewerDirectories(m, dirs, used, kernel, pd);
    OnlyLiveMatters(m, rest, used, used', kernel);
    LiveUsed(m, rest, used, kernel);
    var low := FrameOf(At(m, kernel, 0));
    assert kernel in rest && Points(m, kernel, 0, low) && low in Live(m, rest);
    assert Present(At(m, pd, 0)) && UnderTable(m, FrameOf(At(m, pd, 0)), low) && InFootprint(m, pd, low);
  }

  lemma FewerDirectories(m: Memory, dirs: set<nat>, used: set<nat>, kernel: nat, pd: nat)
    requires WellFormed(m, dirs, used, kernel) && pd != kernel
    ensures WellFormed(m, dirs - {pd}, used, kernel)
  {}
}
