/** Building and tearing down a process's memory: its page directory with the kernel mapped in, its
    kernel stack and its user stack. */
module AddressSpace {
  import opened Common
  import opened Words
  import opened PageSet
  import opened PageAllocator
  import opened Paging

  const KERNEL_FLAGS: bv32 := 3  // present, writable
  const USER_FLAGS: bv32 := 7    // present, writable, user

  lemma FlagBits()
    ensures Present(KERNEL_FLAGS) && Writable(KERNEL_FLAGS) && !User(KERNEL_FLAGS)
    ensures Present(USER_FLAGS) && Writable(USER_FLAGS) && User(USER_FLAGS)
  {
  }

  /** The pages that single-page allocations can still hand out. */
  ghost function Available(used: set<nat>): set<nat> {
    Pages(0, PHYS_PAGES - 1) - used
  }

  lemma FindOne(used: set<nat>)
    ensures Find(used, PHYS_PAGES, 1).Some? <==> Available(used) != {}
    ensures Find(used, PHYS_PAGES, 1).Some? ==> Find(used, PHYS_PAGES, 1).value in Available(used)
  {
    var found := Find(used, PHYS_PAGES, 1);
    if found.Some? {
      assert Candidate(used, PHYS_PAGES, found.value, 1);
      assert found.value in Available(used);
    } else {
      if p :| p in Available(used) {
        assert Candidate(used, PHYS_PAGES, p, 1);
      }
    }
  }

  lemma TakeOne(used: set<nat>, p: nat)
    requires p in Available(used)
    ensures |Available(used + {p})| == |Available(used)| - 1
    ensures |used + {p}| == |used| + 1
  {
    assert Available(used + {p}) == Available(used) - {p};
  }

  /** The pages in use after `n` single pages have been taken, one after the other. */
  ghost function Singles(used: set<nat>, n: nat): set<nat> {
    if n == 0 then used
    else
      var u := Singles(used, n - 1);
      var p := Find(u, PHYS_PAGES, 1);
      if p.None? then u else u + {p.value}
  }

  lemma {:induction false} SinglesAfterOne(used: set<nat>, n: nat)
    ensures Singles(Singles(used, 1), n) == Singles(used, n + 1)
  {
    if n > 0 {
      SinglesAfterOne(used, n - 1);
    }
  }

  lemma OneThenFour(used: set<nat>, p: nat)
    requires Find(used, PHYS_PAGES, 1) == Some(p)
    ensures Singles(used + {p}, 4) == Singles(used, 5)
  {
    SinglesAfterOne(used, 4);
    assert Singles(used, 0) == used && Singles(used, 1) == used + {p};
  }

  /** Mapping a page takes the lowest page for a table, or none if the table is there or there is none. */
  lemma MapPageUsed(s: Phys, pd: nat, v: bv32, phys: bv32, flags: bv32)
    requires Tame(s.mem, s.used, pd) && (CanMap(s, pd, v) || pd != 0)
    ensures MapPage(s, pd, v, phys, flags).used ==
      if HasTable(s.mem, pd, DirIndex(v)) || Find(s.used, PHYS_PAGES, 1).None? then s.used
      else s.used + {Find(s.used, PHYS_PAGES, 1).value}
  {
    hide Present, Writable, User, FrameOf, DirIndex, TableIndex, Find, MapPage, HasTable, TableAt;
    MapPageAlways(s, pd, v, phys, flags);
  }

  // ----- memory_map_kernel

  function TablesFor(n: nat): nat {
    (n + 1023) / 1024
  }

  /** The directory maps nothing yet. */
  ghost predicate Empty(mem: Memory, pd: nat)
    requires Sized(mem) && pd < PHYS_PAGES
  {
    forall i: nat :: i < ENTRIES ==> !HasTable(mem, pd, i)
  }

  ghost function Identity(n: nat, w: bv32): Option<Mapping> {
    if FrameOf(w) < n then Some(Mapping(FrameOf(w), false, true)) else None
  }

  /** The first `n` pages of the kernel are mapped, out of an empty directory. */
  ghost predicate KernelMapped(s: Phys, s': Phys, pd: nat, n: nat) {
    && Space(s'.mem, s'.used, pd)
    && s.used <= s'.used && Sized(s.mem)
    && |s'.used| == |s.used| + TablesFor(n)
    && |Available(s'.used)| == |Available(s.used)| - TablesFor(n)
    && (forall k: nat :: k < ENTRIES ==> (HasTable(s'.mem, pd, k) <==> 1024 * k < n))
    && Frames(s'.mem, pd) == {pd} + (s'.used - s.used)
    && (forall f :: 0 <= f < PHYS_PAGES && f !in Frames(s'.mem, pd) ==> s'.mem[f] == s.mem[f])
    && (forall w: bv32 :: Translate(s'.mem, pd, w) == Identity(n, w))
  }

  lemma NothingMapped(s: Phys, pd: nat)
    requires Space(s.mem, s.used, pd) && Empty(s.mem, pd)
    ensures KernelMapped(s, s, pd, 0)
  {
    hide Present, Writable, User, FrameOf, DirIndex, TableIndex, Available;
    assert Frames(s.mem, pd) == {pd};
  }

  lemma CanMapNext(s: Phys, s1: Phys, pd: nat, n: nat)
    requires KernelMapped(s, s1, pd, n) && n < PHYS_PAGES
    requires |Available(s.used)| >= TablesFor(n + 1)
    ensures Space(s1.mem, s1.used, pd)
    ensures CanMap(s1, pd, FrameAddress(n)) && Present(KERNEL_FLAGS) && Writable(KERNEL_FLAGS)
  {
    hide Present, Writable, User, Find, Translate, FrameAddress, DirIndex;
    FlagBits();
    DirIndexOfPage(n);
    FindOne(s1.used);
  }

  /** One round of the loop of `memory_map_kernel`. */
  lemma MapNext(s: Phys, s1: Phys, pd: nat, n: nat)
    requires KernelMapped(s, s1, pd, n) && n < PHYS_PAGES && CanMap(s1, pd, FrameAddress(n))
    requires Present(KERNEL_FLAGS) && Writable(KERNEL_FLAGS)
    ensures KernelMapped(s, MapPage(s1, pd, FrameAddress(n), FrameAddress(n), KERNEL_FLAGS), pd, n + 1)
  {
    hide Translate, MapPage, Space, Find, FrameAddress, HasTable, Frames, Present, Writable, Available, Identity;
    MapNextTakes(s, s1, pd, n);
    MapNextFrames(s, s1, pd, n);
    MapNextTranslates(s, s1, pd, n);
  }

  lemma MapNextTranslates(s: Phys, s1: Phys, pd: nat, n: nat)
    requires KernelMapped(s, s1, pd, n) && n < PHYS_PAGES && CanMap(s1, pd, FrameAddress(n))
    requires Present(KERNEL_FLAGS) && Writable(KERNEL_FLAGS)
    ensures var s' := MapPage(s1, pd, FrameAddress(n), FrameAddress(n), KERNEL_FLAGS);
      && Space(s'.mem, s'.used, pd)
      && (forall w: bv32 :: Translate(s'.mem, pd, w) == Identity(n + 1, w))
  {
    hide Translate, MapPage, Space, Find, FrameAddress, HasTable, Frames, Present, Writable, User, PageOf, FrameOf;
    var v := FrameAddress(n);
    SpaceIsSized(s1.mem, s1.used, pd);
    var s' := MapPage(s1, pd, v, v, KERNEL_FLAGS);
    FlagBits();
    MapPageMaps(s1, pd, v, v, KERNEL_FLAGS);
    FrameAddressOf(n);
    SpaceIsSized(s'.mem, s'.used, pd);
    forall w: bv32 ensures Translate(s'.mem, pd, w) == Identity(n + 1, w) {
      OnPage(w, n);
      if FrameOf(w) == n {
        SamePageSameTranslation(s'.mem, pd, v, w);
      }
    }
  }

  lemma SamePageSameTranslation(mem: Memory, pd: nat, v: bv32, w: bv32)
    requires Sized(mem) && pd < PHYS_PAGES && PageOf(v) == PageOf(w)
    ensures Translate(mem, pd, v) == Translate(mem, pd, w)
  {
    hide PageOf, DirIndex, TableIndex, Present, Writable, User, FrameOf;
    IndicesNamePage(v, w);
  }

  lemma MapNextTakes(s: Phys, s1: Phys, pd: nat, n: nat)
    requires KernelMapped(s, s1, pd, n) && n < PHYS_PAGES && CanMap(s1, pd, FrameAddress(n))
    requires Present(KERNEL_FLAGS) && Writable(KERNEL_FLAGS)
    ensures var s' := MapPage(s1, pd, FrameAddress(n), FrameAddress(n), KERNEL_FLAGS);
      && Sized(s'.mem) && s.used <= s'.used
      && |s'.used| == |s.used| + TablesFor(n + 1)
      && |Available(s'.used)| == |Available(s.used)| - TablesFor(n + 1)
      && (forall k: nat :: k < ENTRIES ==> (HasTable(s'.mem, pd, k) <==> 1024 * k < n + 1))
  {
    hide Translate, Find, FrameAddress, Present, Writable, FrameOf, DirIndex, MapPage, Frames, Space, Available;
    var v := FrameAddress(n);
    SpaceIsSized(s1.mem, s1.used, pd);
    MapPageTakes(s1, pd, v, v, KERNEL_FLAGS);
    DirIndexOfPage(n);
    var s' := MapPage(s1, pd, v, v, KERNEL_FLAGS);
    var t := TableAt(s'.mem, pd, DirIndex(v));
    if HasTable(s1.mem, pd, DirIndex(v)) {
      assert s'.used == s1.used;
    } else {
      FindOne(s1.used);
      TakeOne(s1.used, t);
    }
  }

  lemma MapNextFrames(s: Phys, s1: Phys, pd: nat, n: nat)
    requires KernelMapped(s, s1, pd, n) && n < PHYS_PAGES && CanMap(s1, pd, FrameAddress(n))
    requires Present(KERNEL_FLAGS) && Writable(KERNEL_FLAGS)
    ensures var s' := MapPage(s1, pd, FrameAddress(n), FrameAddress(n), KERNEL_FLAGS);
      && Sized(s'.mem)
      && Frames(s'.mem, pd) == {pd} + (s'.used - s.used)
      && (forall f :: 0 <= f < PHYS_PAGES && f !in Frames(s'.mem, pd) ==> s'.mem[f] == s.mem[f])
  {
    hide Translate, Find, FrameAddress, Present, Writable, FrameOf, DirIndex, MapPage, Space, Available, Frames;
    var v := FrameAddress(n);
    SpaceIsSized(s1.mem, s1.used, pd);
    MapPageFrames(s1, pd, v, v, KERNEL_FLAGS);
  }

  // ----- the tables that a directory gets, whatever memory there is

  /** The table that is made when `k` have been made: frame 0 if no page is left. */
  ghost function NthTable(used: set<nat>, k: nat): nat {
    var found := Find(Singles(used, k), PHYS_PAGES, 1);
    if found.Some? then found.value else 0
  }

  ghost function NthTables(used: set<nat>, n: nat): set<nat> {
    if n == 0 then {} else NthTables(used, n - 1) + {NthTable(used, n - 1)}
  }

  /** The first `n` pages of the kernel have been gone through, out of an empty directory. */
  ghost predicate TablesMade(s: Phys, s': Phys, pd: nat, n: nat) {
    && Tame(s'.mem, s'.used, pd) && Sized(s.mem) && pd in s.used && pd != 0
    && s'.used == Singles(s.used, TablesFor(n))
    && (forall k: nat :: k < ENTRIES ==> (HasTable(s'.mem, pd, k) <==> 1024 * k < n))
    && (forall k: nat :: k < ENTRIES && 1024 * k < n ==> TableAt(s'.mem, pd, k) == NthTable(s.used, k))
    && (forall f :: 0 < f < PHYS_PAGES && f in s.used && f != pd ==> s'.mem[f] == s.mem[f])
  }

  lemma NoTablesMade(s: Phys, pd: nat)
    requires Tame(s.mem, s.used, pd) && Empty(s.mem, pd) && pd != 0
    ensures TablesMade(s, s, pd, 0)
  {
    hide Present, FrameOf;
  }

  lemma NextTableMade(s: Phys, s1: Phys, pd: nat, n: nat)
    requires TablesMade(s, s1, pd, n) && n < PHYS_PAGES && Present(KERNEL_FLAGS)
    ensures Tame(s1.mem, s1.used, pd) && pd != 0
    ensures TablesMade(s, MapPage(s1, pd, FrameAddress(n), FrameAddress(n), KERNEL_FLAGS), pd, n + 1)
  {
    hide Present, FrameOf, DirIndex, FrameAddress, Find, MapPage;
    var v := FrameAddress(n);
    MapPageAlways(s1, pd, v, v, KERNEL_FLAGS);
    DirIndexOfPage(n);
    var s', i := MapPage(s1, pd, v, v, KERNEL_FLAGS), n / 1024;
    NthTableIsNew(s.used, i);
    assert HasTable(s1.mem, pd, i) <==> n % 1024 != 0;
    assert TablesFor(n + 1) == i + 1 && TablesFor(n) == if n % 1024 != 0 then i + 1 else i;
    assert TableFor(s1, pd, i) == NthTable(s.used, i);
    forall k: nat | k < ENTRIES && k != i
      ensures HasTable(s'.mem, pd, k) == HasTable(s1.mem, pd, k) && TableAt(s'.mem, pd, k) == TableAt(s1.mem, pd, k)
    {
      assert s'.mem[pd][k] == s1.mem[pd][k];
    }
  }

  lemma {:induction false} SinglesGrow(used: set<nat>, n: nat)
    ensures used <= Singles(used, n)
  {
    hide Find;
    if n > 0 {
      SinglesGrow(used, n - 1);
    }
  }

  /** A table is frame 0 or a page that was not in use. */
  lemma NthTableIsNew(used: set<nat>, k: nat)
    ensures NthTable(used, k) == 0 || NthTable(used, k) !in used
    ensures NthTable(used, k) < PHYS_PAGES
  {
    SinglesGrow(used, k);
    var u := Singles(used, k);
    var found := Find(u, PHYS_PAGES, 1);
    assert found.Some? ==> Candidate(u, PHYS_PAGES, found.value, 1);
  }

  function Least(a: nat, b: nat): nat {
    if a < b then a else b
  }

  /** As many pages are taken as are asked for and available. */
  lemma {:induction false} SinglesTake(used: set<nat>, n: nat)
    ensures |Singles(used, n)| == |used| + Least(|Available(used)|, n)
    ensures |Available(Singles(used, n))| == |Available(used)| - Least(|Available(used)|, n)
  {
    hide Find, Available;
    if n > 0 {
      SinglesTake(used, n - 1);
      var u := Singles(used, n - 1);
      FindOne(u);
      if Find(u, PHYS_PAGES, 1).Some? {
        TakeOne(u, Find(u, PHYS_PAGES, 1).value);
      }
    }
  }

  /** The tables are the pages taken, and frame 0 if those do not suffice. */
  lemma {:induction false} TablesAreTaken(used: set<nat>, n: nat)
    ensures NthTables(used, n) == (Singles(used, n) - used) + (if |Available(used)| < n then {0} else {})
  {
    hide Find, Available, Singles, NthTable;
    if n == 0 {
      NoSingles(used);
    } else {
      TablesAreTaken(used, n - 1);
      NextSingle(used, n - 1);
      SetStep(used, Singles(used, n - 1), NthTable(used, n - 1), NthTables(used, n - 1));
    }
  }

  lemma NoSingles(used: set<nat>)
    ensures Singles(used, 0) == used && used - used == {}
  {
  }

  lemma SetStep(used: set<nat>, u: set<nat>, t: nat, tables: set<nat>)
    ensures t !in used && tables == (u - used) + {} ==> tables + {t} == ((u + {t}) - used) + {}
    ensures tables == u - used + {} ==> tables + {0} == (u - used) + {0}
    ensures tables == u - used + {0} ==> tables + {0} == (u - used) + {0}
  {
  }

  lemma NextSingle(used: set<nat>, n: nat)
    ensures if |Available(used)| <= n then NthTable(used, n) == 0 && Singles(used, n + 1) == Singles(used, n)
      else NthTable(used, n) !in used && Singles(used, n + 1) == Singles(used, n) + {NthTable(used, n)}
  {
    hide Find, Available;
    SinglesTake(used, n);
    SinglesGrow(used, n);
    var u := Singles(used, n);
    FindOne(u);
    if Find(u, PHYS_PAGES, 1).Some? {
      AvailableIsFree(u, Find(u, PHYS_PAGES, 1).value);
    }
  }

  lemma AvailableIsFree(used: set<nat>, p: nat)
    requires p in Available(used)
    ensures p !in used && |Available(used)| > 0
  {
  }

  /** Without an available page there is no run of pages either. */
  lemma NothingAvailable(used: set<nat>, count: nat)
    requires |Available(used)| == 0 && count > 0
    ensures Find(used, PHYS_PAGES, count).None?
  {
    hide Available, Find, Candidate;
    FindOne(used);
    if Find(used, PHYS_PAGES, count).Some? {
      ShorterRun(used, Find(used, PHYS_PAGES, count), count);
    }
  }

  lemma ShorterRun(used: set<nat>, first: Option<nat>, count: nat)
    requires Finds(used, PHYS_PAGES, count, first) && first.Some? && count > 0
    ensures Candidate(used, PHYS_PAGES, first.value, 1)
  {
  }

  // ----- the stages of process creation

  ghost function Stack(first: Option<nat>, count: nat): set<nat> {
    if first.Some? then Pages(first.value, count) else {}
  }

  /** The whole of physical memory is mapped onto itself and nothing above it; user code may touch
      only the `mapped` first pages of the user stack. */
  ghost function ProcessMapping(user: Option<nat>, mapped: nat, w: bv32): Option<Mapping> {
    if FrameOf(w) < PHYS_PAGES
    then Some(Mapping(FrameOf(w), user.Some? && user.value <= FrameOf(w) < user.value + mapped, true))
    else None
  }

  /** `all` is made of three parts that are apart. */
  ghost predicate Parts(all: set<nat>, a: set<nat>, b: set<nat>, c: set<nat>) {
    all == a + b + c && a !! b && a !! c && b !! c
  }

  /** A process under construction: what it has taken since `s0` is its directory and tables, its
      kernel stack and its user stack, all apart, and nothing else has been written. */
  ghost predicate Stage(s0: Phys, s: Phys, pd: nat, kernel: Option<nat>, user: Option<nat>, mapped: nat) {
    && Space(s.mem, s.used, pd) && Sized(s0.mem) && s0.used <= s.used
    && Parts(s.used - s0.used, Frames(s.mem, pd), Stack(kernel, 2), Stack(user, 4))
    && |Frames(s.mem, pd)| == 5
    && (forall p :: p in s.used - s0.used ==> p < PHYS_PAGES)
    && (forall k: nat :: k < ENTRIES ==> (HasTable(s.mem, pd, k) <==> k < 4))
    && (forall f :: 0 <= f < PHYS_PAGES && f !in s.used - s0.used ==> s.mem[f] == s0.mem[f])
    && (forall w: bv32 :: Translate(s.mem, pd, w) == ProcessMapping(user, mapped, w))
  }

  ghost predicate DirectoryMade(s0: Phys, s1: Phys, pd: nat) {
    && Sized(s0.mem) && pd < PHYS_PAGES && pd !in s0.used
    && s1 == Phys(s0.mem[pd := Zeros()], s0.used + {pd})
  }

  lemma MadeDirectoryIsEmpty(s0: Phys, s1: Phys, pd: nat)
    requires DirectoryMade(s0, s1, pd)
    ensures Space(s1.mem, s1.used, pd) && Empty(s1.mem, pd)
  {
    hide Present, Writable, User, FrameOf;
    ZeroEntry();
  }

  lemma StageWithKernel(s0: Phys, s1: Phys, s: Phys, pd: nat)
    requires DirectoryMade(s0, s1, pd) && KernelMapped(s1, s, pd, PHYS_PAGES)
    ensures Stage(s0, s, pd, None, None, 0)
  {
    hide Translate, Space, FrameOf, HasTable, Frames, Available;
    SpaceIsSized(s.mem, s.used, pd);
    var tables := s.used - s1.used;
    assert |tables| == 4 by { SetSize(s1.used, s.used); }
    assert Frames(s.mem, pd) == {pd} + tables && pd !in tables;
    assert s.used - s0.used == {pd} + tables;
    FramesInMemory(s.mem, s.used, pd);
    forall w: bv32 ensures Translate(s.mem, pd, w) == ProcessMapping(None, 0, w) {
      assert Translate(s.mem, pd, w) == Identity(PHYS_PAGES, w);
    }
  }

  lemma FramesInMemory(mem: Memory, used: set<nat>, pd: nat)
    requires Space(mem, used, pd)
    ensures forall p :: p in Frames(mem, pd) ==> p < PHYS_PAGES && p in used
  {
    hide Present, Writable, User, FrameOf;
  }

  /** A run found free is apart from everything taken before. */
  lemma TakenApart(used0: set<nat>, used: set<nat>, taken: set<nat>, count: nat, first: nat)
    requires used0 <= used && used - used0 == taken && Find(used, PHYS_PAGES, count) == Some(first)
    ensures (used + Pages(first, count)) - used0 == taken + Pages(first, count)
    ensures taken !! Pages(first, count)
    ensures forall p :: p in Pages(first, count) ==> p < PHYS_PAGES && p !in used
  {
    hide Find, Pages;
    AllocThenFree(used, PHYS_PAGES, count, first);
    assert Candidate(used, PHYS_PAGES, first, count);
  }

  lemma AddPart(all: set<nat>, a: set<nat>, b: set<nat>, c: set<nat>)
    ensures Parts(all, a, {}, {}) && all !! b ==> Parts(all + b, a, b, {})
    ensures Parts(all, a, b, {}) && all !! c ==> Parts(all + c, a, b, c)
  {
  }

  lemma TakeKernelStack(s0: Phys, s: Phys, pd: nat, first: nat)
    requires Stage(s0, s, pd, None, None, 0) && Find(s.used, PHYS_PAGES, 2) == Some(first)
    ensures Stage(s0, s.(used := s.used + Pages(first, 2)), pd, Some(first), None, 0)
  {
    hide Translate, Find, FrameOf, HasTable, Frames, Space, Pages, Parts;
    SpaceIsSized(s.mem, s.used, pd);
    MoreInUse(s.mem, s.used, s.used + Pages(first, 2), pd);
    TakenApart(s0.used, s.used, s.used - s0.used, 2, first);
    AddPart(s.used - s0.used, Frames(s.mem, pd), Pages(first, 2), {});
  }

  lemma TakeUserStack(s0: Phys, s: Phys, pd: nat, kernel: nat, first: nat)
    requires Stage(s0, s, pd, Some(kernel), None, 0) && Find(s.used, PHYS_PAGES, 4) == Some(first)
    ensures Stage(s0, s.(used := s.used + Pages(first, 4)), pd, Some(kernel), Some(first), 0)
  {
    hide Translate, Find, FrameOf, HasTable, Frames, Space, Pages, Parts;
    SpaceIsSized(s.mem, s.used, pd);
    MoreInUse(s.mem, s.used, s.used + Pages(first, 4), pd);
    TakenApart(s0.used, s.used, s.used - s0.used, 4, first);
    AddPart(s.used - s0.used, Frames(s.mem, pd), Pages(kernel, 2), Pages(first, 4));
  }

  lemma MoreInUse(mem: Memory, used: set<nat>, used': set<nat>, pd: nat)
    requires Space(mem, used, pd) && used <= used'
    ensures Space(mem, used', pd)
  {
    hide Present, Writable, User, FrameOf;
  }

  lemma TableServes(s: Phys, pd: nat, v: bv32, flags: bv32)
    requires Sized(s.mem) && pd < PHYS_PAGES && HasTable(s.mem, pd, DirIndex(v))
    ensures CanMap(s, pd, v) && Mappable(s, pd, DirIndex(v), flags)
  {
    hide DirIndex;
  }

  /** Mapping a page of physical memory onto itself again takes no page, and sets the page's right. */
  lemma Remap(s0: Phys, s: Phys, pd: nat, kernel: Option<nat>, user: Option<nat>, mapped: nat, page: nat, flags: bv32)
    requires Stage(s0, s, pd, kernel, user, mapped) && page < PHYS_PAGES && Present(flags) && Writable(flags)
    ensures CanMap(s, pd, FrameAddress(page)) && HasTable(s.mem, pd, DirIndex(FrameAddress(page)))
    ensures var s' := MapPage(s, pd, FrameAddress(page), FrameAddress(page), flags);
      && Space(s'.mem, s'.used, pd) && s'.used == s.used && Frames(s'.mem, pd) == Frames(s.mem, pd)
      && (forall k: nat :: k < ENTRIES ==> (HasTable(s'.mem, pd, k) <==> k < 4))
      && (forall f :: 0 <= f < PHYS_PAGES && f !in s.used - s0.used ==> s'.mem[f] == s0.mem[f])
      && (forall w: bv32 :: Translate(s'.mem, pd, w) ==
            if FrameOf(w) == page then Some(Mapping(page, User(flags), true)) else ProcessMapping(user, mapped, w))
  {
    hide Translate, Find, FrameOf, Frames, Space, MapPage, FrameAddress, Present, Writable, User, DirIndex, PageOf;
    hide Mappable, CanMap;
    var v := FrameAddress(page);
    SpaceIsSized(s.mem, s.used, pd);
    DirIndexOfPage(page);
    TableServes(s, pd, v, flags);
    var s' := MapPage(s, pd, v, v, flags);
    MapPageMaps(s, pd, v, v, flags);
    MapPageTakes(s, pd, v, v, flags);
    MapPageFrames(s, pd, v, v, flags);
    FrameAddressOf(page);
    forall w: bv32
      ensures Translate(s'.mem, pd, w) ==
        if FrameOf(w) == page then Some(Mapping(page, User(flags), true)) else ProcessMapping(user, mapped, w)
    {
      OnPage(w, page);
      if FrameOf(w) == page {
        SamePageSameTranslation(s'.mem, pd, v, w);
      }
    }
  }

  lemma MapKernelStackPage(s0: Phys, s: Phys, pd: nat, kernel: nat, page: nat)
    requires Stage(s0, s, pd, Some(kernel), None, 0) && page < PHYS_PAGES
    ensures Present(KERNEL_FLAGS) && Writable(KERNEL_FLAGS) && CanMap(s, pd, FrameAddress(page))
    ensures HasTable(s.mem, pd, DirIndex(FrameAddress(page)))
    ensures Stage(s0, MapPage(s, pd, FrameAddress(page), FrameAddress(page), KERNEL_FLAGS), pd, Some(kernel), None, 0)
  {
    hide Translate, Find, FrameOf, Frames, Space, MapPage, FrameAddress, Present, Writable, User, DirIndex, HasTable;
    hide CanMap;
    FlagBits();
    Remap(s0, s, pd, Some(kernel), None, 0, page, KERNEL_FLAGS);
  }

  lemma MapUserStackPage(s0: Phys, s: Phys, pd: nat, kernel: nat, user: nat, mapped: nat)
    requires Stage(s0, s, pd, Some(kernel), Some(user), mapped) && mapped < 4
    ensures user + mapped < PHYS_PAGES && Present(USER_FLAGS) && Writable(USER_FLAGS)
      && CanMap(s, pd, FrameAddress(user + mapped))
    ensures HasTable(s.mem, pd, DirIndex(FrameAddress(user + mapped)))
    ensures Stage(s0, MapPage(s, pd, FrameAddress(user + mapped), FrameAddress(user + mapped), USER_FLAGS), pd,
      Some(kernel), Some(user), mapped + 1)
  {
    hide Translate, Find, FrameOf, Frames, Space, MapPage, FrameAddress, Present, Writable, User, DirIndex, HasTable;
    hide CanMap;
    FlagBits();
    var page := user + mapped;
    assert page in Stack(Some(user), 4) && page in s.used - s0.used;
    hide Parts;
    Remap(s0, s, pd, Some(kernel), Some(user), mapped, page, USER_FLAGS);
  }

  /** What a process in construction has taken. */
  lemma StageTakes(s0: Phys, s: Phys, pd: nat, kernel: Option<nat>, user: Option<nat>, mapped: nat)
    requires Stage(s0, s, pd, kernel, user, mapped)
    ensures |s.used| == |s0.used| + 5 + (if kernel.Some? then 2 else 0) + (if user.Some? then 4 else 0)
    ensures s.used - Frames(s.mem, pd) - Stack(kernel, 2) - Stack(user, 4) == s0.used
  {
    hide Space, Translate, FrameOf, Frames, HasTable, Pages;
    if kernel.Some? {
      PagesSize(kernel.value, 2);
    }
    if user.Some? {
      PagesSize(user.value, 4);
    }
    SpaceIsSized(s.mem, s.used, pd);
    var frames, k, u := Frames(s.mem, pd), Stack(kernel, 2), Stack(user, 4);
    SetSize(s0.used, s.used);
    assert |frames + k| == |frames| + |k|;
    assert |frames + k + u| == |frames + k| + |u|;
  }

  // ----- tearing a directory down

  ghost function TablesBelow(mem: Memory, pd: nat, n: nat): set<nat>
    requires Sized(mem) && pd < PHYS_PAGES && n <= ENTRIES
  {
    set i: nat | i < n && HasTable(mem, pd, i) :: TableAt(mem, pd, i)
  }

  /** How many directory entries point to tables; several may point to frame 0. */
  function TableCount(mem: Memory, pd: nat, n: nat): nat
    requires Sized(mem) && pd < PHYS_PAGES && n <= ENTRIES
  {
    if n == 0 then 0 else TableCount(mem, pd, n - 1) + if HasTable(mem, pd, n - 1) then 1 else 0
  }

  lemma {:induction false} SpaceCountsTables(mem: Memory, used: set<nat>, pd: nat, n: nat)
    requires Space(mem, used, pd) && n <= ENTRIES
    ensures |TablesBelow(mem, pd, n)| == TableCount(mem, pd, n)
  {
    hide Space, Present, FrameOf, TablesBelow;
    SpaceIsSized(mem, used, pd);
    AllTables(mem, used, pd);
    if n > 0 {
      SpaceCountsTables(mem, used, pd, n - 1);
      NextTable(mem, used, pd, n - 1);
    }
  }

  lemma {:induction false} MadeCount(mem: Memory, pd: nat, n: nat)
    requires Sized(mem) && pd < PHYS_PAGES && n <= ENTRIES
    requires forall k: nat :: k < ENTRIES ==> (HasTable(mem, pd, k) <==> k < 4)
    ensures TableCount(mem, pd, n) == Least(n, 4)
  {
    if n > 0 {
      MadeCount(mem, pd, n - 1);
    }
  }

  lemma {:induction false} MadeTables(s: Phys, s': Phys, pd: nat, n: nat)
    requires TablesMade(s, s', pd, PHYS_PAGES) && n <= 4
    ensures TablesBelow(s'.mem, pd, n) == NthTables(s.used, n)
  {
    hide Present, FrameOf, Find, NthTable, Singles;
    if n > 0 {
      MadeTables(s, s', pd, n - 1);
      assert HasTable(s'.mem, pd, n - 1) && TableAt(s'.mem, pd, n - 1) == NthTable(s.used, n - 1);
      assert TablesBelow(s'.mem, pd, n) == TablesBelow(s'.mem, pd, n - 1) + {TableAt(s'.mem, pd, n - 1)};
    }
  }

  lemma MadeFrames(s: Phys, s': Phys, pd: nat)
    requires TablesMade(s, s', pd, PHYS_PAGES)
    ensures Frames(s'.mem, pd) == {pd} + NthTables(s.used, 4) && TableCount(s'.mem, pd, ENTRIES) == 4
  {
    hide Present, FrameOf, Find, NthTable;
    MadeTables(s, s', pd, 4);
    assert TablesBelow(s'.mem, pd, ENTRIES) == TablesBelow(s'.mem, pd, 4);
    MadeCount(s'.mem, pd, ENTRIES);
  }

  lemma NextTable(mem: Memory, used: set<nat>, pd: nat, n: nat)
    requires Tame(mem, used, pd) && n < ENTRIES
    ensures var tables, t := TablesBelow(mem, pd, n), TableAt(mem, pd, n);
      if HasTable(mem, pd, n)
      then TablesBelow(mem, pd, n + 1) == tables + {t} && t < PHYS_PAGES
      else TablesBelow(mem, pd, n + 1) == tables
    ensures Space(mem, used, pd) && HasTable(mem, pd, n) ==> TableAt(mem, pd, n) !in TablesBelow(mem, pd, n)
  {
    hide Present, Writable, User, FrameOf;
  }

  lemma AllTables(mem: Memory, used: set<nat>, pd: nat)
    requires Tame(mem, used, pd)
    ensures Frames(mem, pd) == TablesBelow(mem, pd, ENTRIES) + {pd}
    ensures pd !in TablesBelow(mem, pd, ENTRIES) && pd in used
    ensures TablesBelow(mem, pd, 0) == {}
  {
    hide Present, Writable, User, FrameOf;
  }
}
