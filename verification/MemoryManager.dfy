/** The memory manager working in place on physical memory, proved against `Paging`. */
module MemoryManager {
  import opened Common
  import opened Words
  import opened PageSet
  import opened PageAllocator
  import opened Paging
  import opened AddressSpace

  class Manager {
    const pages: Allocator
    const frames: array<seq<bv32>>  // the contents of physical memory, page by page

    ghost const repr: set<object>

    ghost predicate Valid()
      reads this, pages, pages.bitmap, frames
    {
      && repr == {pages, pages.bitmap, frames} && this !in repr
      && frames as object != pages.bitmap && frames as object != pages && pages.bitmap as object != pages
      && pages.Valid()
      && Sized(frames[..])
    }

    ghost function State(): Phys
      requires Valid()
      reads this, pages, pages.bitmap, frames
    {
      Phys(frames[..], pages.Used())
    }

    /** The start of `memory_init`, over whatever physical memory holds. */
    constructor (contents: seq<seq<bv32>>)
      requires Sized(contents)
      ensures Valid() && fresh(repr)
      ensures State() == Phys(contents, Pages(0, RESERVED_PAGES)) && pages.total == 0
    {
      var allocator := new Allocator();
      var memory := new seq<bv32>[PHYS_PAGES](i requires 0 <= i < PHYS_PAGES => contents[i]);
      pages, frames := allocator, memory;
      repr := {allocator, allocator.bitmap, memory};
      new;
      assert frames[..] == contents;
    }

    method AllocPages(count: nat) returns (first: Option<nat>)
      requires Valid() && count <= PHYS_PAGES
      modifies repr
      ensures Valid() && first == Find(old(State()).used, PHYS_PAGES, count)
      ensures State() ==
        old(State()).(used := old(State()).used + (if first.Some? then Pages(first.value, count) else {}))
      ensures pages.total == if first.Some? then Wrap(old(pages.total) + count) else old(pages.total)
    {
      hide Find, Pages, UsedPages;
      first := pages.Alloc(count);
    }

    method FreePages(first: nat, count: nat)
      requires Valid() && first + count <= PHYS_PAGES
      modifies repr
      ensures Valid() && State() == old(State()).(used := old(State()).used - Pages(first, count))
      ensures pages.total == Wrap(old(pages.total) - count)
    {
      hide Pages, UsedPages;
      pages.Free(first, count);
    }

    method Write(frame: nat, page: seq<bv32>)
      requires Valid() && frame < PHYS_PAGES && |page| == ENTRIES
      modifies frames
      ensures Valid() && State() == old(State()).(mem := old(State()).mem[frame := page])
    {
      frames[frame] := page;
      assert frames[..] == old(frames[..])[frame := page];
    }

    /** `memory_map_page`, up to its last store. */
    method GetTable(pd: nat, i: nat, flags: bv32) returns (table: nat)
      requires Valid() && Tame(State().mem, State().used, pd) && i < ENTRIES
      requires HasTable(State().mem, pd, i) || Find(State().used, PHYS_PAGES, 1).Some? || pd != 0
      modifies repr
      ensures Valid() && State() == EnsureTable(old(State()), pd, i, flags)
      ensures table == TableFor(old(State()), pd, i) == TableAt(State().mem, pd, i) && table < PHYS_PAGES
      ensures pages.total == if Taken(old(State()), pd, i) then Wrap(old(pages.total) + 1) else old(pages.total)
    {
      hide Present, Writable, User, FrameOf, DirEntry, AddUser, Find;
      ghost var s := State();
      EnsureTableKeepsTame(s, pd, i, flags);
      if !Present(frames[pd][i]) {
        var found := AllocPages(1);
        table := if found.Some? then found.value else 0;
        Write(table, Zeros());
        Write(pd, frames[pd][i := DirEntry(table, flags)]);
        assert Pages(table, 1) == {table};
      } else {
        table := FrameOf(frames[pd][i]);
        assert table == TableAt(s.mem, pd, i);
        if User(flags) {
          Write(pd, frames[pd][i := AddUser(frames[pd][i])]);
        }
      }
    }

    /** Whether a page is taken for a table. */
    ghost predicate Taken(s: Phys, pd: nat, i: nat)
      requires Tame(s.mem, s.used, pd) && i < ENTRIES
    {
      !HasTable(s.mem, pd, i) && Find(s.used, PHYS_PAGES, 1).Some?
    }

    method MapPage(pd: nat, v: bv32, phys: bv32, flags: bv32)
      requires Valid() && Tame(State().mem, State().used, pd) && (CanMap(State(), pd, v) || pd != 0)
      modifies repr
      ensures Valid() && State() == Paging.MapPage(old(State()), pd, v, phys, flags)
      ensures pages.total ==
        if Taken(old(State()), pd, DirIndex(v)) then Wrap(old(pages.total) + 1) else old(pages.total)
    {
      hide Present, Writable, User, FrameOf, DirIndex, TableIndex, Find, EnsureTable, PageEntry;
      EnsureTableKeepsTame(State(), pd, DirIndex(v), flags);
      var table := GetTable(pd, DirIndex(v), flags);
      Write(table, frames[table][TableIndex(v) := PageEntry(phys, flags)]);
    }

    /** `memory_create_page_directory`. It fails, and marks page 0, if that is free. */
    method CreateDirectory() returns (pd: Option<nat>)
      requires Valid()
      modifies repr
      ensures Valid() && pd == NonNull(Find(old(State()).used, PHYS_PAGES, 1))
      ensures pd.None? ==>
        && State() == old(State()).(used := Requested(old(State()).used, PHYS_PAGES, 1))
        && pages.total == if 0 in old(State()).used then old(pages.total) else Wrap(old(pages.total) + 1)
      ensures pd.Some? ==>
        && pd.value < PHYS_PAGES
        && State() == Phys(old(State()).mem[pd.value := Zeros()], old(State()).used + {pd.value})
        && pages.total == Wrap(old(pages.total) + 1)
    {
      hide Find;
      var found := AllocPages(1);
      pd := NonNull(found);
      if pd.None? {
        FoundNull(old(State()).used);
        return;
      }
      assert Candidate(old(State()).used, PHYS_PAGES, pd.value, 1);
      assert Pages(pd.value, 1) == {pd.value};
      Write(pd.value, Zeros());
    }

    /** Page 0 is what a search for one page finds exactly when it is free. */
    lemma FoundNull(used: set<nat>)
      ensures Find(used, PHYS_PAGES, 1) == Some(0) <==> 0 !in used
    {
      assert 0 !in used ==> Candidate(used, PHYS_PAGES, 0, 1);
    }

    /** `memory_map_kernel`: with four pages available the identity map of all memory. In every case as many
        tables as there are pages, and frame 0 for the others. */
    method MapKernel(pd: nat)
      requires Valid() && Space(State().mem, State().used, pd) && Empty(State().mem, pd) && pd != 0
      modifies repr
      ensures Valid() && TablesMade(old(State()), State(), pd, PHYS_PAGES)
      ensures |Available(old(State()).used)| >= 4 ==> KernelMapped(old(State()), State(), pd, PHYS_PAGES)
      ensures pages.total == Wrap(old(pages.total) + Least(|Available(old(State()).used)|, 4))
    {
      hide Present, Writable, User, FrameOf, DirIndex, Find, Space, Paging.MapPage, FrameAddress, KernelMapped;
      hide Available;
      hide TablesMade, Tame, Singles;
      ghost var s := State();
      SpaceIsSized(s.mem, s.used, pd);
      FlagBits();
      NothingMapped(s, pd);
      NoTablesMade(s, pd);
      var i := 0;
      while i < PHYS_PAGES
        invariant 0 <= i <= PHYS_PAGES
        invariant Valid() && TablesMade(s, State(), pd, i)
        invariant |Available(s.used)| >= 4 ==> KernelMapped(s, State(), pd, i)
        invariant pages.total == Wrap(old(pages.total) + |State().used| - |s.used|)
      {
        NextTableMade(s, State(), pd, i);
        if |Available(s.used)| >= 4 {
          CanMapNext(s, State(), pd, i);
          MapNext(s, State(), pd, i);
        }
        CountTaken(State(), pd, FrameAddress(i), old(pages.total) - |s.used|);
        MapPage(pd, FrameAddress(i), FrameAddress(i), KERNEL_FLAGS);
        i := i + 1;
      }
      TablesMadeUse(s, State(), pd);
      SinglesTake(s.used, 4);
    }

    lemma TablesMadeUse(s: Phys, s': Phys, pd: nat)
      requires TablesMade(s, s', pd, PHYS_PAGES)
      ensures s'.used == Singles(s.used, 4)
    {
      hide Tame, Singles, HasTable, TableAt, NthTable;
    }

    /** The counter follows the pages in use. */
    lemma CountTaken(s: Phys, pd: nat, v: bv32, rest: int)
      requires Tame(s.mem, s.used, pd) && pd != 0
      ensures var s' := Paging.MapPage(s, pd, v, v, KERNEL_FLAGS); var t := Wrap(rest + |s.used|);
        Wrap(rest + |s'.used|) == if Taken(s, pd, DirIndex(v)) then Wrap(t + 1) else t
    {
      hide Present, FrameOf, DirIndex, Find, Paging.MapPage, Wrap, HasTable, TableAt;
      MapPageAlways(s, pd, v, v, KERNEL_FLAGS);
      WrapAgain(rest + |s.used|, 1);
      FoundIsFree(s.used, PHYS_PAGES);
    }

    /** One round of the loop of `memory_destroy_page_directory`. */
    method FreeTable(pd: nat, i: nat, ghost s: Phys)
      requires Valid() && Tame(s.mem, s.used, pd) && i < ENTRIES
      requires State() == s.(used := s.used - TablesBelow(s.mem, pd, i))
      modifies repr
      ensures Valid() && State() == s.(used := s.used - TablesBelow(s.mem, pd, i + 1))
      ensures pages.total == Wrap(old(pages.total) - (TableCount(s.mem, pd, i + 1) - TableCount(s.mem, pd, i)))
    {
      hide Present, Writable, User, FrameOf, Pages, TablesBelow;
      NextTable(s.mem, s.used, pd, i);
      if Present(frames[pd][i]) {
        OnePage(FrameOf(frames[pd][i]));
        FreePages(FrameOf(frames[pd][i]), 1);
        assert s.used - TablesBelow(s.mem, pd, i + 1) == (s.used - TablesBelow(s.mem, pd, i)) - {TableAt(s.mem, pd, i)};
      }
    }

    /** `memory_destroy_page_directory`: every entry's table is freed, and then the directory. */
    method DestroyDirectory(pd: nat)
      requires Valid() && Tame(State().mem, State().used, pd)
      modifies repr
      ensures Valid() && State() == old(State()).(used := old(State()).used - Frames(old(State()).mem, pd))
      ensures pages.total == Wrap(old(pages.total) - TableCount(old(State()).mem, pd, ENTRIES) - 1)
    {
      hide Present, Writable, User, FrameOf, Pages, TablesBelow, Frames, Wrap, TableCount;
      ghost var s := State();
      AllTables(s.mem, s.used, pd);
      NoTables(s.mem, pd, old(pages.total));
      for i := 0 to ENTRIES
        invariant Valid() && State() == s.(used := s.used - TablesBelow(s.mem, pd, i))
        invariant pages.total == Wrap(old(pages.total) - TableCount(s.mem, pd, i))
      {
        WrapAgain(old(pages.total) - TableCount(s.mem, pd, i), TableCount(s.mem, pd, i) - TableCount(s.mem, pd, i + 1));
        FreeTable(pd, i, s);
      }
      WrapAgain(old(pages.total) - TableCount(s.mem, pd, ENTRIES), -1);
      OnePage(pd);
      FreePages(pd, 1);
      assert s.used - Frames(s.mem, pd) == (s.used - TablesBelow(s.mem, pd, ENTRIES)) - {pd};
    }

    lemma NoTables(mem: Memory, pd: nat, total: nat)
      requires Sized(mem) && pd < PHYS_PAGES && total < WORD_VALUES
      ensures total == Wrap(total - TableCount(mem, pd, 0))
    {
    }
  }
}
