/** Two-level page tables in physical memory, as section 4.3 (32-bit paging) and section 4.6 (access
    rights) of volume 3A of the Intel Software Developer's Manual read them, and the kernel's code
    that fills them in. A pointer to a page is the number of its frame. */
module Paging {
  import opened Common
  import opened PageSet
  import opened PageAllocator
  import opened Words

  // ----- memory and translation

  type Memory = seq<seq<bv32>>

  ghost predicate Sized(mem: Memory) {
    |mem| == PHYS_PAGES && forall f :: 0 <= f < PHYS_PAGES ==> |mem[f]| == ENTRIES
  }

  /** What `memset(page, 0, PAGE_SIZE)` leaves in a page. */
  function Zeros(): (page: seq<bv32>)
    ensures |page| == ENTRIES && forall i :: 0 <= i < ENTRIES ==> page[i] == 0
  {
    seq(ENTRIES, i => 0)
  }

  datatype Mapping = Mapping(frame: nat, user: bool, writable: bool)

  /** What the processor makes of a virtual address: a right must be granted at both levels. A table
      outside physical memory maps nothing. */
  ghost function Translate(mem: Memory, pd: nat, v: bv32): Option<Mapping>
    requires Sized(mem) && pd < PHYS_PAGES
  {
    var pde := mem[pd][DirIndex(v)];
    if !Present(pde) || FrameOf(pde) >= PHYS_PAGES then None
    else
      var pte := mem[FrameOf(pde)][TableIndex(v)];
      if !Present(pte) then None
      else Some(Mapping(FrameOf(pte), User(pde) && User(pte), Writable(pde) && Writable(pte)))
  }

  /** The directory entry at `i` points to a table. */
  predicate HasTable(mem: Memory, pd: nat, i: nat)
    requires Sized(mem) && pd < PHYS_PAGES && i < ENTRIES
  {
    Present(mem[pd][i])
  }

  function TableAt(mem: Memory, pd: nat, i: nat): nat
    requires Sized(mem) && pd < PHYS_PAGES && i < ENTRIES
  {
    FrameOf(mem[pd][i])
  }

  /** An address space: its directory and its tables are distinct frames in use, directory entries
      allow writing, and a table with a user page has the user bit in its directory entry. */
  ghost predicate Space(mem: Memory, used: set<nat>, pd: nat) {
    && Sized(mem) && pd < PHYS_PAGES && pd in used
    && (forall i: nat :: i < ENTRIES && HasTable(mem, pd, i) ==>
          && TableAt(mem, pd, i) < PHYS_PAGES && TableAt(mem, pd, i) in used && TableAt(mem, pd, i) != pd
          && Writable(mem[pd][i]))
    && (forall i: nat, j: nat :: i < j < ENTRIES && HasTable(mem, pd, i) && HasTable(mem, pd, j) ==>
          TableAt(mem, pd, i) != TableAt(mem, pd, j))
    && (forall i: nat, j: nat ::
          i < ENTRIES && j < ENTRIES && HasTable(mem, pd, i) && User(mem[TableAt(mem, pd, i)][j]) ==> User(mem[pd][i]))
  }

  /** All that the code relies on: the directory is in use, and its tables are other frames. */
  ghost predicate Tame(mem: Memory, used: set<nat>, pd: nat) {
    && Sized(mem) && pd < PHYS_PAGES && pd in used
    && (forall i: nat :: i < ENTRIES && HasTable(mem, pd, i) ==>
      TableAt(mem, pd, i) < PHYS_PAGES && TableAt(mem, pd, i) != pd)
  }

  lemma SpaceIsSized(mem: Memory, used: set<nat>, pd: nat)
    requires Space(mem, used, pd)
    ensures Sized(mem) && pd < PHYS_PAGES && pd in used && Tame(mem, used, pd)
  {
    hide Present, Writable, User, FrameOf;
  }

  // ----- memory_map_page

  /** Physical memory and the pages in use. */
  datatype Phys = Phys(mem: Memory, used: set<nat>)

  /** The first half of `memory_map_page`: the directory entry gets a table if it has none, and the
      user bit if a user page is to be mapped. The code does not check that a page was found for the
      table: without one it goes on with the null pointer, which is frame 0. */
  ghost function EnsureTable(s: Phys, pd: nat, i: nat, flags: bv32): Phys
    requires Tame(s.mem, s.used, pd) && i < ENTRIES
  {
    if !HasTable(s.mem, pd, i) then
      var found := Find(s.used, PHYS_PAGES, 1);
      var table := if found.Some? then found.value else 0;
      var mem := s.mem[table := Zeros()];
      Phys(mem[pd := mem[pd][i := DirEntry(table, flags)]],
           if found.Some? then s.used + {table} else s.used)
    else if User(flags) then s.(mem := s.mem[pd := s.mem[pd][i := AddUser(s.mem[pd][i])]])
    else s
  }

  ghost function SetEntry(mem: Memory, table: nat, i: nat, e: bv32): Memory
    requires Sized(mem) && table < PHYS_PAGES && i < ENTRIES
  {
    mem[table := mem[table][i := e]]
  }

  /** Whether `memory_map_page` finds the page it may need. */
  ghost predicate CanMap(s: Phys, pd: nat, v: bv32)
    requires Sized(s.mem) && pd < PHYS_PAGES
  {
    HasTable(s.mem, pd, DirIndex(v)) || Find(s.used, PHYS_PAGES, 1).Some?
  }

  /** Whether it then has a table as it needs one: there is one, or a page for it and flags that make the
      directory entry present and writable. */
  ghost predicate Mappable(s: Phys, pd: nat, i: nat, flags: bv32)
    requires Sized(s.mem) && pd < PHYS_PAGES && i < ENTRIES
  {
    HasTable(s.mem, pd, i) || (Find(s.used, PHYS_PAGES, 1).Some? && Present(flags) && Writable(flags))
  }

  /** The table for a directory entry, new or not: the lowest free page, or frame 0 if there is none. */
  ghost function TableFor(s: Phys, pd: nat, i: nat): nat
    requires Tame(s.mem, s.used, pd) && i < ENTRIES
  {
    if HasTable(s.mem, pd, i) then TableAt(s.mem, pd, i)
    else
      var found := Find(s.used, PHYS_PAGES, 1);
      if found.Some? then found.value else 0
  }

  lemma EnsureTableKeepsTame(s: Phys, pd: nat, i: nat, flags: bv32)
    requires Tame(s.mem, s.used, pd) && i < ENTRIES
    requires HasTable(s.mem, pd, i) || Find(s.used, PHYS_PAGES, 1).Some? || pd != 0
    ensures var s', t := EnsureTable(s, pd, i, flags), TableFor(s, pd, i);
      && Sized(s'.mem) && t < PHYS_PAGES && t != pd && TableAt(s'.mem, pd, i) == t
      && (HasTable(s'.mem, pd, i) <==> HasTable(s.mem, pd, i) || Present(flags))
      && (!HasTable(s.mem, pd, i) ==> (Writable(s'.mem[pd][i]) <==> Writable(flags)))
      && (forall j :: 0 <= j < ENTRIES && j != i ==> s'.mem[pd][j] == s.mem[pd][j])
      && (forall f :: 0 <= f < PHYS_PAGES && f != t && f != pd ==> s'.mem[f] == s.mem[f])
      && s'.used == (if HasTable(s.mem, pd, i) || Find(s.used, PHYS_PAGES, 1).None? then s.used else s.used + {t})
      && Tame(s'.mem, s'.used, pd)
  {
    hide PageOf, Value, DirEntry, Present, Writable, User, FrameOf, AddUser;
    if HasTable(s.mem, pd, i) {
      AddUserFrame(s.mem[pd][i]);
      AddUserBits(s.mem[pd][i]);
    } else {
      var found := Find(s.used, PHYS_PAGES, 1);
      assert found.Some? ==> Candidate(s.used, PHYS_PAGES, found.value, 1);
      DirEntryBits(TableFor(s, pd, i), flags);
    }
    var s' := EnsureTable(s, pd, i, flags);
    forall k: nat | k < ENTRIES && k != i
      ensures HasTable(s'.mem, pd, k) == HasTable(s.mem, pd, k) && TableAt(s'.mem, pd, k) == TableAt(s.mem, pd, k)
    {
      assert s'.mem[pd][k] == s.mem[pd][k];
    }
  }

  lemma AddUserFrame(e: bv32)
    ensures FrameOf(AddUser(e)) == FrameOf(e)
  {
    hide PageOf, Value, AddUser;
    AddUserKeepsPage(e);
  }

  ghost function MapPage(s: Phys, pd: nat, v: bv32, phys: bv32, flags: bv32): (s': Phys)
    requires Tame(s.mem, s.used, pd) && (CanMap(s, pd, v) || pd != 0)
  {
    EnsureTableKeepsTame(s, pd, DirIndex(v), flags);
    var s1 := EnsureTable(s, pd, DirIndex(v), flags);
    s1.(mem := SetEntry(s1.mem, TableAt(s1.mem, pd, DirIndex(v)), TableIndex(v), PageEntry(phys, flags)))
  }

  /** What every call does, also when there is no page for a table that is needed: the directory entry
      leads to the table, and only directory and table are written. */
  lemma MapPageAlways(s: Phys, pd: nat, v: bv32, phys: bv32, flags: bv32)
    requires Tame(s.mem, s.used, pd) && (CanMap(s, pd, v) || pd != 0)
    ensures var s', i := MapPage(s, pd, v, phys, flags), DirIndex(v); var t := TableFor(s, pd, i);
      && Tame(s'.mem, s'.used, pd) && t < PHYS_PAGES && t != pd
      && TableAt(s'.mem, pd, i) == t && (HasTable(s'.mem, pd, i) <==> HasTable(s.mem, pd, i) || Present(flags))
      && (!HasTable(s.mem, pd, i) ==> (Writable(s'.mem[pd][i]) <==> Writable(flags)))
      && (forall j :: 0 <= j < ENTRIES && j != i ==> s'.mem[pd][j] == s.mem[pd][j])
      && (forall f :: 0 <= f < PHYS_PAGES && f != t && f != pd ==> s'.mem[f] == s.mem[f])
      && s'.used == (if CanMap(s, pd, v) && !HasTable(s.mem, pd, i) then s.used + {t} else s.used)
  {
    hide PageOf, Value, DirEntry, Present, Writable, User, FrameOf, AddUser, DirIndex, TableIndex, Find, EnsureTable;
    hide PageEntry;
    EnsureTableKeepsTame(s, pd, DirIndex(v), flags);
    var s1, s' := EnsureTable(s, pd, DirIndex(v), flags), MapPage(s, pd, v, phys, flags);
    assert s'.mem[pd] == s1.mem[pd] && Sized(s'.mem);
    assert forall k: nat :: k < ENTRIES ==>
      HasTable(s'.mem, pd, k) == HasTable(s1.mem, pd, k) && TableAt(s'.mem, pd, k) == TableAt(s1.mem, pd, k);
  }

  /** The entry a new table gets, and what the search for its page promises. */
  lemma NewTable(s: Phys, pd: nat, i: nat, flags: bv32)
    requires Space(s.mem, s.used, pd) && i < ENTRIES && !HasTable(s.mem, pd, i)
    requires Find(s.used, PHYS_PAGES, 1).Some? && Present(flags) && Writable(flags)
    ensures var t := Find(s.used, PHYS_PAGES, 1).value;
      var s' := EnsureTable(s, pd, i, flags);
      && t < PHYS_PAGES && t !in s.used && t != pd
      && Sized(s'.mem) && s'.used == s.used + {t}
      && s'.mem[t] == Zeros()
      && s'.mem[pd] == s.mem[pd][i := DirEntry(t, flags)]
      && (forall f :: 0 <= f < PHYS_PAGES && f != t && f != pd ==> s'.mem[f] == s.mem[f])
      && HasTable(s'.mem, pd, i) && TableAt(s'.mem, pd, i) == t
      && Writable(s'.mem[pd][i]) && (User(s'.mem[pd][i]) <==> User(flags))
  {
    hide PageOf, DirEntry, Present, Writable, User, FrameOf;
    var t := Find(s.used, PHYS_PAGES, 1).value;
    DirEntryBits(t, flags);
  }

  /** Giving a table's directory entry the user bit changes that entry only, and only that bit. */
  lemma WidenedTable(s: Phys, pd: nat, i: nat, flags: bv32)
    requires Space(s.mem, s.used, pd) && i < ENTRIES && HasTable(s.mem, pd, i)
    ensures var s' := EnsureTable(s, pd, i, flags);
      && Sized(s'.mem) && s'.used == s.used
      && (forall f :: 0 <= f < PHYS_PAGES && f != pd ==> s'.mem[f] == s.mem[f])
      && (forall j :: 0 <= j < ENTRIES && j != i ==> s'.mem[pd][j] == s.mem[pd][j])
      && HasTable(s'.mem, pd, i) && TableAt(s'.mem, pd, i) == TableAt(s.mem, pd, i)
      && Writable(s'.mem[pd][i]) && (User(s'.mem[pd][i]) <==> User(flags) || User(s.mem[pd][i]))
  {
    hide Present, Writable, User, PageOf, Value, AddUser;
    AddUserKeepsPage(s.mem[pd][i]);
    AddUserBits(s.mem[pd][i]);
  }

  lemma NewTableKeepsSpace(s: Phys, pd: nat, i: nat, flags: bv32)
    requires Space(s.mem, s.used, pd) && i < ENTRIES && !HasTable(s.mem, pd, i)
    requires Find(s.used, PHYS_PAGES, 1).Some? && Present(flags) && Writable(flags)
    ensures var s' := EnsureTable(s, pd, i, flags); Space(s'.mem, s'.used, pd)
  {
    hide EnsureTable, Present, Writable, User, FrameOf, Find;
    var s' := EnsureTable(s, pd, i, flags);
    NewTable(s, pd, i, flags);
    ZeroEntry();
    var t := TableAt(s'.mem, pd, i);
    forall k: nat | k < ENTRIES && k != i
      ensures HasTable(s'.mem, pd, k) == HasTable(s.mem, pd, k) && TableAt(s'.mem, pd, k) == TableAt(s.mem, pd, k)
      ensures HasTable(s.mem, pd, k) ==>
        TableAt(s.mem, pd, k) != t && s'.mem[TableAt(s.mem, pd, k)] == s.mem[TableAt(s.mem, pd, k)]
    {
      assert s'.mem[pd][k] == s.mem[pd][k];
    }
    assert forall j :: 0 <= j < ENTRIES ==> s'.mem[t][j] == 0;
  }

  lemma WidenedTableKeepsSpace(s: Phys, pd: nat, i: nat, flags: bv32)
    requires Space(s.mem, s.used, pd) && i < ENTRIES && HasTable(s.mem, pd, i)
    ensures var s' := EnsureTable(s, pd, i, flags); Space(s'.mem, s'.used, pd)
  {
    hide EnsureTable, Present, Writable, User, FrameOf;
    WidenedTable(s, pd, i, flags);
    var s' := EnsureTable(s, pd, i, flags);
    assert forall k: nat :: k < ENTRIES ==> (HasTable(s'.mem, pd, k) <==> HasTable(s.mem, pd, k));
    assert forall k: nat :: k < ENTRIES ==> TableAt(s'.mem, pd, k) == TableAt(s.mem, pd, k);
  }

  lemma EnsureTableKeepsSpace(s: Phys, pd: nat, i: nat, flags: bv32)
    requires Space(s.mem, s.used, pd) && i < ENTRIES && Mappable(s, pd, i, flags)
    ensures var s' := EnsureTable(s, pd, i, flags);
      && Space(s'.mem, s'.used, pd)
      && HasTable(s'.mem, pd, i)
      && (User(flags) ==> User(s'.mem[pd][i]))
  {
    hide Space, EnsureTable, Present, Writable, User, FrameOf;
    SpaceIsSized(s.mem, s.used, pd);
    if !HasTable(s.mem, pd, i) {
      NewTable(s, pd, i, flags);
      NewTableKeepsSpace(s, pd, i, flags);
    } else {
      WidenedTable(s, pd, i, flags);
      WidenedTableKeepsSpace(s, pd, i, flags);
    }
  }

  /** No address translates differently for it: a new table maps nothing, and where the user bit is
      new no page of the table is a user page. */
  lemma EnsureTableKeepsTranslation(s: Phys, pd: nat, i: nat, flags: bv32, w: bv32)
    requires Space(s.mem, s.used, pd) && i < ENTRIES && Mappable(s, pd, i, flags)
    ensures var s' := EnsureTable(s, pd, i, flags);
      Sized(s'.mem) && Translate(s'.mem, pd, w) == Translate(s.mem, pd, w)
  {
    hide EnsureTable, Present, Writable, User, FrameOf, DirIndex, TableIndex;
    if !HasTable(s.mem, pd, i) {
      NewTable(s, pd, i, flags);
      ZeroEntry();
    } else {
      WidenedTable(s, pd, i, flags);
    }
    assert DirIndex(w) == i || (HasTable(s.mem, pd, DirIndex(w)) ==> TableAt(s.mem, pd, DirIndex(w)) < PHYS_PAGES);
    assert HasTable(s.mem, pd, i) && DirIndex(w) == i ==>
      (User(s.mem[TableAt(s.mem, pd, i)][TableIndex(w)]) ==> User(s.mem[pd][i]));
  }

  // ----- writing one page table entry

  lemma SetEntryKeepsSpace(mem: Memory, used: set<nat>, pd: nat, i: nat, j: nat, e: bv32)
    requires Space(mem, used, pd) && i < ENTRIES && j < ENTRIES && HasTable(mem, pd, i)
    requires User(e) ==> User(mem[pd][i])
    ensures Space(SetEntry(mem, TableAt(mem, pd, i), j, e), used, pd)
  {
    hide Present, Writable, User, FrameOf;
    var t := TableAt(mem, pd, i);
    var mem' := SetEntry(mem, t, j, e);
    assert mem'[pd] == mem[pd];
    assert forall k: nat :: k < ENTRIES && k != i && HasTable(mem, pd, k) ==> TableAt(mem, pd, k) != t;
    assert forall k: nat :: k < ENTRIES && HasTable(mem', pd, k) ==> TableAt(mem', pd, k) == TableAt(mem, pd, k);
  }

  /** The page whose indices were written gets the entry's mapping; every other page keeps its own. */
  lemma SetEntryTranslation(mem: Memory, used: set<nat>, pd: nat, v: bv32, e: bv32, w: bv32)
    requires Space(mem, used, pd) && HasTable(mem, pd, DirIndex(v)) && Present(e)
    requires User(e) ==> User(mem[pd][DirIndex(v)])
    ensures var mem' := SetEntry(mem, TableAt(mem, pd, DirIndex(v)), TableIndex(v), e);
      && Sized(mem')
      && Translate(mem', pd, w) ==
         if PageOf(w) == PageOf(v) then Some(Mapping(FrameOf(e), User(e), Writable(e))) else Translate(mem, pd, w)
  {
    hide Present, Writable, User, FrameOf, DirIndex, TableIndex, PageOf;
    IndicesNamePage(w, v);
    var t := TableAt(mem, pd, DirIndex(v));
    var mem' := SetEntry(mem, t, TableIndex(v), e);
    assert mem'[pd] == mem[pd];
    assert HasTable(mem, pd, DirIndex(w)) ==> TableAt(mem, pd, DirIndex(w)) < PHYS_PAGES;
    assert HasTable(mem, pd, DirIndex(w)) && DirIndex(w) != DirIndex(v) ==> TableAt(mem, pd, DirIndex(w)) != t;
  }

  // ----- the whole of memory_map_page

  /** The frames that belong to an address space: its directory and its tables. */
  ghost function Frames(mem: Memory, pd: nat): set<nat>
    requires Sized(mem) && pd < PHYS_PAGES
  {
    {pd} + set i: nat | i < ENTRIES && HasTable(mem, pd, i) :: TableAt(mem, pd, i)
  }

  /** Mapping keeps the address space well formed, maps the page as asked, and leaves the mapping and
      the rights of every other page alone. */
  lemma MapPageMaps(s: Phys, pd: nat, v: bv32, phys: bv32, flags: bv32)
    requires Space(s.mem, s.used, pd) && Mappable(s, pd, DirIndex(v), flags)
    ensures var s' := MapPage(s, pd, v, phys, flags);
      && Space(s'.mem, s'.used, pd)
      && Translate(s'.mem, pd, v) == Some(Mapping(FrameOf(phys), User(flags), Writable(flags)))
      && (forall w: bv32 :: PageOf(w) != PageOf(v) ==> Translate(s'.mem, pd, w) == Translate(s.mem, pd, w))
  {
    hide Present, Writable, User, PageOf, Value, DirIndex, TableIndex, Translate, Space, EnsureTable, SetEntry, Find;
    hide HasTable;
    SpaceIsSized(s.mem, s.used, pd);
    var i, e := DirIndex(v), PageEntry(phys, flags);
    PageEntryKeepsPage(phys, flags);
    PageEntryIsPresent(phys, flags);
    PageEntryRights(phys, flags);
    EnsureTableKeepsSpace(s, pd, i, flags);
    var s1 := EnsureTable(s, pd, i, flags);
    SetEntryKeepsSpace(s1.mem, s1.used, pd, i, TableIndex(v), e);
    SetEntryTranslation(s1.mem, s1.used, pd, v, e, v);
    var s' := MapPage(s, pd, v, phys, flags);
    forall w: bv32 | PageOf(w) != PageOf(v) ensures Translate(s'.mem, pd, w) == Translate(s.mem, pd, w) {
      EnsureTableKeepsTranslation(s, pd, i, flags, w);
      SetEntryTranslation(s1.mem, s1.used, pd, v, e, w);
    }
  }

  /** What mapping a page takes and touches: at most one fresh page, and no frame outside the address
      space. */
  lemma MapPageTakes(s: Phys, pd: nat, v: bv32, phys: bv32, flags: bv32)
    requires Space(s.mem, s.used, pd) && Mappable(s, pd, DirIndex(v), flags)
    ensures var s' := MapPage(s, pd, v, phys, flags);
      var i := DirIndex(v);
      && Sized(s'.mem)
      && (forall k: nat :: k < ENTRIES ==> (HasTable(s'.mem, pd, k) <==> HasTable(s.mem, pd, k) || k == i))
      && (forall k: nat :: k < ENTRIES && HasTable(s.mem, pd, k) ==> TableAt(s'.mem, pd, k) == TableAt(s.mem, pd, k))
      && TableAt(s'.mem, pd, i) < PHYS_PAGES
      && s'.used == s.used + {TableAt(s'.mem, pd, i)}
      && (if HasTable(s.mem, pd, i) then TableAt(s'.mem, pd, i) in s.used
          else Find(s.used, PHYS_PAGES, 1) == Some(TableAt(s'.mem, pd, i)))
      && (forall f :: 0 <= f < PHYS_PAGES && f != pd && f != TableAt(s'.mem, pd, i) ==> s'.mem[f] == s.mem[f])
  {
    hide Present, Writable, User, FrameOf, DirIndex, TableIndex, EnsureTable, Find;
    var i := DirIndex(v);
    EnsureTableKeepsSpace(s, pd, i, flags);
    if !HasTable(s.mem, pd, i) {
      NewTable(s, pd, i, flags);
    } else {
      WidenedTable(s, pd, i, flags);
    }
  }

  /** The frames of the address space grow by exactly the pages taken, which were free; no other frame
      is written. */
  lemma MapPageFrames(s: Phys, pd: nat, v: bv32, phys: bv32, flags: bv32)
    requires Space(s.mem, s.used, pd) && Mappable(s, pd, DirIndex(v), flags)
    ensures var s' := MapPage(s, pd, v, phys, flags);
      && Sized(s'.mem) && s.used <= s'.used
      && Frames(s'.mem, pd) == Frames(s.mem, pd) + (s'.used - s.used)
      && (HasTable(s.mem, pd, DirIndex(v)) ==> s'.used == s.used)
      && (forall f :: 0 <= f < PHYS_PAGES && f !in Frames(s'.mem, pd) ==> s'.mem[f] == s.mem[f])
  {
    hide Present, Writable, User, FrameOf, DirIndex, TableIndex, MapPage;
    var s' := MapPage(s, pd, v, phys, flags);
    MapPageTakes(s, pd, v, phys, flags);
    var i := DirIndex(v);
    var t := TableAt(s'.mem, pd, i);
    assert t in Frames(s'.mem, pd);
    if HasTable(s.mem, pd, i) {
      assert s'.used == s.used;
      assert Frames(s'.mem, pd) == Frames(s.mem, pd);
    } else {
      assert Candidate(s.used, PHYS_PAGES, t, 1);
      assert t !in s.used;
      assert Frames(s'.mem, pd) == Frames(s.mem, pd) + {t};
    }
  }

  /** An address space reads nothing but its own frames. */
  lemma SpaceReadsOwnFrames(mem: Memory, mem': Memory, used: set<nat>, used': set<nat>, pd: nat)
    requires Space(mem, used, pd) && Sized(mem') && used <= used'
    requires forall f :: f in Frames(mem, pd) && f < PHYS_PAGES ==> mem'[f] == mem[f]
    ensures Space(mem', used', pd) && Frames(mem', pd) == Frames(mem, pd)
    ensures forall w: bv32 :: Translate(mem', pd, w) == Translate(mem, pd, w)
  {
    hide Present, Writable, User, FrameOf, DirIndex, TableIndex;
    assert pd in Frames(mem, pd);
    forall k: nat | k < ENTRIES && HasTable(mem, pd, k)
      ensures TableAt(mem, pd, k) in Frames(mem, pd) && mem'[TableAt(mem, pd, k)] == mem[TableAt(mem, pd, k)]
    {
      assert TableAt(mem, pd, k) in Frames(mem, pd);
    }
    forall w: bv32 ensures Translate(mem', pd, w) == Translate(mem, pd, w) {
      assert HasTable(mem, pd, DirIndex(w)) ==>
        mem'[TableAt(mem, pd, DirIndex(w))] == mem[TableAt(mem, pd, DirIndex(w))];
    }
  }
}
