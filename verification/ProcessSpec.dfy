/** Process identifiers, and the memory of the processes in the table taken together. */
module ProcessSpec {
  import opened Common
  import opened Words
  import opened PageSet
  import opened PageAllocator
  import opened Paging
  import opened AddressSpace
  import Switching

  // ----- process identifiers

  /** The `i`-th identifier that `process_allocate_pid` tries. */
  function PidAt(next: nat, i: nat): nat {
    (next + i) % MAX_PROCESSES
  }

  predicate Unusable(pids: set<nat>, pid: nat) {
    pid == 0 || pid in pids
  }

  /** The first usable identifier in cyclic order from `next`, or 0. */
  ghost predicate PidChosen(pids: set<nat>, next: nat, pid: nat) {
    if pid == 0 then forall i: nat :: i < MAX_PROCESSES ==> Unusable(pids, PidAt(next, i))
    else exists i: nat :: i < MAX_PROCESSES && PidAt(next, i) == pid && !Unusable(pids, pid)
           && forall j: nat :: j < i ==> Unusable(pids, PidAt(next, j))
  }

  /** A chosen identifier is a valid index, is free, and is 0 exactly when all 63 are taken. */
  lemma PidChosenIsFree(pids: set<nat>, next: nat, pid: nat)
    requires PidChosen(pids, next, pid)
    ensures pid < MAX_PROCESSES
    ensures pid != 0 ==> pid !in pids
    ensures pid == 0 <==> forall p: nat :: 1 <= p < MAX_PROCESSES ==> p in pids
  {
    if pid == 0 {
      forall p: nat | 1 <= p < MAX_PROCESSES ensures p in pids {
        var i := (p - next) % MAX_PROCESSES;
        assert PidAt(next, i) == p;
      }
    }
  }

  /** The identifier given last comes again only if all others are taken. */
  lemma PidComesAgainLast(pids: set<nat>, pid: nat)
    requires 1 <= pid < MAX_PROCESSES && PidChosen(pids, pid + 1, pid)
    ensures forall p: nat :: 1 <= p < MAX_PROCESSES && p != pid ==> p in pids
  {
    hide PidAt;
    var next := pid + 1;
    var i: nat :| i < MAX_PROCESSES && PidAt(next, i) == pid
                  && forall j: nat :: j < i ==> Unusable(pids, PidAt(next, j));
    TriedBefore(pid, i, pid);
    forall p: nat | 1 <= p < MAX_PROCESSES && p != pid ensures p in pids {
      TriedBefore(pid, i, p);
      assert Unusable(pids, PidAt(next, (p - next) % MAX_PROCESSES));
    }
  }

  /** Starting behind `pid`, every other identifier comes before it. */
  lemma TriedBefore(pid: nat, i: nat, p: nat)
    requires 1 <= pid < MAX_PROCESSES && i < MAX_PROCESSES && PidAt(pid + 1, i) == pid && 1 <= p < MAX_PROCESSES
    ensures var j := (p - (pid + 1)) % MAX_PROCESSES; PidAt(pid + 1, j) == p && (p != pid ==> j < i)
  {
  }

  lemma PidsFit(slots: set<nat>, pid: map<nat, nat>)
    requires slots <= pid.Keys
    requires forall i :: i in slots ==> 1 <= pid[i] < MAX_PROCESSES
    requires forall i, j :: i in slots && j in slots && i != j ==> pid[i] != pid[j]
    ensures |slots| < MAX_PROCESSES
  {
    var image := set i | i in slots :: pid[i];
    InjectiveImage(slots, pid);
    PagesSize(1, MAX_PROCESSES - 1);
    SetSize(image, Pages(1, MAX_PROCESSES - 1));
  }

  lemma InjectiveImage(slots: set<nat>, pid: map<nat, nat>)
    requires slots <= pid.Keys
    requires forall i, j :: i in slots && j in slots && i != j ==> pid[i] != pid[j]
    ensures |set i | i in slots :: pid[i]| == |slots|
  {
    if slots != {} {
      var s :| s in slots;
      var rest := slots - {s};
      InjectiveImage(rest, pid);
      assert (set i | i in slots :: pid[i]) == (set i | i in rest :: pid[i]) + {pid[s]};
    }
  }

  // ----- the processes in the table

  datatype Process = Process(pid: nat, pd: nat, kernelStack: nat, userStack: Option<nat>)

  /** Whether there is memory for a new process: a directory, and then, with the four tables taken,
      a run of two pages for the kernel stack and, for a user process, one of four beside it. */
  ghost predicate Affordable(used: set<nat>, isUser: bool) {
    && Find(used, PHYS_PAGES, 1).Some?
    && var kernel := Find(Singles(used, 5), PHYS_PAGES, 2);
       && kernel.Some?
       && (isUser ==> Find(Singles(used, 5) + Pages(kernel.value, 2), PHYS_PAGES, 4).Some?)
  }

  /** Every page a process holds. */
  ghost function Owned(mem: Memory, p: Process): set<nat>
    requires Sized(mem) && p.pd < PHYS_PAGES
  {
    Frames(mem, p.pd) + Pages(p.kernelStack, 2) + Stack(p.userStack, 4)
  }

  /** A process has an address space and stacks of its own, in use and apart. */
  ghost predicate Lives(s: Phys, p: Process) {
    && Space(s.mem, s.used, p.pd)
    && Parts(Owned(s.mem, p), Frames(s.mem, p.pd), Pages(p.kernelStack, 2), Stack(p.userStack, 4))
    && Owned(s.mem, p) <= s.used
    && (forall q :: q in Owned(s.mem, p) ==> q < PHYS_PAGES)
  }

  /** Its address space is exact, as creation leaves it: all of physical memory mapped onto itself and
      nothing above, user access to its own user stack only. */
  ghost predicate Exact(mem: Memory, p: Process)
    requires Sized(mem) && p.pd < PHYS_PAGES
  {
    && |Frames(mem, p.pd)| == 5
    && (forall w: bv32 :: Translate(mem, p.pd, w) == ProcessMapping(p.userStack, 4, w))
  }

  ghost predicate AllExact(s: Phys, procs: map<nat, Process>) {
    Sized(s.mem) && forall i :: i in procs ==> procs[i].pd < PHYS_PAGES && Exact(s.mem, procs[i])
  }

  /** Processes have distinct identifiers and share no page; beyond `base`, the pages in use are
      exactly theirs. */
  ghost predicate Coexist(s: Phys, base: set<nat>, procs: map<nat, Process>) {
    && Sized(s.mem) && base <= s.used
    && (forall i :: i in procs ==> procs[i].pd < PHYS_PAGES)
    && (forall i :: i in procs ==>
      Lives(s, procs[i]) && Owned(s.mem, procs[i]) !! base && 1 <= procs[i].pid < MAX_PROCESSES)
    && (forall i, j :: i in procs && j in procs && i != j ==>
          procs[i].pid != procs[j].pid && Owned(s.mem, procs[i]) !! Owned(s.mem, procs[j]))
    && (forall q :: q in s.used && q !in base ==> exists i :: i in procs && q in Owned(s.mem, procs[i]))
  }

  /** A process lives on in any state that keeps its pages in use and unwritten. */
  lemma LivesOn(s: Phys, s': Phys, p: Process)
    requires Lives(s, p) && Sized(s'.mem) && Owned(s.mem, p) <= s'.used
    requires forall f :: f in Owned(s.mem, p) && f < PHYS_PAGES ==> s'.mem[f] == s.mem[f]
    ensures Lives(s', p) && Owned(s'.mem, p) == Owned(s.mem, p)
    ensures Sized(s.mem) && p.pd < PHYS_PAGES && Frames(s'.mem, p.pd) == Frames(s.mem, p.pd)
    ensures forall w: bv32 :: Translate(s'.mem, p.pd, w) == Translate(s.mem, p.pd, w)
  {
    hide Translate, FrameOf, Pages, Frames, Parts, Space;
    SpaceIsSized(s.mem, s.used, p.pd);
    assert Frames(s.mem, p.pd) <= Owned(s.mem, p);
    SpaceMoves(s.mem, s'.mem, s.used, s'.used, p.pd);
  }

  lemma SpaceMoves(mem: Memory, mem': Memory, used: set<nat>, used': set<nat>, pd: nat)
    requires Space(mem, used, pd) && Sized(mem') && Frames(mem, pd) <= used'
    requires forall f :: f in Frames(mem, pd) && f < PHYS_PAGES ==> mem'[f] == mem[f]
    ensures Space(mem', used', pd) && Frames(mem', pd) == Frames(mem, pd)
    ensures forall w: bv32 :: Translate(mem', pd, w) == Translate(mem, pd, w)
  {
    SpaceReadsOwnFrames(mem, mem', used, used + used', pd);
    hide Present, Writable, User, FrameOf, Translate;
    assert pd in Frames(mem', pd);
    forall k: nat | k < ENTRIES && HasTable(mem', pd, k) ensures TableAt(mem', pd, k) in used' {
      assert TableAt(mem', pd, k) in Frames(mem', pd);
    }
  }

  /** Creation adds a process that lives apart from all the others. */
  lemma CreateKeepsCoexistence(s0: Phys, s: Phys, base: set<nat>, procs: map<nat, Process>, slot: nat, p: Process)
    requires Coexist(s0, base, procs) && slot !in procs
    requires Stage(s0, s, p.pd, Some(p.kernelStack), p.userStack, 4)
    requires 1 <= p.pid < MAX_PROCESSES && forall i :: i in procs ==> procs[i].pid != p.pid
    ensures Coexist(s, base, procs[slot := p])
  {
    hide Stage, Lives, Owned;
    NewProcessLives(s0, s, p);
    OwnedIsUsed(s, p);
    forall i | i in procs
      ensures Lives(s, procs[i]) && Owned(s.mem, procs[i]) == Owned(s0.mem, procs[i])
      ensures Owned(s.mem, procs[i]) <= s0.used
    {
      OwnedIsUsed(s0, procs[i]);
      LivesOn(s0, s, procs[i]);
    }
    var procs' := procs[slot := p];
    forall q | q in s.used && q !in base ensures exists i :: i in procs' && q in Owned(s.mem, procs'[i]) {
      if q in s0.used {
        var i :| i in procs && q in Owned(s0.mem, procs[i]);
        assert procs'[i] == procs[i];
      } else {
        assert q in Owned(s.mem, procs'[slot]);
      }
    }
  }

  lemma OwnedIsUsed(s: Phys, p: Process)
    requires Lives(s, p)
    ensures Sized(s.mem) && p.pd < PHYS_PAGES && Owned(s.mem, p) <= s.used
    ensures forall q :: q in Owned(s.mem, p) ==> q < PHYS_PAGES
  {
    hide Translate, FrameOf, Frames, Parts;
  }

  lemma NewProcessLives(s0: Phys, s: Phys, p: Process)
    requires Stage(s0, s, p.pd, Some(p.kernelStack), p.userStack, 4)
    ensures Lives(s, p) && Owned(s.mem, p) == s.used - s0.used && s0.used <= s.used
    ensures Sized(s.mem) && p.pd < PHYS_PAGES && Exact(s.mem, p)
    ensures forall f :: f in s0.used && f < PHYS_PAGES ==> s.mem[f] == s0.mem[f]
  {
    hide Translate, FrameOf, Frames, Space, HasTable, ProcessMapping, Pages;
    SpaceIsSized(s.mem, s.used, p.pd);
  }

  /** Cleanup takes one process away and leaves the others as they were. */
  lemma CleanupKeepsCoexistence(s: Phys, base: set<nat>, procs: map<nat, Process>, slot: nat)
    requires Coexist(s, base, procs) && slot in procs
    ensures Coexist(s.(used := s.used - Owned(s.mem, procs[slot])), base, procs - {slot})
  {
    hide Lives, Owned;
    OwnedIsUsed(s, procs[slot]);
    var s', procs' := s.(used := s.used - Owned(s.mem, procs[slot])), procs - {slot};
    forall i | i in procs' ensures Lives(s', procs'[i]) {
      OwnedIsUsed(s, procs[i]);
      LivesOn(s, s', procs[i]);
    }
    forall q | q in s'.used && q !in base ensures exists i :: i in procs' && q in Owned(s'.mem, procs'[i]) {
      var i :| i in procs && q in Owned(s.mem, procs[i]);
      assert i in procs';
    }
  }

  /** The addresses of its user stack, the four pages from `f` on, are the user's to read and write. */
  lemma UserStackIsMapped(mem: Memory, p: Process, f: nat, w: bv32)
    requires Sized(mem) && p.pd < PHYS_PAGES && Exact(mem, p) && p.userStack == Some(f) && f + 4 <= PHYS_PAGES
    requires f * PAGE_SIZE <= Magnitude(w) < (f + 4) * PAGE_SIZE
    ensures Translate(mem, p.pd, w) == Some(Mapping(Magnitude(w) / PAGE_SIZE, true, true))
  {
    hide Translate, Magnitude, FrameOf, Frames;
    FrameIsPageNumber(w);
    assert Translate(mem, p.pd, w) == ProcessMapping(p.userStack, 4, w);
  }

  // ----- memory_map_page on the directory of a process

  /** Whether mapping a page into an address space keeps the processes apart. If it needs a new table and
      there is a page for it, the flags must make that a table; if there is none, they must not make
      frame 0 one. */
  ghost predicate Mapworthy(s: Phys, pd: nat, v: bv32, flags: bv32)
    requires Sized(s.mem) && pd < PHYS_PAGES
  {
    Mappable(s, pd, DirIndex(v), flags) || (!CanMap(s, pd, v) && !Present(flags))
  }

  /** It does exactly then, whatever is mapped where. */
  lemma MapKeepsCoexistenceIff(s: Phys, base: set<nat>, procs: map<nat, Process>, slot: nat,
                               v: bv32, phys: bv32, flags: bv32)
    requires Coexist(s, base, procs) && slot in procs && 0 in base
    ensures procs[slot].pd != 0 && Tame(s.mem, s.used, procs[slot].pd)
    ensures Coexist(MapPage(s, procs[slot].pd, v, phys, flags), base, procs)
      <==> Mapworthy(s, procs[slot].pd, v, flags)
  {
    hide Lives, Owned, Tame, MapPage, Mappable, CanMap, Coexist, Present, DirIndex;
    DirectoryIsTame(s, base, procs, slot);
    var pd := procs[slot].pd;
    MappableIff(s, pd, v, flags);
    if Mappable(s, pd, DirIndex(v), flags) {
      MapKeepsCoexistence(s, base, procs, slot, v, phys, flags);
    } else if Present(flags) {
      BadTableBreaksCoexistence(s, base, procs, slot, v, phys, flags);
    } else {
      NoTableKeepsCoexistenceIff(s, base, procs, slot, v, phys, flags);
    }
  }

  lemma DirectoryIsTame(s: Phys, base: set<nat>, procs: map<nat, Process>, slot: nat)
    requires Coexist(s, base, procs) && slot in procs && 0 in base
    ensures procs[slot].pd != 0 && procs[slot].pd < PHYS_PAGES && Sized(s.mem) && Tame(s.mem, s.used, procs[slot].pd)
  {
    hide Lives, Tame, HasTable, TableAt;
    LivesHasSpace(s, procs[slot]);
    assert procs[slot].pd in Owned(s.mem, procs[slot]);
  }

  lemma MappableIff(s: Phys, pd: nat, v: bv32, flags: bv32)
    requires Sized(s.mem) && pd < PHYS_PAGES
    ensures Mappable(s, pd, DirIndex(v), flags)
      <==> HasTable(s.mem, pd, DirIndex(v)) || (CanMap(s, pd, v) && Present(flags) && Writable(flags))
    ensures HasTable(s.mem, pd, DirIndex(v)) ==> CanMap(s, pd, v)
  {
    hide DirIndex, Present, Writable, Find;
  }

  /** Mapping a page into the address space of a process keeps all processes apart. */
  lemma MapKeepsCoexistence(s: Phys, base: set<nat>, procs: map<nat, Process>, slot: nat,
                            v: bv32, phys: bv32, flags: bv32)
    requires Coexist(s, base, procs) && slot in procs && Tame(s.mem, s.used, procs[slot].pd)
    requires CanMap(s, procs[slot].pd, v) && Mappable(s, procs[slot].pd, DirIndex(v), flags)
    ensures Coexist(MapPage(s, procs[slot].pd, v, phys, flags), base, procs)
  {
    hide Lives, Owned, MapPage, Mappable, CanMap, Tame, DirIndex;
    var p := procs[slot];
    var s' := MapPage(s, p.pd, v, phys, flags);
    MappedLives(s, p, v, phys, flags);
    OwnedIsUsed(s', p);
    forall j | j in procs && j != slot
      ensures Lives(s', procs[j]) && Owned(s'.mem, procs[j]) == Owned(s.mem, procs[j]) <= s.used
    {
      OwnedIsUsed(s, procs[j]);
      LivesOn(s, s', procs[j]);
    }
    forall q | q in s'.used && q !in base ensures exists i :: i in procs && q in Owned(s'.mem, procs[i]) {
      if q in s.used {
        var i :| i in procs && q in Owned(s.mem, procs[i]);
        assert q in Owned(s'.mem, procs[i]);
      } else {
        assert q in Owned(s'.mem, procs[slot]);
      }
    }
  }

  /** It changes the translation of that page of that process, and of no other page or process. */
  lemma MapChangesOnePage(s: Phys, base: set<nat>, procs: map<nat, Process>, slot: nat,
                          v: bv32, phys: bv32, flags: bv32, i: nat, w: bv32)
    requires Coexist(s, base, procs) && slot in procs && Tame(s.mem, s.used, procs[slot].pd) && i in procs
    requires CanMap(s, procs[slot].pd, v) && Mappable(s, procs[slot].pd, DirIndex(v), flags)
    ensures Sized(MapPage(s, procs[slot].pd, v, phys, flags).mem)
    ensures Translate(MapPage(s, procs[slot].pd, v, phys, flags).mem, procs[i].pd, w) ==
      if i == slot && PageOf(w) == PageOf(v) then Some(Mapping(FrameOf(phys), User(flags), Writable(flags)))
      else Translate(s.mem, procs[i].pd, w)
  {
    hide Lives, Owned, MapPage, Mappable, Writable, User, CanMap, Tame, Translate, PageOf, FrameOf, DirIndex;
    var p := procs[slot];
    var s' := MapPage(s, p.pd, v, phys, flags);
    MappedLives(s, p, v, phys, flags);
    OwnedIsUsed(s', p);
    if i == slot {
      LivesHasSpace(s, p);
      MapPageMaps(s, p.pd, v, phys, flags);
      if PageOf(w) == PageOf(v) {
        SamePageSameTranslation(s'.mem, p.pd, v, w);
      }
    } else {
      OwnedIsUsed(s, procs[i]);
      LivesOn(s, s', procs[i]);
    }
  }

  lemma LivesHasSpace(s: Phys, p: Process)
    requires Lives(s, p)
    ensures Space(s.mem, s.used, p.pd) && Tame(s.mem, s.used, p.pd)
  {
    SpaceIsSized(s.mem, s.used, p.pd);
  }

  /** Only directory and tables are written. */
  lemma MappedLives(s: Phys, p: Process, v: bv32, phys: bv32, flags: bv32)
    requires Lives(s, p) && Tame(s.mem, s.used, p.pd)
    requires CanMap(s, p.pd, v) && Mappable(s, p.pd, DirIndex(v), flags)
    ensures var s' := MapPage(s, p.pd, v, phys, flags);
      && Lives(s', p) && s.used <= s'.used && Owned(s'.mem, p) == Owned(s.mem, p) + (s'.used - s.used)
      && Frames(s'.mem, p.pd) <= Owned(s'.mem, p)
      && (forall f :: 0 <= f < PHYS_PAGES && f !in Frames(s'.mem, p.pd) ==> s'.mem[f] == s.mem[f])
  {
    hide Translate, MapPage, Space, Mappable, PageOf, CanMap, Find, Frames, Pages, DirIndex, FrameOf, User, Writable;
    SpaceIsSized(s.mem, s.used, p.pd);
    MapPageMaps(s, p.pd, v, phys, flags);
    MapPageFrames(s, p.pd, v, phys, flags);
    var s' := MapPage(s, p.pd, v, phys, flags);
    FramesInMemory(s'.mem, s'.used, p.pd);
  }

  /** A present directory entry for a table that cannot be written, or for frame 0 without a page for the
      table, makes the directory no address space of the process. */
  lemma BadTableBreaksCoexistence(s: Phys, base: set<nat>, procs: map<nat, Process>, slot: nat,
                                  v: bv32, phys: bv32, flags: bv32)
    requires Coexist(s, base, procs) && slot in procs && 0 in base && procs[slot].pd != 0
    requires Tame(s.mem, s.used, procs[slot].pd)
    requires Present(flags) && !Mappable(s, procs[slot].pd, DirIndex(v), flags)
    ensures !Coexist(MapPage(s, procs[slot].pd, v, phys, flags), base, procs)
  {
    hide MapPage, Present, Writable, FrameOf, DirIndex, Find;
    var pd, i := procs[slot].pd, DirIndex(v);
    MapPageAlways(s, pd, v, phys, flags);
    var s' := MapPage(s, pd, v, phys, flags);
    assert HasTable(s'.mem, pd, i);
    if CanMap(s, pd, v) {
      assert !Writable(s'.mem[pd][i]);
      assert !Space(s'.mem, s'.used, pd);
      assert !Lives(s', procs[slot]);
    } else {
      assert TableAt(s'.mem, pd, i) == 0;
      assert 0 in Frames(s'.mem, pd) && 0 in Owned(s'.mem, procs[slot]);
    }
  }

  /** With an entry that is not present, the page for the table is lost, if there was one. */
  lemma NoTableKeepsCoexistenceIff(s: Phys, base: set<nat>, procs: map<nat, Process>, slot: nat,
                                   v: bv32, phys: bv32, flags: bv32)
    requires Coexist(s, base, procs) && slot in procs && 0 in base && procs[slot].pd != 0
    requires Tame(s.mem, s.used, procs[slot].pd)
    requires !Present(flags) && !HasTable(s.mem, procs[slot].pd, DirIndex(v))
    ensures Coexist(MapPage(s, procs[slot].pd, v, phys, flags), base, procs) <==> !CanMap(s, procs[slot].pd, v)
  {
    hide MapPage, Present, DirIndex, Lives, Owned, Tame, HasTable, CanMap, TableFor;
    var p := procs[slot];
    var s', t := MapPage(s, p.pd, v, phys, flags), TableFor(s, p.pd, DirIndex(v));
    NullOrFree(s, p.pd, v);
    OwnedIsUsed(s, p);
    UnmappedLives(s, p, v, phys, flags);
    forall j | j in procs ensures Lives(s', procs[j]) && Owned(s'.mem, procs[j]) == Owned(s.mem, procs[j]) <= s.used {
      OwnedIsUsed(s, procs[j]);
      if j != slot {
        LivesOn(s, s', procs[j]);
      }
    }
    if CanMap(s, p.pd, v) {
      assert t in s'.used && t !in base && forall j :: j in procs ==> t !in Owned(s'.mem, procs[j]);
    }
  }

  /** Every other page, and every page of every other process, translates as before. */
  lemma MapKeepsOthers(s: Phys, base: set<nat>, procs: map<nat, Process>, slot: nat, v: bv32, phys: bv32, flags: bv32,
                       i: nat, w: bv32)
    requires Coexist(s, base, procs) && slot in procs && i in procs && 0 in base
    requires procs[slot].pd != 0 && Tame(s.mem, s.used, procs[slot].pd) && Mapworthy(s, procs[slot].pd, v, flags)
    requires i != slot || PageOf(w) != PageOf(v)
    ensures Sized(MapPage(s, procs[slot].pd, v, phys, flags).mem)
    ensures Translate(MapPage(s, procs[slot].pd, v, phys, flags).mem, procs[i].pd, w)
      == Translate(s.mem, procs[i].pd, w)
  {
    hide Tame, MapPage, Mappable, CanMap, Present, DirIndex, Lives, HasTable, TableFor, Translate, PageOf, Owned;
    var p := procs[slot];
    MappableIff(s, p.pd, v, flags);
    if Mappable(s, p.pd, DirIndex(v), flags) {
      MapChangesOnePage(s, base, procs, slot, v, phys, flags, i, w);
    } else {
      OwnedIsUsed(s, p);
      NullOrFree(s, p.pd, v);
      UnmappedLives(s, p, v, phys, flags);
      if i == slot {
        NothingUnmapped(s, p, v, phys, flags, w);
      } else {
        OwnedIsUsed(s, procs[i]);
        LivesOn(s, MapPage(s, p.pd, v, phys, flags), procs[i]);
      }
    }
  }

  lemma NothingUnmapped(s: Phys, p: Process, v: bv32, phys: bv32, flags: bv32, w: bv32)
    requires Lives(s, p) && Tame(s.mem, s.used, p.pd) && p.pd != 0
    requires !Present(flags) && !HasTable(s.mem, p.pd, DirIndex(v))
    requires TableFor(s, p.pd, DirIndex(v)) !in Owned(s.mem, p)
    ensures Sized(MapPage(s, p.pd, v, phys, flags).mem)
    ensures Translate(MapPage(s, p.pd, v, phys, flags).mem, p.pd, w) == Translate(s.mem, p.pd, w)
  {
    hide MapPage, Present, Writable, User, FrameOf, DirIndex, TableIndex, Pages, TableFor, Find, CanMap;
    MapPageAlways(s, p.pd, v, phys, flags);
    var s' := MapPage(s, p.pd, v, phys, flags);
    var k := DirIndex(w);
    assert HasTable(s'.mem, p.pd, k) == HasTable(s.mem, p.pd, k);
    if HasTable(s.mem, p.pd, k) {
      assert TableAt(s'.mem, p.pd, k) == TableAt(s.mem, p.pd, k) && TableAt(s.mem, p.pd, k) in Frames(s.mem, p.pd);
    }
  }

  /** No page of a stack is written. */
  lemma MapWritesNoStack(s: Phys, base: set<nat>, procs: map<nat, Process>, slot: nat, v: bv32, phys: bv32, flags: bv32,
                         i: nat, f: nat)
    requires Coexist(s, base, procs) && slot in procs && i in procs && 0 in base
    requires procs[slot].pd != 0 && Tame(s.mem, s.used, procs[slot].pd) && Mapworthy(s, procs[slot].pd, v, flags)
    requires f in Pages(procs[i].kernelStack, 2) + Stack(procs[i].userStack, 4)
    ensures f < PHYS_PAGES && Sized(MapPage(s, procs[slot].pd, v, phys, flags).mem)
    ensures MapPage(s, procs[slot].pd, v, phys, flags).mem[f] == s.mem[f]
  {
    hide Tame, MapPage, Mappable, CanMap, Present, DirIndex, Lives, Frames, Pages, HasTable, TableFor;
    var p := procs[slot];
    OwnedIsUsed(s, procs[i]);
    OwnedIsUsed(s, p);
    LivesInParts(s, procs[i]);
    assert f in Owned(s.mem, procs[i]);
    MappableIff(s, p.pd, v, flags);
    if Mappable(s, p.pd, DirIndex(v), flags) {
      MappedLives(s, p, v, phys, flags);
      MapKeepsCoexistence(s, base, procs, slot, v, phys, flags);
      LivesInParts(MapPage(s, p.pd, v, phys, flags), p);
    } else {
      NullOrFree(s, p.pd, v);
      UnmappedLives(s, p, v, phys, flags);
      LivesInParts(s, p);
    }
  }

  lemma LivesInParts(s: Phys, p: Process)
    requires Lives(s, p)
    ensures Sized(s.mem) && p.pd < PHYS_PAGES && p.pd in Frames(s.mem, p.pd)
    ensures Frames(s.mem, p.pd) !! Pages(p.kernelStack, 2) && Frames(s.mem, p.pd) !! Stack(p.userStack, 4)
  {
    hide Space, HasTable, Pages;
    SpaceIsSized(s.mem, s.used, p.pd);
  }

  /** The page for a new table was free, or is frame 0. */
  lemma NullOrFree(s: Phys, pd: nat, v: bv32)
    requires Tame(s.mem, s.used, pd) && !HasTable(s.mem, pd, DirIndex(v))
    ensures var t := TableFor(s, pd, DirIndex(v)); if CanMap(s, pd, v) then t !in s.used else t == 0
  {
    hide Find, DirIndex;
    FoundIsFree(s.used, PHYS_PAGES);
  }

  lemma UnmappedLives(s: Phys, p: Process, v: bv32, phys: bv32, flags: bv32)
    requires Lives(s, p) && Tame(s.mem, s.used, p.pd) && p.pd != 0
    requires !Present(flags) && !HasTable(s.mem, p.pd, DirIndex(v))
    requires TableFor(s, p.pd, DirIndex(v)) !in Owned(s.mem, p)
    ensures var s', t := MapPage(s, p.pd, v, phys, flags), TableFor(s, p.pd, DirIndex(v));
      && Sized(s'.mem) && Lives(s', p) && Owned(s'.mem, p) == Owned(s.mem, p) && p.pd in Owned(s.mem, p)
      && (forall f :: 0 <= f < PHYS_PAGES && f != t && f != p.pd ==> s'.mem[f] == s.mem[f])
      && s'.used == if CanMap(s, p.pd, v) then s.used + {t} else s.used
  {
    hide MapPage, Present, Writable, User, FrameOf, DirIndex, Pages, TableFor, Find, CanMap;
    MapPageAlways(s, p.pd, v, phys, flags);
    var s' := MapPage(s, p.pd, v, phys, flags);
    assert forall k: nat :: k < ENTRIES ==> HasTable(s'.mem, p.pd, k) == HasTable(s.mem, p.pd, k);
    assert forall k: nat :: k < ENTRIES && HasTable(s.mem, p.pd, k) ==>
      && TableAt(s'.mem, p.pd, k) == TableAt(s.mem, p.pd, k)
      && TableAt(s.mem, p.pd, k) in Frames(s.mem, p.pd);
    assert Frames(s'.mem, p.pd) == Frames(s.mem, p.pd);
  }

  /** When the last process is gone, no page is left over. */
  lemma NothingLeaks(s: Phys, base: set<nat>)
    requires Coexist(s, base, map[])
    ensures s.used == base
  {
  }

  /** The addresses of the kernel stacks. */
  function Stacks(procs: map<nat, Process>): map<nat, int> {
    map i | i in procs :: procs[i].kernelStack * PAGE_SIZE
  }

  /** The kernel stacks of coexisting processes are apart, as the context switch relies on. */
  lemma KernelStacksApart(s: Phys, base: set<nat>, procs: map<nat, Process>)
    requires Coexist(s, base, procs)
    ensures Switching.DisjointStacks(Stacks(procs))
  {
    hide Lives, Owned;
    forall i, j | i in procs && j in procs && i != j
      ensures procs[i].kernelStack + 2 <= procs[j].kernelStack || procs[j].kernelStack + 2 <= procs[i].kernelStack
    {
      StacksOfTwo(s, procs[i], procs[j]);
    }
    hide Coexist;
  }

  lemma StacksOfTwo(s: Phys, p: Process, q: Process)
    requires Sized(s.mem) && p.pd < PHYS_PAGES && q.pd < PHYS_PAGES && Owned(s.mem, p) !! Owned(s.mem, q)
    ensures p.kernelStack + 2 <= q.kernelStack || q.kernelStack + 2 <= p.kernelStack
  {
    hide Frames;
    var a, b := p.kernelStack, q.kernelStack;
    assert a in Owned(s.mem, p) && a + 1 in Owned(s.mem, p) && b in Owned(s.mem, q) && b + 1 in Owned(s.mem, q);
  }

  // ----- every run of creations and cleanups

  datatype Kernel = Kernel(phys: Phys, procs: map<nat, Process>)

  /** The calls: a creation of a user process or of a kernel task, and the cleanup of a process. */
  datatype Change = Create(isUser: bool) | Cleanup(slot: nat)

  ghost function Pids(procs: map<nat, Process>): set<nat> {
    set i | i in procs :: procs[i].pid
  }

  ghost predicate AllPidsUsed(procs: map<nat, Process>) {
    forall p: nat :: 1 <= p < MAX_PROCESSES ==> p in Pids(procs)
  }

  /** A creation succeeds: there are an identifier and memory, and the page found is not page 0. */
  ghost predicate Succeeds(k: Kernel, isUser: bool) {
    !AllPidsUsed(k.procs) && 0 in k.phys.used && Affordable(k.phys.used, isUser)
  }

  /** A creation gets as far as the tables and finds too few pages for them. */
  ghost predicate Doomed(k: Kernel) {
    !AllPidsUsed(k.procs) && 0 in k.phys.used && Starving(k.phys.used)
  }

  /** The process `p` is made in the slot. */
  ghost predicate Made(k: Kernel, slot: nat, p: Process, k': Kernel) {
    && slot !in k.procs && slot < MAX_PROCESSES
    && 1 <= p.pid < MAX_PROCESSES && p.pid !in Pids(k.procs)
    && Stage(k.phys, k'.phys, p.pd, Some(p.kernelStack), p.userStack, 4)
    && k'.procs == k.procs[slot := p]
  }

  ghost predicate Cleaned(k: Kernel, slot: nat, k': Kernel) {
    && slot in k.procs && Sized(k.phys.mem) && k.procs[slot].pd < PHYS_PAGES
    && k' == Kernel(k.phys.(used := k.phys.used - Owned(k.phys.mem, k.procs[slot])), k.procs - {slot})
  }

  /** A creation finds page 0 free, and takes the address of the directory for a failure. */
  ghost predicate FindsNull(k: Kernel) {
    !AllPidsUsed(k.procs) && 0 !in k.phys.used
  }

  /** A creation that does not succeed leaves the table alone. It leaves the pages alone too, unless it is
      doomed, or page 0 is free: then that page is in use afterwards. */
  ghost predicate Refused(k: Kernel, k': Kernel) {
    && k'.procs == k.procs
    && if Doomed(k) then FreesFrameZero(k.phys, k'.phys)
       else if FindsNull(k) then k'.phys == k.phys.(used := k.phys.used + {0})
       else Untouched(k.phys, k'.phys)
  }

  /** What a call does, as it finds the kernel. */
  ghost predicate Changes(k: Kernel, c: Change, k': Kernel) {
    match c
    case Create(isUser) =>
      if Succeeds(k, isUser) then exists slot, p :: Made(k, slot, p, k') && p.userStack.Some? == isUser
      else Refused(k, k')
    case Cleanup(slot) => Cleaned(k, slot, k')
  }

  /** The same pages are in use, with the same contents. */
  ghost predicate Untouched(s: Phys, s': Phys) {
    && Sized(s.mem) && Sized(s'.mem) && s'.used == s.used
    && (forall f :: f in s.used && f < PHYS_PAGES ==> s'.mem[f] == s.mem[f])
  }

  /** Too few pages are available for a directory and its four tables, but not none. */
  ghost predicate Starving(used: set<nat>) {
    1 <= |Available(used)| <= 4
  }

  /** What a creation does then. The tables that cannot be had are frame 0, and cleaning up frees it. */
  ghost predicate FreesFrameZero(s: Phys, s': Phys) {
    && Sized(s.mem) && Sized(s'.mem) && s'.used == s.used - {0}
    && (forall f :: f in s.used && 0 < f < PHYS_PAGES ==> s'.mem[f] == s.mem[f])
  }

  /** A creation with memory for part of a directory cannot be afforded. */
  lemma StarvingIsRefused(used: set<nat>, isUser: bool)
    requires Starving(used)
    ensures !Affordable(used, isUser)
  {
    hide Available, Find, Singles;
    SinglesTake(used, 5);
    NothingAvailable(Singles(used, 5), 2);
  }

  /** So a creation that does not succeed leaves the pages in use as they were exactly when all
      identifiers are taken, or none or at least five pages are available. */
  lemma RefusalUntouchedIff(k: Kernel, isUser: bool, k': Kernel)
    requires Changes(k, Create(isUser), k') && !Succeeds(k, isUser) && 0 in k.phys.used
    ensures k'.procs == k.procs
    ensures Untouched(k.phys, k'.phys)
      <==> AllPidsUsed(k.procs) || |Available(k.phys.used)| == 0 || |Available(k.phys.used)| >= 5
  {
    hide Available, AllPidsUsed, Succeeds;
    assert Doomed(k) ==> 0 !in k'.phys.used;
  }

  /** The next page asked for is then page 0, which the caller takes for a failure. */
  lemma FrameZeroIsNext(used: set<nat>)
    requires 0 !in used
    ensures Find(used, PHYS_PAGES, 1) == Some(0)
  {
    assert Candidate(used, PHYS_PAGES, 0, 1);
  }

  /** It is refused for that, and all is as before the creation that freed frame 0. */
  lemma NextCreationRestores(k: Kernel, isUser: bool, k1: Kernel, isUser': bool, k2: Kernel, base: set<nat>)
    requires Coexist(k.phys, base, k.procs) && 0 in base && Doomed(k)
    requires Changes(k, Create(isUser), k1) && Changes(k1, Create(isUser'), k2)
    ensures !Coexist(k1.phys, base, k1.procs) && k2.procs == k.procs
    ensures k2.phys.used == k.phys.used && Coexist(k2.phys, base, k2.procs)
  {
    hide Lives, Owned, AllPidsUsed, Starving, Affordable;
    DoomedIsRefused(k, isUser);
    assert 0 !in k1.phys.used;
    assert FindsNull(k1);
    forall i | i in k.procs
      ensures Lives(k2.phys, k.procs[i]) && Owned(k2.phys.mem, k.procs[i]) == Owned(k.phys.mem, k.procs[i])
    {
      OwnedIsUsed(k.phys, k.procs[i]);
      LivesOn(k.phys, k2.phys, k.procs[i]);
    }
  }

  lemma UntouchedKeepsCoexistence(s: Phys, s': Phys, base: set<nat>, procs: map<nat, Process>)
    requires Coexist(s, base, procs) && Untouched(s, s')
    ensures Coexist(s', base, procs)
  {
    hide Lives, Owned;
    forall i | i in procs ensures Lives(s', procs[i]) && Owned(s'.mem, procs[i]) == Owned(s.mem, procs[i]) {
      OwnedIsUsed(s, procs[i]);
      LivesOn(s, s', procs[i]);
    }
  }

  /** With frame 0 among the pages in use at the start, a call keeps coexistence exactly when it is not a
      creation with an identifier free and one to four pages available. */
  lemma ChangeKeepsCoexistenceIff(k: Kernel, c: Change, k': Kernel, base: set<nat>)
    requires Coexist(k.phys, base, k.procs) && Changes(k, c, k') && 0 in base
    ensures Coexist(k'.phys, base, k'.procs) <==> !(c.Create? && Doomed(k))
  {
    hide Made, Cleaned, Untouched, Lives, Owned, Doomed, Succeeds;
    assert !FindsNull(k);
    match c
    case Create(isUser) =>
      if Succeeds(k, isUser) {
        var slot, p :| Made(k, slot, p, k') && p.userStack.Some? == isUser;
        MadeKeepsCoexistence(k, slot, p, k', base);
        DoomedIsRefused(k, isUser);
      } else if Doomed(k) {
        assert 0 !in k'.phys.used;
      } else {
        UntouchedKeepsCoexistence(k.phys, k'.phys, base, k.procs);
      }
    case Cleanup(slot) => CleanedKeepsCoexistence(k, slot, k', base);
  }

  lemma MadeKeepsCoexistence(k: Kernel, slot: nat, p: Process, k': Kernel, base: set<nat>)
    requires Coexist(k.phys, base, k.procs) && Made(k, slot, p, k')
    ensures Coexist(k'.phys, base, k'.procs)
  {
    hide Coexist, Stage;
    CreateKeepsCoexistence(k.phys, k'.phys, base, k.procs, slot, p);
  }

  lemma CleanedKeepsCoexistence(k: Kernel, slot: nat, k': Kernel, base: set<nat>)
    requires Coexist(k.phys, base, k.procs) && Cleaned(k, slot, k')
    ensures Coexist(k'.phys, base, k'.procs)
  {
    hide Coexist, Owned;
    CleanupKeepsCoexistence(k.phys, base, k.procs, slot);
  }

  lemma ChangeKeepsExact(k: Kernel, c: Change, k': Kernel, base: set<nat>)
    requires Coexist(k.phys, base, k.procs) && AllExact(k.phys, k.procs) && Changes(k, c, k') && 0 in base
    requires !(c.Create? && Doomed(k))
    ensures AllExact(k'.phys, k'.procs)
  {
    hide Stage, Lives, Owned, Exact, Doomed, Succeeds;
    assert !FindsNull(k);
    match c
    case Create(isUser) =>
      if Succeeds(k, isUser) {
        var slot, p :| Made(k, slot, p, k') && p.userStack.Some? == isUser;
        NewProcessLives(k.phys, k'.phys, p);
        OthersStayExact(k.phys, k'.phys, base, k.procs);
      } else {
        OthersStayExact(k.phys, k'.phys, base, k.procs);
      }
    case Cleanup(slot) =>
  }

  lemma OthersStayExact(s: Phys, s': Phys, base: set<nat>, procs: map<nat, Process>)
    requires Coexist(s, base, procs) && AllExact(s, procs) && Sized(s'.mem) && s.used <= s'.used
    requires forall f :: f in s.used && f < PHYS_PAGES ==> s'.mem[f] == s.mem[f]
    ensures AllExact(s', procs)
  {
    hide Lives, Owned, Translate, Frames;
    forall i | i in procs ensures Exact(s'.mem, procs[i]) {
      OwnedIsUsed(s, procs[i]);
      LivesOn(s, s', procs[i]);
    }
  }

  lemma DoomedIsRefused(k: Kernel, isUser: bool)
    ensures Doomed(k) ==> !Succeeds(k, isUser)
  {
    hide AllPidsUsed, Affordable, Starving;
    if Starving(k.phys.used) {
      StarvingIsRefused(k.phys.used, isUser);
    }
  }

  /** In every run of calls: processes have their exact address spaces, share no page, and hold all that is
      in use beyond `base`, at every point, exactly when no creation finds an identifier free and one to
      four pages available. */
  lemma {:induction false} EveryRunCoexistsIff(run: seq<Kernel>, changes: seq<Change>, base: set<nat>)
    requires |run| == |changes| + 1 && Coexist(run[0].phys, base, run[0].procs) && 0 in base
    requires AllExact(run[0].phys, run[0].procs)
    requires forall i :: 0 <= i < |changes| ==> Changes(run[i], changes[i], run[i + 1])
    ensures (forall i :: 0 <= i < |run| ==> Coexist(run[i].phys, base, run[i].procs))
      <==> (forall i :: 0 <= i < |changes| ==> !(changes[i].Create? && Doomed(run[i])))
    ensures (forall i :: 0 <= i < |run| ==> Coexist(run[i].phys, base, run[i].procs))
      ==> (forall i :: 0 <= i < |run| ==> AllExact(run[i].phys, run[i].procs))
    decreases |changes|
  {
    hide Coexist, Changes, Doomed, AllExact;
    if |changes| > 0 {
      var n := |changes| - 1;
      EveryRunCoexistsIff(run[..n + 1], changes[..n], base);
      assert forall i :: 0 <= i <= n ==> run[..n + 1][i] == run[i];
      assert forall i :: 0 <= i < n ==> changes[..n][i] == changes[i];
      if forall i :: 0 <= i <= n ==> Coexist(run[i].phys, base, run[i].procs) {
        ChangeKeepsCoexistenceIff(run[n], changes[n], run[n + 1], base);
        if !(changes[n].Create? && Doomed(run[n])) {
          ChangeKeepsExact(run[n], changes[n], run[n + 1], base);
        }
      }
    }
  }

  /** A kernel task takes seven pages and a user process eleven. */
  lemma CreateTakes(k: Kernel, k': Kernel, slot: nat, p: Process)
    requires Made(k, slot, p, k')
    ensures |k'.phys.used| == |k.phys.used| + if p.userStack.Some? then 11 else 7
  {
    hide Stage;
    StageTakes(k.phys, k'.phys, p.pd, Some(p.kernelStack), p.userStack, 4);
  }

  /** Creating a process and cleaning it up restores the pages in use exactly. */
  lemma CreateThenCleanup(k: Kernel, k1: Kernel, k2: Kernel, slot: nat, p: Process)
    requires Made(k, slot, p, k1) && Cleaned(k1, slot, k2)
    ensures k2.phys.used == k.phys.used && k2.procs == k.procs
  {
    hide Stage, Owned, Lives;
    NewProcessLives(k.phys, k1.phys, p);
    assert k1.procs[slot] == p;
    assert k2.phys.used == k1.phys.used - (k1.phys.used - k.phys.used);
    assert k.procs[slot := p] - {slot} == k.procs;
  }
}
