/** The process table working in place, proved against `ProcessSpec`. */
module Processes {
  import opened Common
  import opened Words
  import opened PageSet
  import opened PageAllocator
  import opened Paging
  import opened AddressSpace
  import opened MemoryManager
  import opened ProcessSpec

  /** The fields of a process control block that creation and cleanup use. Pages are frame numbers;
      0 is null. */
  datatype Pcb = Pcb(pid: nat, parentPid: nat, isUser: bool, pageDirectory: nat, kernelStack: nat, userStack: nat)

  function Opt(page: nat): Option<nat> {
    if page == 0 then None else Some(page)
  }

  function ToProcess(pcb: Pcb): Process {
    Process(pcb.pid, pcb.pageDirectory, pcb.kernelStack, Opt(pcb.userStack))
  }

  class Processes {
    const memory: Manager
    const kernelDirectory: nat
    const table: array<Pcb>
    const used: array<bool>
    var nextPid: nat

    ghost const base: set<nat>  // pages in use that belong to no process

    ghost predicate Shape()
      reads this
    {
      && table.Length == MAX_PROCESSES && used.Length == MAX_PROCESSES
      && 1 <= nextPid <= MAX_PROCESSES
      && memory !in memory.repr && table !in memory.repr && used !in memory.repr
      && table as object != memory && used as object != memory && table as object != used
      && this !in memory.repr && this != memory as object && this != table as object && this != used as object
      && 0 in base && kernelDirectory in base
    }

    /** The processes in the table, by slot. */
    ghost function Live(): map<nat, Process>
      requires Shape()
      reads this, table, used
    {
      map i: nat | i < MAX_PROCESSES && used[i] :: ToProcess(table[i])
    }

    ghost predicate Valid()
      reads this, table, used, memory, memory.repr
    {
      && Shape()
      && memory.pages in memory.repr && memory.frames in memory.repr && memory.pages.bitmap in memory.repr
      && memory.Valid()
      && Coexist(memory.State(), base, Live())
    }

    ghost function Abs(): Kernel
      requires Valid()
      reads this, table, used, memory, memory.repr
    {
      Kernel(memory.State(), Live())
    }

    /** `process_init`, once the memory manager is up. */
    constructor (m: Manager, kernelPd: nat)
      requires m.Valid() && 0 in m.State().used && kernelPd in m.State().used
      ensures Valid() && memory == m && base == m.State().used && Live() == map[]
      ensures fresh(table) && fresh(used)
    {
      memory, base, kernelDirectory := m, m.State().used, kernelPd;
      nextPid := 1;
      table := new Pcb[MAX_PROCESSES](_ => Pcb(0, 0, false, 0, 0, 0));
      used := new bool[MAX_PROCESSES](_ => false);
      new;
    }

    // ----- identifiers

    method PidInUse(pid: nat) returns (inUse: bool)
      requires Shape()
      ensures inUse <==> pid in Pids(Live())
    {
      for j := 0 to MAX_PROCESSES
        invariant forall k: nat :: k < j && k in Live() ==> Live()[k].pid != pid
      {
        if used[j] && table[j].pid == pid {
          assert j in Live() && Live()[j].pid == pid;
          return true;
        }
      }
      return false;
    }

    method AllocatePid() returns (pid: nat)
      requires Shape()
      modifies `nextPid
      ensures Shape() && PidChosen(Pids(Live()), old(nextPid), pid)
      ensures nextPid == if pid == 0 then old(nextPid) else pid + 1
    {
      for i := 0 to MAX_PROCESSES
        invariant nextPid == old(nextPid)
        invariant forall j: nat :: j < i ==> Unusable(Pids(Live()), PidAt(nextPid, j))
      {
        pid := (nextPid + i) % MAX_PROCESSES;
        assert pid == PidAt(nextPid, i);
        if pid != 0 {
          var inUse := PidInUse(pid);
          if !inUse {
            ghost var pids := Pids(Live());
            nextPid := pid + 1;
            assert Live() == old(Live()) && PidAt(old(nextPid), i) == pid && !Unusable(pids, pid);
            return;
          }
        }
      }
      pid := 0;
    }

    /** `process_find`: the slot of the process with an identifier, if there is one. */
    method Find(pid: nat) returns (slot: Option<nat>)
      requires Shape()
      ensures slot.Some? ==> slot.value in Live() && Live()[slot.value].pid == pid
      ensures slot.None? ==> pid !in Pids(Live())
    {
      for i := 0 to MAX_PROCESSES
        invariant forall k: nat :: k < i && k in Live() ==> Live()[k].pid != pid
      {
        if used[i] && table[i].pid == pid {
          return Some(i);
        }
      }
      return None;
    }

    /** The slot search of `process_create_internal`. It always succeeds: identifiers are distinct
        and fewer than the slots. */
    method FreeSlot() returns (slot: Option<nat>)
      requires Valid()
      ensures slot.Some? && slot.value < MAX_PROCESSES && slot.value !in Live()
      ensures forall k: nat :: k < slot.value ==> k in Live()
    {
      for i := 0 to MAX_PROCESSES
        invariant forall k: nat :: k < i ==> k in Live()
      {
        if !used[i] {
          return Some(i);
        }
      }
      TableNeverFull();
      return None;
    }

    lemma TableNeverFull()
      requires Valid()
      ensures exists i: nat :: i < MAX_PROCESSES && i !in Live()
    {
      hide Lives, Owned;
      var pid := map i | i in Live() :: Live()[i].pid;
      PidsFit(Live().Keys, pid);
      PagesSize(0, MAX_PROCESSES);
      if forall i: nat :: i < MAX_PROCESSES ==> i in Live() {
        SetSize(Pages(0, MAX_PROCESSES), Live().Keys);
      }
    }

    // ----- the memory of one process

    /** What creation and cleanup need of the memory manager. */
    ghost predicate MemoryOk()
      reads this, memory, memory.repr
    {
      && memory.pages in memory.repr && memory.frames in memory.repr && memory.pages.bitmap in memory.repr
      && memory.Valid()
    }

    /** A directory that cleanup leaves alone. */
    predicate Skipped(pd: nat)
      reads this
    {
      pd == 0 || pd == kernelDirectory
    }

    /** The frames of a directory, and their number as the counter sees it. */
    ghost function FreedFrames(s: Phys, pd: nat): set<nat>
      requires !Skipped(pd) ==> Tame(s.mem, s.used, pd)
      reads this
    {
      if Skipped(pd) then {} else Frames(s.mem, pd)
    }

    ghost function FreedCount(s: Phys, pd: nat): nat
      requires !Skipped(pd) ==> Tame(s.mem, s.used, pd)
      reads this
    {
      if Skipped(pd) then 0 else TableCount(s.mem, pd, ENTRIES) + 1
    }

    /** `process_cleanup`. */
    method Cleanup(pd: nat, kernelStack: nat, userStack: nat)
      requires MemoryOk() && (!Skipped(pd) ==> Tame(memory.State().mem, memory.State().used, pd))
      requires kernelStack + 2 <= PHYS_PAGES && userStack + 4 <= PHYS_PAGES
      modifies memory.repr
      ensures MemoryOk()
      ensures var s := old(memory.State());
        memory.State() ==
          s.(used := s.used - FreedFrames(s, pd) - Stack(Opt(kernelStack), 2) - Stack(Opt(userStack), 4))
      ensures memory.pages.total == Wrap(old(memory.pages.total) - FreedCount(old(memory.State()), pd)
        - (if kernelStack != 0 then 2 else 0) - (if userStack != 0 then 4 else 0))
    {
      hide Tame, Frames, Pages, Wrap, TableCount;
      ghost var freed := FreedCount(memory.State(), pd);
      WrapAgain(memory.pages.total - freed, -2);
      WrapAgain(memory.pages.total - freed, -4);
      WrapAgain(memory.pages.total - freed - 2, -4);
      WrapOfWord(memory.pages.total);
      if pd != 0 && pd != kernelDirectory {
        memory.DestroyDirectory(pd);
      }
      if kernelStack != 0 {
        memory.FreePages(kernelStack, 2);
      }
      if userStack != 0 {
        memory.FreePages(userStack, 4);
      }
    }

    lemma WrapOfWord(total: nat)
      requires total < WORD_VALUES
      ensures Wrap(total) == total
    {
    }

    /** The page directory with the kernel mapped in, as far as memory allows. */
    method MakeDirectory() returns (pd: Option<nat>)
      requires MemoryOk()
      modifies memory.repr
      ensures MemoryOk() && pd == NonNull(PageSet.Find(old(memory.State()).used, PHYS_PAGES, 1))
      ensures pd.None? ==>
        && memory.State() == old(memory.State()).(used := Requested(old(memory.State()).used, PHYS_PAGES, 1))
        && memory.pages.total ==
           if 0 in old(memory.State()).used then old(memory.pages.total) else Wrap(old(memory.pages.total) + 1)
      ensures pd.Some? ==>
        && pd.value != 0
        && Partial(old(memory.State()), memory.State(), pd.value)
        && (|Available(old(memory.State()).used)| >= 5 ==>
          Stage(old(memory.State()), memory.State(), pd.value, None, None, 0))
        && memory.pages.total == Wrap(old(memory.pages.total) + Least(|Available(old(memory.State()).used)|, 5))
    {
      hide Pages, Wrap, PageSet.Find, Stage, Available, Partial, Least;
      ghost var s0 := memory.State();
      ghost var total := memory.pages.total;
      FindOne(s0.used);
      pd := memory.CreateDirectory();
      if pd.Some? {
        AvailableIsFree(s0.used, pd.value);
        MapInto(pd.value, s0, total);
      }
    }

    method MapInto(pd: nat, ghost s0: Phys, ghost total: nat)
      requires MemoryOk() && DirectoryMade(s0, memory.State(), pd) && pd != 0
      requires PageSet.Find(s0.used, PHYS_PAGES, 1) == Some(pd) && memory.pages.total == Wrap(total + 1)
      modifies memory.repr
      ensures MemoryOk() && Partial(s0, memory.State(), pd)
      ensures |Available(s0.used)| >= 5 ==> Stage(s0, memory.State(), pd, None, None, 0)
      ensures memory.pages.total == Wrap(total + Least(|Available(s0.used)|, 5))
    {
      hide Space, Wrap, PageSet.Find, Stage, KernelMapped, Empty, Available, TablesMade, Partial, Least, DirectoryMade;
      ghost var s1, total1, n := memory.State(), memory.pages.total, |Available(s0.used)|;
      OneFewer(s0, s1, pd);
      MadeDirectoryIsEmpty(s0, s1, pd);
      memory.MapKernel(pd);
      PartlyMade(s0, s1, memory.State(), pd);
      if n >= 5 {
        StageWithKernel(s0, s1, memory.State(), pd);
      }
      CountOn(total, total1, n);
    }

    lemma OneFewer(s0: Phys, s1: Phys, pd: nat)
      requires DirectoryMade(s0, s1, pd) && PageSet.Find(s0.used, PHYS_PAGES, 1) == Some(pd)
      ensures |Available(s0.used)| > 0 && |Available(s1.used)| == |Available(s0.used)| - 1
    {
      hide Available, PageSet.Find;
      FindOne(s0.used);
      TakeOne(s0.used, pd);
      AvailableIsFree(s0.used, pd);
    }

    lemma CountOn(total: nat, total1: nat, n: nat)
      requires total1 == Wrap(total + 1) && n > 0
      ensures Wrap(total1 + Least(n - 1, 4)) == Wrap(total + Least(n, 5))
    {
      WrapAgain(total + 1, Least(n - 1, 4));
    }

    /** A directory has been taken, and tables as far as there were pages. */
    ghost predicate Partial(s0: Phys, s: Phys, pd: nat) {
      && Sized(s0.mem) && Tame(s.mem, s.used, pd)
      && s.used == Singles(s0.used, 5)
      && Frames(s.mem, pd) == (s.used - s0.used) + (if |Available(s0.used)| < 5 then {0} else {})
      && TableCount(s.mem, pd, ENTRIES) == 4
      && (forall f :: 0 < f < PHYS_PAGES && f in s0.used ==> s.mem[f] == s0.mem[f])
    }

    lemma PartlyMade(s0: Phys, s1: Phys, s: Phys, pd: nat)
      requires DirectoryMade(s0, s1, pd) && TablesMade(s1, s, pd, PHYS_PAGES)
      requires PageSet.Find(s0.used, PHYS_PAGES, 1) == Some(pd)
      ensures Partial(s0, s, pd)
    {
      hide PageSet.Find, Available, Frames, TableCount, NthTables, NthTable, Singles, Tame, TableAt, HasTable;
      MadeFrames(s1, s, pd);
      TablesAreTaken(s1.used, 4);
      OneThenFour(s0.used, pd);
      SinglesGrow(s1.used, 4);
      FindOne(s0.used);
      TakeOne(s0.used, pd);
      assert s.used - s0.used == {pd} + (s.used - s1.used);
    }

    /** Two pages for the kernel stack, mapped for the supervisor. */
    method AddKernelStack(pd: nat, ghost s0: Phys) returns (stack: Option<nat>)
      requires MemoryOk()
      requires PageSet.Find(memory.State().used, PHYS_PAGES, 2).Some? ==> Stage(s0, memory.State(), pd, None, None, 0)
      modifies memory.repr
      ensures MemoryOk() && stack == PageSet.Find(old(memory.State()).used, PHYS_PAGES, 2)
      ensures stack.None? ==> memory.State() == old(memory.State()) && memory.pages.total == old(memory.pages.total)
      ensures stack.Some? ==>
        && memory.State().used == old(memory.State()).used + Pages(stack.value, 2)
        && Stage(s0, memory.State(), pd, stack, None, 0)
        && memory.pages.total == Wrap(old(memory.pages.total) + 2)
    {
      hide Pages, Wrap, PageSet.Find, Stage, MapPage, HasTable, CanMap, Present, Writable, Space, Tame, DirIndex;
      hide FrameAddress;
      ghost var s := memory.State();
      stack := memory.AllocPages(2);
      if stack.None? {
        assert s.used + {} == s.used;
        return;
      }
      RunInMemory(s.used, 2, stack.value);
      TakeKernelStack(s0, s, pd, stack.value);
      for i := 0 to 2
        invariant MemoryOk() && Stage(s0, memory.State(), pd, stack, None, 0)
        invariant memory.State().used == s.used + Pages(stack.value, 2)
        invariant memory.pages.total == Wrap(old(memory.pages.total) + 2)
      {
        StageHasSpace(s0, memory.State(), pd, stack, None, 0);
        MapKernelStackPage(s0, memory.State(), pd, stack.value, stack.value + i);
        var address := FrameAddress(stack.value + i);
        MapPageUsed(memory.State(), pd, address, address, KERNEL_FLAGS);
        memory.MapPage(pd, address, address, KERNEL_FLAGS);
      }
    }

    lemma RunInMemory(used: set<nat>, count: nat, first: nat)
      requires PageSet.Find(used, PHYS_PAGES, count) == Some(first)
      ensures first + count < PHYS_PAGES && (count > 0 && 0 in used ==> first != 0)
    {
      assert Candidate(used, PHYS_PAGES, first, count);
    }

    lemma StageHasSpace(s0: Phys, s: Phys, pd: nat, kernel: Option<nat>, user: Option<nat>, mapped: nat)
      requires Stage(s0, s, pd, kernel, user, mapped)
      ensures Space(s.mem, s.used, pd) && Tame(s.mem, s.used, pd)
    {
      SpaceIsSized(s.mem, s.used, pd);
    }

    /** Four pages for the user stack, mapped for the user. */
    method AddUserStack(pd: nat, kernelStack: nat, ghost s0: Phys) returns (stack: Option<nat>)
      requires MemoryOk() && Stage(s0, memory.State(), pd, Some(kernelStack), None, 0)
      modifies memory.repr
      ensures MemoryOk() && stack == PageSet.Find(old(memory.State()).used, PHYS_PAGES, 4)
      ensures stack.None? ==> memory.State() == old(memory.State()) && memory.pages.total == old(memory.pages.total)
      ensures stack.Some? ==>
        && Stage(s0, memory.State(), pd, Some(kernelStack), stack, 4)
        && memory.pages.total == Wrap(old(memory.pages.total) + 4)
    {
      hide Pages, Wrap, PageSet.Find, Stage, MapPage, HasTable, CanMap, Present, Writable, Space, DirIndex;
      hide FrameAddress;
      ghost var s := memory.State();
      stack := memory.AllocPages(4);
      if stack.None? {
        assert s.used + {} == s.used;
        return;
      }
      TakeUserStack(s0, s, pd, kernelStack, stack.value);
      for i := 0 to 4
        invariant MemoryOk() && Stage(s0, memory.State(), pd, Some(kernelStack), stack, i)
        invariant memory.pages.total == Wrap(old(memory.pages.total) + 4)
      {
        StageHasSpace(s0, memory.State(), pd, Some(kernelStack), stack, i);
        MapUserStackPage(s0, memory.State(), pd, kernelStack, stack.value, i);
        var address := FrameAddress(stack.value + i);
        memory.MapPage(pd, address, address, USER_FLAGS);
      }
    }

    /** Cleaning up after the user stack could not be had restores the pages in use, and their contents. */
    method Abandon(pd: nat, kernelStack: nat, ghost s0: Phys)
      requires MemoryOk() && Stage(s0, memory.State(), pd, Opt(kernelStack), None, 0) && 0 in s0.used
        && kernelDirectory in s0.used
      modifies memory.repr
      ensures MemoryOk() && Untouched(s0, memory.State())
      ensures memory.pages.total == Wrap(old(memory.pages.total) - 5 - (if kernelStack != 0 then 2 else 0))
    {
      hide Stage, Space, Tame, Frames, Pages, Wrap, Stack, Untouched, Sized, TableCount;
      ghost var s := memory.State();
      StageAllowsCleanup(s0, s, pd, Opt(kernelStack), kernelStack);
      SpaceIsSized(s.mem, s.used, pd);
      Cleanup(pd, kernelStack, 0);
      CleanedStage(s0, s, memory.State(), pd, kernelStack);
    }

    lemma CleanedStage(s0: Phys, s: Phys, s': Phys, pd: nat, kernelStack: nat)
      requires Stage(s0, s, pd, Opt(kernelStack), None, 0) && 0 in s0.used && kernelDirectory in s0.used
      requires Sized(s.mem) && pd < PHYS_PAGES
      requires s' == s.(used := s.used - Frames(s.mem, pd) - Stack(Opt(kernelStack), 2) - Stack(Opt(0), 4))
      ensures Untouched(s0, s')
    {
      hide Stage, Space, Frames, Pages;
      StageAllowsCleanup(s0, s, pd, Opt(kernelStack), kernelStack);
      StageTakes(s0, s, pd, Opt(kernelStack), None, 0);
      assert s'.used == s0.used;
    }

    lemma StageAllowsCleanup(s0: Phys, s: Phys, pd: nat, kernel: Option<nat>, kernelStack: nat)
      requires Stage(s0, s, pd, kernel, None, 0) && kernel == Opt(kernelStack) && 0 in s0.used
        && kernelDirectory in s0.used
      ensures Space(s.mem, s.used, pd) && pd != 0 && pd != kernelDirectory && kernelStack + 2 <= PHYS_PAGES
      ensures Sized(s.mem) && pd < PHYS_PAGES && TableCount(s.mem, pd, ENTRIES) == 4
      ensures Sized(s.mem) && Sized(s0.mem) && s0.used <= s.used
      ensures forall f :: f in s0.used && f < PHYS_PAGES ==> s.mem[f] == s0.mem[f]
    {
      hide Translate, Space, HasTable, FrameOf, TableCount;
      SpaceIsSized(s.mem, s.used, pd);
      MadeCount(s.mem, pd, ENTRIES);
      assert pd in Frames(s.mem, pd);
      assert kernel.Some? ==> kernelStack + 1 in Stack(kernel, 2);
    }

    /** Cleaning up after the kernel stack could not be had: frame 0 is freed if it stands for a table. */
    method AbandonDirectory(pd: nat, ghost s0: Phys)
      requires MemoryOk() && Partial(s0, memory.State(), pd) && 0 in s0.used && kernelDirectory in s0.used
      requires pd !in s0.used
      modifies memory.repr
      ensures MemoryOk()
      ensures memory.State() == old(memory.State()).(used := s0.used - (if |Available(s0.used)| < 5 then {0} else {}))
      ensures memory.pages.total == Wrap(old(memory.pages.total) - 5)
    {
      hide Tame, Frames, Pages, Wrap, TableCount, Singles, Available;
      ghost var s := memory.State();
      SinglesGrow(s0.used, 5);
      Cleanup(pd, 0, 0);
      GiveBack(s0.used, s.used, if |Available(s0.used)| < 5 then {0} else {});
      TameIsSized(s, pd);
      assert memory.State().used == s.used - Frames(s.mem, pd);
    }

    lemma TameIsSized(s: Phys, pd: nat)
      requires Tame(s.mem, s.used, pd)
      ensures Sized(s.mem) && pd < PHYS_PAGES
    {
    }

    lemma GiveBack(used: set<nat>, more: set<nat>, extra: set<nat>)
      requires used <= more
      ensures more - ((more - used) + extra) == used - extra
    {
    }

    /** A refused creation changes nothing, or it frees frame 0, or takes it if it was free. */
    ghost predicate Refusal(s0: Phys, total0: nat)
      reads this, memory, memory.repr
      requires MemoryOk()
    {
      if 0 !in s0.used
      then memory.State() == s0.(used := s0.used + {0}) && memory.pages.total == Wrap(total0 + 1)
      else if Starving(s0.used)
      then FreesFrameZero(s0, memory.State()) && memory.pages.total == Wrap(total0 - (5 - |Available(s0.used)|))
      else Untouched(s0, memory.State()) && memory.pages.total == total0
    }

    /** Directory and kernel stack, or neither. */
    method BuildKernelPart() returns (ok: bool, pd: nat, kernelStack: nat)
      requires MemoryOk() && kernelDirectory in memory.State().used
      modifies memory.repr
      ensures MemoryOk() && (ok <==> 0 in old(memory.State()).used && Affordable(old(memory.State()).used, false))
      ensures ok ==>
        && Stage(old(memory.State()), memory.State(), pd, Some(kernelStack), None, 0)
        && PageSet.Find(Singles(old(memory.State()).used, 5), PHYS_PAGES, 2) == Some(kernelStack) && kernelStack != 0
        && memory.State().used == Singles(old(memory.State()).used, 5) + Pages(kernelStack, 2)
        && memory.pages.total == Wrap(old(memory.pages.total) + 7)
      ensures !ok ==> Refusal(old(memory.State()), old(memory.pages.total))
    {
      hide Stage, Pages, Wrap, PageSet.Find, Available, Singles, Partial, FreesFrameZero, Untouched;
      ghost var s0 := memory.State();
      ghost var total := memory.pages.total;
      ok, pd, kernelStack := false, 0, 0;
      StarvingFacts(s0.used);
      var directory := MakeDirectory();
      memory.FoundNull(s0.used);
      if directory.None? {
        OnePage(0);
        MemoryIsSized(s0);
        return;
      }
      pd := directory.value;
      FoundIsFree(s0.used, PHYS_PAGES);
      ghost var s1, total1 := memory.State(), memory.pages.total;
      PartialTakes(s0, s1, pd);
      var stack := AddKernelStack(pd, s0);
      if stack.None? {
        GiveUp(pd, s0, total);
        return;
      }
      kernelStack := stack.value;
      CounterFacts(total, 5);
      assert total1 == Wrap(total + 5);
      StageGrows(s0, s1, pd, None);
      RunInMemory(s1.used, 2, kernelStack);
      ok := true;
    }

    method GiveUp(pd: nat, ghost s0: Phys, ghost total: nat)
      requires MemoryOk() && Partial(s0, memory.State(), pd) && 0 in s0.used && kernelDirectory in s0.used
      requires pd !in s0.used && |Available(s0.used)| >= 1
      requires |Available(s0.used)| >= 5 ==> Stage(s0, memory.State(), pd, None, None, 0)
      requires total < WORD_VALUES && memory.pages.total == Wrap(total + Least(|Available(s0.used)|, 5))
      modifies memory.repr
      ensures MemoryOk() && Refusal(s0, total)
    {
      hide Stage, Wrap, PageSet.Find, Available, Singles, Partial, FreesFrameZero, Untouched;
      ghost var s := memory.State();
      CounterFacts(total, if |Available(s0.used)| < 5 then |Available(s0.used)| else 5);
      AbandonDirectory(pd, s0);
      AfterAbandon(s0, s, memory.State(), pd);
    }

    /** Everything `process_create_internal` allocates, or nothing. */
    method Build(isUser: bool) returns (ok: bool, pd: nat, kernelStack: nat, userStack: nat)
      requires MemoryOk() && kernelDirectory in memory.State().used
      modifies memory.repr
      ensures MemoryOk() && (ok <==> 0 in old(memory.State()).used && Affordable(old(memory.State()).used, isUser))
      ensures ok ==>
        && Stage(old(memory.State()), memory.State(), pd, Some(kernelStack), Opt(userStack), 4)
        && (isUser <==> userStack != 0) && kernelStack != 0
        && memory.pages.total == Wrap(old(memory.pages.total) + if isUser then 11 else 7)
      ensures !ok ==> Refusal(old(memory.State()), old(memory.pages.total))
    {
      hide Stage, Space, Frames, Pages, Wrap, PageSet.Find, Available, Singles, FreesFrameZero, Untouched, Starving;
      ghost var s0 := memory.State();
      ghost var total := memory.pages.total;
      userStack := 0;
      ok, pd, kernelStack := BuildKernelPart();
      if !ok {
        return;
      }
      StarvedIsNotOk(s0.used, false);
      WrapSums(total);
      StageGrows(s0, memory.State(), pd, Some(kernelStack));
      StageWithoutUser(s0, memory.State(), pd, Some(kernelStack));
      ghost var used := memory.State().used;
      if isUser {
        var stack := AddUserStack(pd, kernelStack, s0);
        if stack.None? {
          Abandon(pd, kernelStack, s0);
          return false, pd, kernelStack, 0;
        }
        userStack := stack.value;
        RunInMemory(used, 4, userStack);
      }
    }

    /** What the number of available pages decides. */
    lemma StarvingFacts(used: set<nat>)
      ensures PageSet.Find(used, PHYS_PAGES, 1).Some? <==> |Available(used)| >= 1
      ensures |Available(used)| < 5 ==> PageSet.Find(Singles(used, 5), PHYS_PAGES, 2).None?
    {
      hide Available, PageSet.Find, Singles;
      FindOne(used);
      if |Available(used)| < 5 {
        SinglesTake(used, 5);
        NothingAvailable(Singles(used, 5), 2);
      }
    }

    lemma CounterFacts(total: nat, n: nat)
      requires total < WORD_VALUES
      ensures Wrap(Wrap(total + n) - 5) == Wrap(total - (5 - n))
      ensures Wrap(Wrap(total + 5) - 5) == total && Wrap(Wrap(total + 5) + 2) == Wrap(total + 7)
    {
      WrapAgain(total + n, -5);
    }

    lemma PartialTakes(s0: Phys, s: Phys, pd: nat)
      requires Partial(s0, s, pd)
      ensures s.used == Singles(s0.used, 5)
    {
      hide Tame, Singles;
    }

    /** Nothing is left of it, but that frame 0 is free if it stood for a table. */
    lemma AfterAbandon(s0: Phys, s: Phys, s': Phys, pd: nat)
      requires Partial(s0, s, pd) && (|Available(s0.used)| >= 5 ==> Stage(s0, s, pd, None, None, 0))
      requires s' == s.(used := s0.used - (if |Available(s0.used)| < 5 then {0} else {}))
      ensures |Available(s0.used)| >= 5 ==> Untouched(s0, s')
      ensures |Available(s0.used)| < 5 ==> FreesFrameZero(s0, s')
    {
      hide Translate, Space, HasTable, FrameOf, Frames, Available, Singles, Parts, TableCount;
    }

    lemma StageGrows(s0: Phys, s: Phys, pd: nat, kernel: Option<nat>)
      requires Stage(s0, s, pd, kernel, None, 0)
      ensures s0.used <= s.used
    {
    }

    /** A kernel task has no user stack to map. */
    lemma StageWithoutUser(s0: Phys, s: Phys, pd: nat, kernel: Option<nat>)
      requires Stage(s0, s, pd, kernel, None, 0)
      ensures Stage(s0, s, pd, kernel, None, 4)
    {
      hide Translate, Space, HasTable, FrameOf, Frames, Parts;
      assert forall w: bv32 :: ProcessMapping(None, 0, w) == ProcessMapping(None, 4, w);
    }

    lemma MemoryIsSized(s: Phys)
      requires memory.Valid() && s.mem == memory.State().mem
      ensures Untouched(s, s)
    {
    }

    lemma WrapSums(total: nat)
      requires total < WORD_VALUES
      ensures Wrap(Wrap(total + 5) + 2) == Wrap(total + 7) && Wrap(Wrap(total + 7) + 4) == Wrap(total + 11)
      ensures Wrap(Wrap(total + 5) - 5) == total && Wrap(Wrap(total + 7) - 7) == total
    {
    }

    // ----- creation and release

    /** `process_create_internal`: the slot of the new process, if it could be created. With an identifier free
        and one to four pages available it cannot, and the attempt breaks the invariant. */
    method Create(parentPid: nat, isUser: bool) returns (slot: Option<nat>)
      requires Valid()
      modifies `nextPid, table, used, memory.repr
      ensures MemoryOk() && Shape()
      ensures exists pid: nat ::
        && PidChosen(Pids(old(Live())), old(nextPid), pid) && nextPid == (if pid == 0 then old(nextPid) else pid + 1)
        && (slot.Some? ==> slot.value in Live() && Live()[slot.value].pid == pid)
      ensures slot.Some? <==> Succeeds(old(Abs()), isUser)
      ensures Valid() <==> !Doomed(old(Abs()))
      ensures Changes(old(Abs()), Change.Create(isUser), Kernel(memory.State(), Live()))
      ensures slot.Some? ==>
        && (forall i: nat :: i < slot.value ==> i in old(Live()))
        && slot.value in Live() && Made(old(Abs()), slot.value, Live()[slot.value], Kernel(memory.State(), Live()))
        && (isUser <==> Live()[slot.value].userStack.Some?)
      ensures memory.pages.total == CountAfter(old(Abs()), old(memory.pages.total), isUser)
    {
      hide Coexist, Available, Stage, PidChosen, Wrap, Affordable, Changes, Untouched, FreesFrameZero, Starving, Made;
      BaseIsUsed();
      ghost var k := Abs();
      DoomedIsRefused(k, isUser);
      slot := FreeSlot();
      if slot.None? {
        return;
      }
      var pid := AllocatePid();
      assert Live() == k.procs && memory.State() == k.phys;
      PidChosenIsFree(Pids(Live()), old(nextPid), pid);
      if pid == 0 {
        MemoryIsSized(k.phys);
        RefusedChange(k, isUser, k);
        return None;
      }
      var ok, pd, kernelStack, userStack := Build(isUser);
      if !ok {
        ghost var k' := Kernel(memory.State(), Live());
        RefusedChange(k, isUser, k');
        ChangeKeepsCoexistenceIff(k, Change.Create(isUser), k', base);
        return None;
      }
      Install(slot.value, Pcb(pid, parentPid, isUser, pd, kernelStack, userStack), k);
      MadeChange(k, isUser, Abs(), slot.value, ToProcess(table[slot.value]));
    }

    /** The counter of allocated pages after a creation. */
    ghost function CountAfter(k: Kernel, total: nat, isUser: bool): nat {
      if Succeeds(k, isUser) then Wrap(total + if isUser then 11 else 7)
      else if Doomed(k) then Wrap(total - (5 - |Available(k.phys.used)|))
      else total
    }

    /** The process in its slot. */
    method Install(slot: nat, pcb: Pcb, ghost k: Kernel)
      requires Shape() && MemoryOk() && Live() == k.procs && slot < MAX_PROCESSES && slot !in Live()
      requires Coexist(k.phys, base, k.procs) && 1 <= pcb.pid < MAX_PROCESSES && pcb.pid !in Pids(k.procs)
      requires Stage(k.phys, memory.State(), pcb.pageDirectory, Some(pcb.kernelStack), Opt(pcb.userStack), 4)
      modifies table, used
      ensures Valid() && slot in Live() && Live()[slot] == ToProcess(pcb)
      ensures Made(k, slot, ToProcess(pcb), Abs())
    {
      hide Coexist, Stage;
      table[slot] := pcb;
      used[slot] := true;
      assert Live() == k.procs[slot := ToProcess(pcb)];
      MadeKeepsCoexistence(k, slot, ToProcess(pcb), Kernel(memory.State(), Live()), base);
    }

    lemma StarvedIsNotOk(used: set<nat>, isUser: bool)
      ensures Starving(used) ==> !Affordable(used, isUser)
    {
      hide Starving, Affordable;
      if Starving(used) {
        StarvingIsRefused(used, isUser);
      }
    }

    lemma BaseIsUsed()
      requires Valid()
      ensures base <= memory.State().used
    {
      hide Lives, Owned;
    }

    lemma RefusedChange(k: Kernel, isUser: bool, k': Kernel)
      requires !Succeeds(k, isUser) && k'.procs == k.procs
      requires 0 in k.phys.used
      requires if Doomed(k) then FreesFrameZero(k.phys, k'.phys) else Untouched(k.phys, k'.phys)
      ensures Changes(k, Change.Create(isUser), k')
    {
    }

    lemma MadeChange(k: Kernel, isUser: bool, k': Kernel, slot: nat, p: Process)
      requires Succeeds(k, isUser) && Made(k, slot, p, k') && p.userStack.Some? == isUser
      ensures Changes(k, Change.Create(isUser), k')
    {
    }

    /** The end of `process_exit`: cleanup, and the slot is free again. */
    method Release(slot: nat)
      requires Valid() && slot in Live()
      modifies used, memory.repr
      ensures Valid() && Changes(old(Abs()), Change.Cleanup(slot), Abs())
      ensures memory.pages.total == Wrap(old(memory.pages.total) - |Owned(old(Abs()).phys.mem, old(Live())[slot])|)
    {
      hide Coexist, Wrap, Owned, Lives, Space, Tame, Frames, Pages, TableCount;
      ghost var k := Abs();
      LiveAllowsCleanup(slot);
      SpaceIsSized(k.phys.mem, k.phys.used, table[slot].pageDirectory);
      Cleanup(table[slot].pageDirectory, table[slot].kernelStack, table[slot].userStack);
      used[slot] := false;
      assert Live() == k.procs - {slot};
      ghost var k' := Kernel(memory.State(), Live());
      CleanedChange(k, k', slot);
      ChangeKeepsCoexistenceIff(k, Change.Cleanup(slot), k', base);
    }

    lemma LiveAllowsCleanup(slot: nat)
      requires Valid() && slot in Live()
      ensures Cleanable(memory.State(), Live()[slot])
    {
      hide Lives, Owned;
      LivesAllowsCleanup(memory.State(), Live()[slot]);
    }

    ghost predicate Cleanable(s: Phys, p: Process) {
      && Space(s.mem, s.used, p.pd) && p.pd != 0 && p.pd != kernelDirectory
      && p.kernelStack != 0 && p.kernelStack + 2 <= PHYS_PAGES
      && (p.userStack.Some? ==> p.userStack.value + 4 <= PHYS_PAGES)
      && |Owned(s.mem, p)| == TableCount(s.mem, p.pd, ENTRIES) + 3 + (if p.userStack.Some? then 4 else 0)
    }

    lemma LivesAllowsCleanup(s: Phys, p: Process)
      requires Lives(s, p) && Owned(s.mem, p) !! base && 0 in base && kernelDirectory in base
      ensures Cleanable(s, p)
    {
      hide Space, Frames, Parts, TableCount;
      SpaceIsSized(s.mem, s.used, p.pd);
      CountFrames(s, p.pd);
      CountOwned(s, p);
      InFrames(s.mem, p.pd);
      assert p.pd in Owned(s.mem, p);
      assert p.kernelStack in Owned(s.mem, p) && p.kernelStack + 1 in Owned(s.mem, p);
      assert p.userStack.Some? ==> p.userStack.value + 3 in Owned(s.mem, p);
    }

    lemma InFrames(mem: Memory, pd: nat)
      requires Sized(mem) && pd < PHYS_PAGES
      ensures pd in Frames(mem, pd)
    {
    }

    lemma CountOwned(s: Phys, p: Process)
      requires Lives(s, p)
      ensures |Owned(s.mem, p)| == |Frames(s.mem, p.pd)| + 2 + (if p.userStack.Some? then 4 else 0)
    {
      hide Space, Frames, Pages;
      PagesSize(p.kernelStack, 2);
      if p.userStack.Some? {
        PagesSize(p.userStack.value, 4);
      }
      SpaceIsSized(s.mem, s.used, p.pd);
      var a, b, c := Frames(s.mem, p.pd), Pages(p.kernelStack, 2), Stack(p.userStack, 4);
      assert |a + b| == |a| + |b|;
      assert |a + b + c| == |a + b| + |c|;
    }

    lemma CountFrames(s: Phys, pd: nat)
      requires Space(s.mem, s.used, pd)
      ensures Sized(s.mem) && pd < PHYS_PAGES && |Frames(s.mem, pd)| == TableCount(s.mem, pd, ENTRIES) + 1
    {
      hide Space, Frames, TablesBelow, TableCount;
      SpaceIsSized(s.mem, s.used, pd);
      AllTables(s.mem, s.used, pd);
      SpaceCountsTables(s.mem, s.used, pd, ENTRIES);
    }

    lemma CleanedChange(k: Kernel, k': Kernel, slot: nat)
      requires slot in k.procs && Sized(k.phys.mem) && k.procs[slot].pd < PHYS_PAGES
      requires k'.phys.mem == k.phys.mem && k'.procs == k.procs - {slot}
      requires var p := k.procs[slot];
        k'.phys.used == k.phys.used - Frames(k.phys.mem, p.pd) - Stack(Some(p.kernelStack), 2) - Stack(p.userStack, 4)
      ensures Changes(k, Change.Cleanup(slot), k')
    {
      hide Frames, Pages;
      assert k'.phys.used == k.phys.used - Owned(k.phys.mem, k.procs[slot]);
    }
  }
}
