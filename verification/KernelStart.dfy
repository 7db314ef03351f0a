/** How a process gets to run: its address space and its stacks from creation to its first instruction. */
module KernelStart {
  import opened Common
  import opened SchedulerSpec
  import opened StackMachine
  import opened Words
  import opened PageSet
  import opened PageAllocator
  import opened Paging
  import opened AddressSpace
  import opened K = KernelSpec
  import opened KernelRuns
  import W = Switching
  import IS = IpcSpec
  import PS = ProcessSpec

  // ----- address spaces are private

  /** The event maps that page of the process. */
  predicate MapsPage(e: Event, i: nat, w: bv32) {
    e.Map? && e.slot == i && PageOf(e.v) == PageOf(w)
  }

  /** Nothing changes how an address of a process translates but a mapping of that page into that process. */
  lemma TranslationKept(k: Kernel, base: set<nat>, e: Event, k': Kernel, i: nat, w: bv32)
    requires K.Inv(k, base) && K.Step(k, e, k') && Harmless(k, e) && i in k.procs
    requires e != K.Exit(i) && !MapsPage(e, i, w)
    ensures i in k'.procs && k'.procs[i] == k.procs[i] && k.procs[i].pd < PHYS_PAGES
    ensures Sized(k.phys.mem) && Sized(k'.phys.mem)
    ensures Translate(k'.phys.mem, k.procs[i].pd, w) == Translate(k.phys.mem, k.procs[i].pd, w)
  {
    hide PS.Coexist, IS.Inv, W.Inv, W.Possible, W.After, PS.Succeeds, Stage, MapPage, PS.Mapworthy, SchedulerSpec.Exit;
    hide ContextSwitch, Blocks, IS.Next, PS.Doomed, IS.Legal, PS.Owned, Tame, Relinks, IS.SendRelinks, Translate;
    hide PageOf;
    Facts(k, base);
    PS.DirectoryIsTame(k.phys, base + k.ipc.held, k.procs, i);
    match e
    case Create(isUser) => CreateKeepsTranslation(k, base, isUser, k', i, w);
    case Map(slot, v, frame, flags) =>
      PS.DirectoryIsTame(k.phys, base + k.ipc.held, k.procs, slot);
      PS.MapKeepsOthers(k.phys, base + k.ipc.held, k.procs, slot, v, frame, flags, i, w);
    case _ =>
  }

  lemma CreateKeepsTranslation(k: Kernel, base: set<nat>, isUser: bool, k': Kernel, i: nat, w: bv32)
    requires K.Inv(k, base) && K.Step(k, Create(isUser), k') && !PS.Doomed(Table(k)) && i in k.procs
    ensures Sized(k.phys.mem) && Sized(k'.phys.mem) && k.procs[i].pd < PHYS_PAGES
    ensures Translate(k'.phys.mem, k.procs[i].pd, w) == Translate(k.phys.mem, k.procs[i].pd, w)
  {
    hide K.Inv, K.Step, PS.Doomed, Translate, PS.Owned, PS.Lives, Frames;
    LivesInKernel(k, base, i);
    PS.OwnedIsUsed(k.phys, k.procs[i]);
    var s' := k'.phys.(used := k.phys.used);
    forall f | f in PS.Owned(k.phys.mem, k.procs[i]) && f < PHYS_PAGES
      ensures Sized(s'.mem) && s'.mem[f] == k.phys.mem[f]
    {
      CreateKeepsPage(k, base, isUser, k', f);
    }
    OwnsDirectory(k.phys.mem, k.procs[i]);
    PS.LivesOn(k.phys, s', k.procs[i]);
  }

  lemma OwnsDirectory(mem: Paging.Memory, p: PS.Process)
    requires Sized(mem) && p.pd < PHYS_PAGES
    ensures p.pd in PS.Owned(mem, p)
  {
  }

  lemma LivesInKernel(k: Kernel, base: set<nat>, i: nat)
    requires K.Inv(k, base) && i in k.procs
    ensures PS.Lives(k.phys, k.procs[i])
  {
    hide IS.Inv, W.Inv, PS.Lives, PS.Owned;
  }

  /** So it stays along every run without such a mapping, until the process exits. */
  lemma {:induction false} TranslationKeptThroughout(run: seq<Kernel>, events: seq<Event>, base: set<nat>, i: nat,
    w: bv32)
    requires |run| == |events| + 1 && K.Inv(run[0], base) && IsRun(run, events, base) && AllHarmless(run, events)
    requires i in run[0].procs
    requires forall n :: 0 <= n < |events| ==> events[n] != K.Exit(i) && !MapsPage(events[n], i, w)
    ensures var k := run[|events|];
      && i in k.procs && k.procs[i] == run[0].procs[i] && k.procs[i].pd < PHYS_PAGES
      && Sized(run[0].phys.mem) && Sized(k.phys.mem)
      && Translate(k.phys.mem, k.procs[i].pd, w) == Translate(run[0].phys.mem, k.procs[i].pd, w)
    decreases |events|
  {
    hide K.Inv, K.Step, Harmless, Translate, MapsPage;
    if events == [] {
      LivesInKernel(run[0], base, i);
      SizedOfLiving(run[0].phys, run[0].procs[i]);
    } else {
      assert Harmless(run[0], events[0]) && events[0] != K.Exit(i) && !MapsPage(events[0], i, w);
      StepKeepsInvIff(run[0], base, events[0], run[1]);
      TranslationKept(run[0], base, events[0], run[1], i, w);
      LaterEvents(run, events);
      TranslationKeptThroughout(run[1..], events[1..], base, i, w);
    }
  }

  lemma SizedOfLiving(s: Phys, p: PS.Process)
    requires PS.Lives(s, p)
    ensures Sized(s.mem) && p.pd < PHYS_PAGES
  {
    hide Translate, Frames, PS.Owned;
    PS.OwnedIsUsed(s, p);
  }

  /** From its creation, which leaves it exact (`CreatedIsExact`), to its exit, a user process has the addresses
      of its four pages of user stack to read and write, unless they are mapped otherwise. */
  lemma UserStackStaysMapped(run: seq<Kernel>, events: seq<Event>, base: set<nat>, p: nat, f: nat, w: bv32)
    requires |run| == |events| + 1 && K.Inv(run[0], base) && IsRun(run, events, base) && AllHarmless(run, events)
    requires p in run[0].procs && run[0].procs[p].userStack == Some(f)
    requires Sized(run[0].phys.mem) && run[0].procs[p].pd < PHYS_PAGES && PS.Exact(run[0].phys.mem, run[0].procs[p])
    requires forall n :: 0 <= n < |events| ==> events[n] != K.Exit(p) && !MapsPage(events[n], p, w)
    requires f * 4096 <= Magnitude(w) < (f + 4) * 4096
    ensures var k := run[|events|];
      && p in k.procs && k.procs[p] == run[0].procs[p] && k.procs[p].pd < PHYS_PAGES && Sized(k.phys.mem)
      && Translate(k.phys.mem, k.procs[p].pd, w) == Some(Mapping(Magnitude(w) / 4096, true, true))
  {
    hide K.Inv, K.Step, IsRun, AllHarmless, Translate, Magnitude, MapsPage, PS.Exact;
    TranslationKeptThroughout(run, events, base, p, w);
    LivesInKernel(run[0], base, p);
    StackInMemory(run[0].phys, run[0].procs[p]);
    PS.UserStackIsMapped(run[0].phys.mem, run[0].procs[p], f, w);
  }

  /** A process that is created has an exact address space, and a user stack if it is a user process. */
  lemma CreatedIsExact(k: Kernel, base: set<nat>, isUser: bool, k': Kernel, p: nat)
    requires K.Inv(k, base) && K.Step(k, Create(isUser), k') && p !in k.procs && p in k'.procs
    ensures Sized(k'.phys.mem) && k'.procs[p].pd < PHYS_PAGES && PS.Exact(k'.phys.mem, k'.procs[p])
    ensures isUser <==> k'.procs[p].userStack.Some?
    ensures isUser ==> k'.procs[p].userStack.value + 4 <= PHYS_PAGES
  {
    hide PS.Coexist, IS.Inv, W.Inv, PS.Succeeds, Stage, PS.Doomed, PS.Exact, PS.Lives, PS.Owned;
    var slot, q :| PS.Made(Table(k), slot, q, Table(k')) && q.userStack.Some? == isUser
                   && k' == WithProcess(k, Table(k'), slot, q.pid);
    PS.NewProcessLives(k.phys, k'.phys, q);
    StackInMemory(k'.phys, q);
  }

  lemma StackInMemory(s: Phys, p: PS.Process)
    requires PS.Lives(s, p)
    ensures p.userStack.Some? ==> p.userStack.value + 4 <= PHYS_PAGES
    ensures p.kernelStack + 2 <= PHYS_PAGES
  {
    hide Space, Frames;
    PS.OwnedIsUsed(s, p);
    assert p.kernelStack + 1 in PS.Owned(s.mem, p);
    assert p.userStack.Some? ==> p.userStack.value + 3 in PS.Owned(s.mem, p);
  }

  // ----- the first instruction

  /** A process is set up, and becomes current any time later, by whatever event. A kernel task then starts at
      its entry point, on top of its two pages of kernel stack. A user process starts in the first-run
      handler, and from there at its entry point in ring 3, with an empty stack: on top of its four pages. */
  lemma ProcessStarts(k: Kernel, prepare: W.Event<nat>, run: seq<Kernel>, events: seq<Event>, base: set<nat>,
    resume: Event, k': Kernel)
    requires |run| == |events| + 1 && K.Inv(run[0], base) && IsRun(run, events, base) && AllHarmless(run, events)
    requires K.Inv(k, base) && prepare.Prepare? && K.Step(k, Process(prepare), run[0])
    requires LeavesOffThroughout(run, events, prepare.p)
    requires K.Inv(run[|events|], base) ==> K.Step(run[|events|], resume, k')
    requires k'.ipc.sched.current == Some(prepare.p)
    ensures prepare.p in k.procs
    ensures var p, m := k.procs[prepare.p], k'.cpu;
      match p.userStack
      case None => m.eip == prepare.entry && m.eflags == 0x202 && m.esp == (p.kernelStack + 2) * 4096
      case Some(f) =>
        && m.eip == prepare.handler && m.esp == (p.kernelStack + 2) * 4096 - 76
        && var u := FirstRunUserHandler(m);
           && u.eip == prepare.entry && u.eflags == 0x202 && u.esp == (f + 4) * 4096
           && GetSeg(u, Cs) == 0x1B && GetSeg(u, Ss) == 0x23
  {
    hide K.Inv, K.Step, IsRun, AllHarmless, LeavesOffThroughout, FirstRunUserHandler, W.SameAbove, ContextOf;
    hide UserFrameAt;
    PreparedInTable(k, base, prepare, run[0]);
    ResumesAfterEverything(run, events, base, prepare.p, resume, k');
    StartsFromImage(k.procs[prepare.p], prepare, run[0].frozen[prepare.p], k'.cpu);
  }

  /** The image that setting up a process leaves. */
  ghost predicate FreshImage(p: PS.Process, prepare: W.Event<nat>, image: W.Image)
    requires prepare.Prepare?
  {
    && image.context == FirstContext(p.kernelStack * PAGE_SIZE, prepare.entry, prepare.user, prepare.handler)
    && prepare.user == p.userStack.Some?
    && (prepare.user ==>
          && prepare.userStack == p.userStack.value * PAGE_SIZE
          && UserFrameAt(image.mem, image.context.esp, prepare.entry, prepare.userStack))
  }

  lemma PreparedInTable(k: Kernel, base: set<nat>, prepare: W.Event<nat>, k': Kernel)
    requires K.Inv(k, base) && prepare.Prepare? && K.Step(k, Process(prepare), k')
    ensures prepare.p in k.procs && prepare.p in k'.frozen && k'.procs == k.procs
    ensures FreshImage(k.procs[prepare.p], prepare, k'.frozen[prepare.p])
  {
    hide PS.Coexist, IS.Inv, W.Inv, W.Possible, W.After, UserFrameAt, FirstContext;
    Facts(k, base);
    W.PreparedImage(World(k), prepare);
  }

  lemma StartsFromImage(p: PS.Process, prepare: W.Event<nat>, image: W.Image, m: Machine)
    requires prepare.Prepare? && FreshImage(p, prepare, image)
    requires ContextOf(m) == image.context && W.SameAbove(p.kernelStack * PAGE_SIZE, m.mem, image)
    ensures match p.userStack
      case None => m.eip == prepare.entry && m.eflags == 0x202 && m.esp == (p.kernelStack + 2) * 4096
      case Some(f) =>
        && m.eip == prepare.handler && m.esp == (p.kernelStack + 2) * 4096 - 76
        && var u := FirstRunUserHandler(m);
           && u.eip == prepare.entry && u.eflags == 0x202 && u.esp == (f + 4) * 4096
           && GetSeg(u, Cs) == 0x1B && GetSeg(u, Ss) == 0x23
  {
    hide FirstRunUserHandler, W.SameAbove, UserFrameAt;
    if p.userStack.Some? {
      W.UserFrameKept(p.kernelStack * PAGE_SIZE, m, image, prepare.entry, prepare.userStack);
      FirstRunEntersUser(m, prepare.entry, prepare.userStack);
    }
  }
}
