/** The part of the processor that a context switch uses: registers, a word memory, and the
    kernel's assembly routines, instruction by instruction. Addresses are those of aligned words. */
module StackMachine {
  datatype Reg = Eax | Ecx | Edx | Ebx | Ebp | Esi | Edi
  datatype Seg = Cs | Ss | Ds | Es | Fs | Gs

  type Memory = map<int, int>

  datatype Machine = Machine(mem: Memory, esp: int, eip: int, eflags: int, regs: map<Reg, int>, segs: map<Seg, int>)

  function Read(mem: Memory, a: int): int {
    if a in mem then mem[a] else 0
  }

  function Get(m: Machine, r: Reg): int {
    if r in m.regs then m.regs[r] else 0
  }

  function GetSeg(m: Machine, s: Seg): int {
    if s in m.segs then m.segs[s] else 0
  }

  // ----- instructions

  function PushWord(m: Machine, v: int): Machine {
    m.(esp := m.esp - 4, mem := m.mem[m.esp - 4 := v])
  }

  function Push(m: Machine, r: Reg): Machine {
    PushWord(m, Get(m, r))
  }

  function PushFlags(m: Machine): Machine {
    PushWord(m, m.eflags)
  }

  function Pop(m: Machine, r: Reg): Machine {
    m.(esp := m.esp + 4, regs := m.regs[r := Read(m.mem, m.esp)])
  }

  function PopFlags(m: Machine): Machine {
    m.(esp := m.esp + 4, eflags := Read(m.mem, m.esp))
  }

  function PopSeg(m: Machine, s: Seg): Machine {
    m.(esp := m.esp + 4, segs := m.segs[s := Read(m.mem, m.esp)])
  }

  /** The word popped for ESP is dropped. */
  function PopAll(m: Machine): Machine {
    m.(esp := m.esp + 32,
       regs := map[Edi := Read(m.mem, m.esp), Esi := Read(m.mem, m.esp + 4), Ebp := Read(m.mem, m.esp + 8),
                   Ebx := Read(m.mem, m.esp + 16), Edx := Read(m.mem, m.esp + 20),
                   Ecx := Read(m.mem, m.esp + 24), Eax := Read(m.mem, m.esp + 28)])
  }

  function Ret(m: Machine): Machine {
    m.(esp := m.esp + 4, eip := Read(m.mem, m.esp))
  }

  /** A return to an outer ring pops EIP, CS, EFLAGS, ESP and SS. */
  function Iret(m: Machine): Machine {
    m.(eip := Read(m.mem, m.esp), eflags := Read(m.mem, m.esp + 8), esp := Read(m.mem, m.esp + 12),
       segs := m.segs[Cs := Read(m.mem, m.esp + 4)][Ss := Read(m.mem, m.esp + 16)])
  }

  // ----- context_switch_asm

  function Save(m: Machine): Machine {
    var m := PushFlags(m);
    var m := Push(m, Ebp);
    var m := Push(m, Ebx);
    var m := Push(m, Esi);
    Push(m, Edi)
  }

  function Restore(m: Machine): Machine {
    var m := Pop(m, Edi);
    var m := Pop(m, Esi);
    var m := Pop(m, Ebx);
    var m := Pop(m, Ebp);
    var m := PopFlags(m);
    Ret(m)
  }

  /** The whole routine: it saves only if there is a process to switch from, and continues on the
      stack of the process to switch to. */
  function ContextSwitch(m: Machine, saves: bool, toEsp: int): Machine {
    Restore((if saves then Save(m) else m).(esp := toEsp))
  }

  lemma RestoreKeepsMemory(m: Machine, esp: int)
    ensures ContextSwitch(m, false, esp).mem == m.mem
  {
  }

  /** What a caller of the routine relies on finding again when it returns. */
  datatype Context = Context(esp: int, eip: int, eflags: int, ebp: int, ebx: int, esi: int, edi: int)

  function ContextOf(m: Machine): Context {
    Context(m.esp, m.eip, m.eflags, Get(m, Ebp), Get(m, Ebx), Get(m, Esi), Get(m, Edi))
  }

  /** The context of the caller once the call, whose return address is on top of the stack, returns. */
  function ReturnContext(m: Machine): Context {
    ContextOf(m).(esp := m.esp + 4, eip := Read(m.mem, m.esp))
  }

  /** The six words at `sp` are those that the routine pops to continue with context `c`. */
  ghost predicate FrameAt(mem: Memory, sp: int, c: Context) {
    && c.esp == sp + 24
    && Read(mem, sp) == c.edi
    && Read(mem, sp + 4) == c.esi
    && Read(mem, sp + 8) == c.ebx
    && Read(mem, sp + 12) == c.ebp
    && Read(mem, sp + 16) == c.eflags
    && Read(mem, sp + 20) == c.eip
  }

  /** Saving pushes a frame for the return context, just below the caller's stack pointer. */
  lemma SaveBuildsFrame(m: Machine)
    ensures Save(m).esp == m.esp - 20
    ensures FrameAt(Save(m).mem, m.esp - 20, ReturnContext(m))
    ensures WritesWithin(m.mem, Save(m).mem, m.esp - 20, m.esp)
  {
  }

  /** Restoring from a frame continues with exactly its context, and writes no memory. */
  lemma RestoreUsesFrame(m: Machine, c: Context)
    requires FrameAt(m.mem, m.esp, c)
    ensures ContextOf(Restore(m)) == c
    ensures Restore(m).mem == m.mem
  {
  }

  // ----- process_setup_stack and first_run_user_handler

  const KERNEL_STACK_SIZE := 8192
  const USER_STACK_SIZE := 16384

  function FirstRunUserHandler(m: Machine): Machine {
    var m := PopSeg(m, Gs);
    var m := PopSeg(m, Fs);
    var m := PopSeg(m, Es);
    var m := PopSeg(m, Ds);
    var m := PopAll(m);
    var m := m.(esp := m.esp + 8);
    Iret(m)
  }

  /** The context with which a fresh process is first dispatched; `handler` is the address of the
      first-run handler. */
  function FirstContext(stack: int, entry: int, user: bool, handler: int): Context {
    var top := stack + KERNEL_STACK_SIZE;
    if user then Context(top - 76, handler, 0x202, 0, 0, 0, 0) else Context(top, entry, 0x202, 0, 0, 0, 0)
  }

  ghost predicate SegmentsAt(mem: Memory, sp: int) {
    Read(mem, sp) == Read(mem, sp + 4) == Read(mem, sp + 8) == Read(mem, sp + 12) == 0x23
  }

  /** The general registers, all cleared. */
  ghost predicate GeneralsAt(mem: Memory, sp: int) {
    && Read(mem, sp) == Read(mem, sp + 4) == Read(mem, sp + 8) == Read(mem, sp + 12) == 0
    && Read(mem, sp + 16) == Read(mem, sp + 20) == Read(mem, sp + 24) == Read(mem, sp + 28) == 0
  }

  /** The frame of an interrupt return to ring 3. */
  ghost predicate InterruptFrameAt(mem: Memory, sp: int, entry: int, userStack: int) {
    && Read(mem, sp) == entry
    && Read(mem, sp + 4) == 0x1B
    && Read(mem, sp + 8) == 0x202
    && Read(mem, sp + 12) == userStack + USER_STACK_SIZE
    && Read(mem, sp + 16) == 0x23
  }

  /** The words above the return address of a fresh user stack: registers, two unused words and the
      interrupt return frame. */
  ghost predicate UserFrameAt(mem: Memory, sp: int, entry: int, userStack: int) {
    SegmentsAt(mem, sp) && GeneralsAt(mem, sp + 16) && InterruptFrameAt(mem, sp + 56, entry, userStack)
  }

  /** What setting up a process's kernel stack does to memory. */
  ghost predicate SetUp(mem: Memory, mem': Memory, sp: int, stack: int,
                        entry: int, user: bool, userStack: int, handler: int)
  {
    && FrameAt(mem', sp, FirstContext(stack, entry, user, handler))
    && (user ==> UserFrameAt(mem', sp + 24, entry, userStack))
    && stack <= sp
    && WritesWithin(mem, mem', stack, stack + KERNEL_STACK_SIZE)
  }

  /** A stack pointer that stores downwards. */
  datatype Cursor = Cursor(mem: Memory, sp: int) {
    function Put(w: int): Cursor {
      Cursor(mem[sp - 4 := w], sp - 4)
    }
  }

  /** `mem'` differs from `mem` only between `lo` and `hi`. */
  ghost predicate WritesWithin(mem: Memory, mem': Memory, lo: int, hi: int) {
    forall a :: a < lo || a >= hi ==> Read(mem', a) == Read(mem, a)
  }

  method PutInterruptFrame(c: Cursor, entry: int, userStack: int) returns (c': Cursor)
    ensures c'.sp == c.sp - 28 && InterruptFrameAt(c'.mem, c'.sp + 8, entry, userStack)
    ensures WritesWithin(c.mem, c'.mem, c.sp - 28, c.sp)
  {
    c' := c.Put(0x23).Put(userStack + USER_STACK_SIZE).Put(0x202).Put(0x1B).Put(entry);
    c' := c'.Put(0).Put(0);
  }

  method PutGenerals(c: Cursor) returns (c': Cursor)
    ensures c'.sp == c.sp - 32 && GeneralsAt(c'.mem, c'.sp)
    ensures WritesWithin(c.mem, c'.mem, c.sp - 32, c.sp)
  {
    c' := c.Put(0).Put(0).Put(0).Put(0).Put(0).Put(0).Put(0).Put(0);
  }

  method PutSegments(c: Cursor) returns (c': Cursor)
    ensures c'.sp == c.sp - 16 && SegmentsAt(c'.mem, c'.sp)
    ensures WritesWithin(c.mem, c'.mem, c.sp - 16, c.sp)
  {
    c' := c.Put(0x23).Put(0x23).Put(0x23).Put(0x23);
  }

  method PutSwitchFrame(c: Cursor, eip: int) returns (c': Cursor)
    ensures c'.sp == c.sp - 24 && FrameAt(c'.mem, c'.sp, Context(c.sp, eip, 0x202, 0, 0, 0, 0))
    ensures WritesWithin(c.mem, c'.mem, c.sp - 24, c.sp)
  {
    c' := c.Put(eip).Put(0x202).Put(0).Put(0).Put(0).Put(0);
  }

  method SetupStack(mem: Memory, stack: int, entry: int, user: bool, userStack: int, handler: int)
    returns (panic: bool, mem': Memory, sp: int)
    ensures panic <==> entry == 0
    ensures if panic then mem' == mem else SetUp(mem, mem', sp, stack, entry, user, userStack, handler)
  {
    if entry == 0 {
      return true, mem, 0;
    }
    var c := Cursor(mem, stack + KERNEL_STACK_SIZE);
    if user {
      c := PutInterruptFrame(c, entry, userStack);
      c := PutGenerals(c);
      c := PutSegments(c);
      c := PutSwitchFrame(c, handler);
    } else {
      c := PutSwitchFrame(c, entry);
    }
    panic, mem', sp := false, c.mem, c.sp;
  }

  /** From its frame the first-run handler enters ring 3 at the entry point, on the top of the user
      stack, with every general register cleared. */
  lemma FirstRunEntersUser(m: Machine, entry: int, userStack: int)
    requires UserFrameAt(m.mem, m.esp, entry, userStack)
    ensures var m' := FirstRunUserHandler(m);
      && m'.eip == entry && m'.esp == userStack + 16384 && m'.eflags == 0x202
      && GetSeg(m', Cs) == 0x1B && GetSeg(m', Ss) == 0x23
      && GetSeg(m', Ds) == GetSeg(m', Es) == GetSeg(m', Fs) == GetSeg(m', Gs) == 0x23
      && (forall r :: Get(m', r) == 0)
  {
  }
}
