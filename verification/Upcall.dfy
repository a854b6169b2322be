/** Page-fault upcalls: the frame that page_fault_handler pushes (kern/trap.c) and the code that
    returns from it (lib/pfentry.S). */
module Upcall {
  const PGSIZE := 4096
  const UXSTACKTOP := 0xEEC0_0000
  /** The bytes of a UTrapframe. */
  const FRAME := 52

  datatype Regs = Regs(edi: int, esi: int, ebp: int, ebx: int, edx: int, ecx: int, eax: int)

  /** Memory holds a 4-byte word at each address that is a multiple of four. */
  datatype Machine = Machine(regs: Regs, eip: int, eflags: int, esp: int, mem: int -> int)

  function Put(mem: int -> int, a: int, v: int): int -> int {
    x => if x == a then v else mem(x)
  }

  predicate Ok(s: Machine) {
    0 < s.esp <= UXSTACKTOP && s.esp % 4 == 0
  }

  predicate InStackPage(a: int) {
    UXSTACKTOP - PGSIZE <= a < UXSTACKTOP
  }

  /** Where the frame goes: below a spare word if the fault happened on the exception stack, else
      at its top. */
  function FrameAt(esp: int): int {
    if InStackPage(esp) then esp - FRAME - 4 else UXSTACKTOP - FRAME
  }

  /** The frame lies in the exception stack's page. */
  predicate Fits(s: Machine) {
    FrameAt(s.esp) >= UXSTACKTOP - PGSIZE
  }

  /** The words of the frame, from the lowest address up. */
  function Words(s: Machine, va: int, trapno: int): (w: seq<int>)
    ensures |w| == 13
  {
    [va, trapno, s.regs.edi, s.regs.esi, s.regs.ebp, s.esp, s.regs.ebx, s.regs.edx, s.regs.ecx, s.regs.eax,
     s.eip, s.eflags, s.esp]
  }

  /** The frame lies in memory at u and says to return to s. */
  ghost predicate FrameOf(mem: int -> int, u: int, s: Machine) {
    && mem(u + 8) == s.regs.edi && mem(u + 12) == s.regs.esi && mem(u + 16) == s.regs.ebp && mem(u + 24) == s.regs.ebx
    && mem(u + 28) == s.regs.edx && mem(u + 32) == s.regs.ecx && mem(u + 36) == s.regs.eax
    && mem(u + 40) == s.eip && mem(u + 44) == s.eflags && mem(u + 48) == s.esp
  }

  /** Nothing from address a up to the top of the exception stack differs. */
  ghost predicate SameAbove(m: int -> int, m': int -> int, a: int) {
    forall x | a <= x < UXSTACKTOP :: m'(x) == m(x)
  }

  /** page_fault_handler.  False: the environment has no upcall, or the user cannot write to where
      the frame would go, and is destroyed. */
  method Push(s: Machine, va: int, trapno: int, upcall: int, writable: int -> bool) returns (ok: bool, t: Machine)
    requires Ok(s)
    ensures ok <==> upcall != 0 && forall x | FrameAt(s.esp) <= x < FrameAt(s.esp) + FRAME :: writable(x)
    ensures ok ==> Pushed(s, va, trapno, upcall, t)
    ensures ok && (forall x | UXSTACKTOP - 2 * PGSIZE <= x < UXSTACKTOP - PGSIZE :: !writable(x)) ==> Fits(s)
  {
    hide Holds;
    hide Words;
    hide FrameOf;
    hide FrameAt;
    hide Fits;
    var u := FrameAt(s.esp);
    ok := upcall != 0 && forall x | u <= x < u + FRAME :: writable(x);
    t := s;
    if ok {
      var mem := Lay(s.mem, u, Words(s, va, trapno));
      FrameLaid(mem, u, s, va, trapno);
      t := s.(eip := upcall, esp := u, mem := mem);
    }
    if ok { FitsAboveGap(s, writable); }
  }

  /** A frame that can be written, with an unwritable page below the exception stack, fits its page. */
  lemma FitsAboveGap(s: Machine, writable: int -> bool)
    requires Ok(s) && writable(FrameAt(s.esp))
    ensures (forall x | UXSTACKTOP - 2 * PGSIZE <= x < UXSTACKTOP - PGSIZE :: !writable(x)) ==> Fits(s)
  {
  }

  /** The stores that fill the frame. */
  method Lay(mem0: int -> int, u: int, w: seq<int>) returns (mem: int -> int)
    requires |w| == 13
    ensures Holds(mem, u, w) && forall x | !(u <= x < u + FRAME) :: mem(x) == mem0(x)
  {
    mem := mem0;
    for k := 0 to 13
      invariant forall i | 0 <= i < k :: mem(u + 4 * i) == w[i]
      invariant forall x | !(u <= x < u + FRAME) :: mem(x) == mem0(x)
    {
      mem := Put(mem, u + 4 * k, w[k]);
    }
  }

  /** The words lie in memory one after the other. */
  ghost predicate Holds(mem: int -> int, u: int, w: seq<int>) {
    && |w| == 13
    && mem(u + 4 * 0) == w[0] && mem(u + 4 * 1) == w[1] && mem(u + 4 * 2) == w[2] && mem(u + 4 * 3) == w[3]
    && mem(u + 4 * 4) == w[4] && mem(u + 4 * 5) == w[5] && mem(u + 4 * 6) == w[6] && mem(u + 4 * 7) == w[7]
    && mem(u + 4 * 8) == w[8] && mem(u + 4 * 9) == w[9] && mem(u + 4 * 10) == w[10] && mem(u + 4 * 11) == w[11]
    && mem(u + 4 * 12) == w[12]
  }

  lemma FrameLaid(mem: int -> int, u: int, s: Machine, va: int, trapno: int)
    requires Holds(mem, u, Words(s, va, trapno))
    ensures FrameOf(mem, u, s) && mem(u) == va && mem(u + 4) == trapno
  {
  }

  /** The upcall runs on a complete frame, and no word but the frame's changed. */
  ghost predicate Pushed(s: Machine, va: int, trapno: int, upcall: int, t: Machine) {
    && Ok(s) && t.esp == FrameAt(s.esp) && t.eip == upcall && t.regs == s.regs && t.eflags == s.eflags
    && FrameOf(t.mem, t.esp, s) && t.mem(t.esp) == va && t.mem(t.esp + 4) == trapno
    && (forall x | !(t.esp <= x < t.esp + FRAME) :: t.mem(x) == s.mem(x))
  }

  // ---------------------------------------------------------------- the return code

  /** The machine at the store of the return address: the saved stack pointer already makes room
      for one more word. */
  function Lowered(h: Machine, at: int, flags: int): Machine {
    var eax := h.mem(h.esp + 48) - 4;
    Machine(h.regs.(eax := eax, ebx := h.mem(h.esp + 40)), at, flags, h.esp, Put(h.mem, h.esp + 48, eax))
  }

  /** The machine after that store and the rest of the return code, with the stack pointer at the
      frame before it. */
  function Finished(m: Machine): Machine {
    var mem, u := Put(m.mem, m.regs.eax, m.regs.ebx), m.esp;
    Machine(Regs(mem(u + 8), mem(u + 12), mem(u + 16), mem(u + 24), mem(u + 28), mem(u + 32), mem(u + 36)),
            mem(mem(u + 48)), mem(u + 44), mem(u + 48) + 4, mem)
  }

  /** The end of _pgfault_upcall, instruction by instruction, with the stack pointer at the frame,
      when the store of the return address does not fault. */
  method Restore(s: Machine) returns (t: Machine)
    ensures t == Finished(Lowered(s, 0, 0))
    ensures !(s.esp <= s.mem(s.esp + 48) - 4 < s.esp + FRAME) ==> Restored(s, t)
    ensures s.mem(s.esp + 48) - 4 == s.esp + 48 ==> t.esp == s.mem(s.esp + 40) + 4
  {
    var mem, esp := s.mem, s.esp;
    // The saved stack pointer makes room for one more word.
    var eax := mem(esp + 48);
    eax := eax - 4;
    mem := Put(mem, esp + 48, eax);
    // The return address goes there.
    var ebx := mem(esp + 40);
    mem := Put(mem, eax, ebx);
    // Past the fault's address and error code, the general registers.
    esp := esp + 8;
    var regs := Regs(mem(esp), mem(esp + 4), mem(esp + 8), mem(esp + 16), mem(esp + 20), mem(esp + 24), mem(esp + 28));
    esp := esp + 32;
    // Past the instruction pointer, the flags.
    esp := esp + 4;
    var eflags := mem(esp);
    esp := esp + 4;
    // Over to the trap-time stack.
    esp := mem(esp);
    // And back to where the fault was.
    var eip := mem(esp);
    esp := esp + 4;
    t := Machine(regs, eip, eflags, esp, mem);
  }

  /** The frame's context is back; of memory only the word below its stack pointer, and the frame's
      own copy of that pointer, have been written. */
  ghost predicate Restored(s: Machine, t: Machine) {
    FrameOf(s.mem, s.esp, t) && forall x | x != t.esp - 4 && x != s.esp + 48 :: t.mem(x) == s.mem(x)
  }

  // ---------------------------------------------------------------- nested faults

  /** What a fault handler does, with the states it goes through: compute for a while, fault and
      be resumed, and so on to any depth.  The return code's own store may fault, too, and is then
      tried again. */
  datatype Doing =
    | Return
    | Compute(to: Machine, rest: Doing)
    | Fault(f: Frame, inner: Doing, retry: Doing, rest: Doing)

  /** One fault: what the kernel pushed and the states right after that, at the end of the handler,
      when the return code first tries its store, when that goes through, and at the end. */
  datatype Frame = Frame(va: int, trapno: int, upcall: int,
                         pushed: Machine, handled: Machine, store: Machine, ready: Machine, resumed: Machine)

  /** The words outside the exception stack's page that belong to `keep` are the same. */
  ghost predicate Leaves(keep: iset<int>, m: int -> int, m': int -> int) {
    forall x | x in keep && !InStackPage(x) :: m'(x) == m(x)
  }

  /** While it computes the handler uses the exception stack below its frame only, and leaves
      alone the other words that it should. */
  ghost predicate KeepsTo(s: Machine, t: Machine, base: int, keep: iset<int>) {
    Ok(t) && InStackPage(t.esp) && t.esp <= base && SameAbove(s.mem, t.mem, base) && Leaves(keep, s.mem, t.mem)
  }

  /** The handler, with its frame at base, goes from s to t. */
  ghost predicate Goes(d: Doing, s: Machine, base: int, keep: iset<int>, t: Machine)
    decreases d
  {
    match d
    case Return => t == s
    case Compute(to, rest) => KeepsTo(s, to, base, keep) && Goes(rest, to, base, keep, t)
    case Fault(f, inner, retry, rest) =>
      && FaultAt(s, f) && Goes(inner, f.pushed, f.pushed.esp, keep, f.handled)
      && OnlyFaults(retry) && Goes(retry, f.store, f.store.esp, keep, f.ready)
      && Goes(rest, f.resumed, base, keep, t)
  }

  /** One instruction that is tried again after each of its faults. */
  ghost predicate OnlyFaults(d: Doing) {
    d.Return? || (d.Fault? && OnlyFaults(d.rest))
  }

  /** A fault at s is taken, with a frame that fits, and returned from once the handler has come
      back with the stack pointer at its frame. */
  ghost predicate FaultAt(s: Machine, f: Frame) {
    && Pushed(s, f.va, f.trapno, f.upcall, f.pushed) && Fits(s) && f.handled.esp == f.pushed.esp
    && f.store == Lowered(f.handled, f.store.eip, f.store.eflags) && f.resumed == Finished(f.ready)
  }

  /** The whole of one fault: the handler goes through d, the return code's store through retry. */
  ghost predicate Handles(s: Machine, f: Frame, d: Doing, retry: Doing, keep: iset<int>) {
    && FaultAt(s, f) && Goes(d, f.pushed, f.pushed.esp, keep, f.handled)
    && OnlyFaults(retry) && Goes(retry, f.store, f.store.esp, keep, f.ready)
  }

  /** The interrupted context: everything that the faulting code can tell from its registers. */
  predicate SameContext(s: Machine, t: Machine) {
    t.regs == s.regs && t.eip == s.eip && t.eflags == s.eflags && t.esp == s.esp
  }

  /** The word for the return address lies outside the frame, unless the stack pointer was at the
      very top of the exception stack. */
  lemma SlotOutside(s: Machine, f: Frame)
    requires FaultAt(s, f)
    ensures var u := f.pushed.esp;
            if s.esp == UXSTACKTOP then s.esp - 4 == u + 48 else !(u <= s.esp - 4 < u + FRAME)
    ensures InStackPage(s.esp) ==> f.pushed.esp + FRAME == s.esp - 4
    ensures InStackPage(f.pushed.esp) && f.pushed.esp % 4 == 0 && f.pushed.esp + FRAME <= UXSTACKTOP
  {
  }

  /** The frame and the registers are as the return code's store finds them, on the way to s. */
  ghost predicate Ready(m: Machine, s: Machine) {
    m.regs.eax == s.esp - 4 && m.regs.ebx == s.eip && FrameOf(m.mem, m.esp, s.(esp := s.esp - 4))
  }

  /** The handler, and the faults of the store, left the frame alone. */
  ghost predicate FrameIntact(f: Frame) {
    && SameAbove(f.pushed.mem, f.handled.mem, f.pushed.esp)
    && SameContext(f.store, f.ready) && SameAbove(f.store.mem, f.ready.mem, f.store.esp)
  }

  /** What the return code does with a frame that is intact. */
  lemma FrameBringsBack(s: Machine, f: Frame)
    requires FaultAt(s, f) && FrameIntact(f)
    ensures Ready(f.ready, s)
    ensures s.esp != UXSTACKTOP ==> SameContext(s, f.resumed)
    ensures s.esp == UXSTACKTOP ==> f.resumed.esp == s.eip + 4
    ensures s.esp == UXSTACKTOP && s.eip == UXSTACKTOP - 4 ==> SameContext(s, f.resumed)
  {
    hide Finished;
    hide Fits;
    SlotOutside(s, f);
    FrameStays(f.pushed.mem, f.handled.mem, f.pushed.esp, s);
    assert Ready(f.store, s);
    FrameStays(f.store.mem, f.ready.mem, f.store.esp, s.(esp := s.esp - 4));
    ReturnsFrom(f.ready, s);
  }

  lemma FrameStays(m: int -> int, m': int -> int, u: int, s: Machine)
    requires FrameOf(m, u, s) && SameAbove(m, m', u) && InStackPage(u) && u + FRAME <= UXSTACKTOP
    ensures FrameOf(m', u, s)
  {
  }

  /** What the return code makes of a frame that says to return to s. */
  lemma ReturnsFrom(m: Machine, s: Machine)
    requires Ready(m, s)
    ensures !(m.esp <= s.esp - 4 < m.esp + FRAME) ==> SameContext(s, Finished(m))
    ensures s.esp - 4 == m.esp + 48 ==> Finished(m).esp == s.eip + 4
    ensures s.esp - 4 == m.esp + 48 == s.eip ==> SameContext(s, Finished(m))
  {
  }

  /** After the return nothing at or above the trap-time stack pointer differs, and elsewhere only
      the word below it. */
  lemma MemoryAfter(s: Machine, f: Frame, keep: iset<int>)
    requires FaultAt(s, f) && FrameIntact(f) && s.esp != UXSTACKTOP
    requires Leaves(keep, f.pushed.mem, f.handled.mem) && Leaves(keep, f.store.mem, f.ready.mem)
    ensures InStackPage(s.esp) ==> SameAbove(s.mem, f.resumed.mem, s.esp) && Leaves(keep, s.mem, f.resumed.mem)
    ensures forall x | x in keep && !InStackPage(x) && x != s.esp - 4 :: f.resumed.mem(x) == s.mem(x)
    ensures f.resumed.mem(s.esp - 4) == s.eip
  {
    SlotOutside(s, f);
    FrameBringsBack(s, f);
  }

  /** However deep the faults nest, a handler never disturbs its own frame or what lies above, nor
      what its own steps leave alone; and an instruction that does nothing but fault is tried again
      in the same context. */
  lemma {:induction false} GoesBelow(d: Doing, s: Machine, base: int, keep: iset<int>, t: Machine)
    requires Goes(d, s, base, keep, t) && Ok(s) && InStackPage(s.esp) && s.esp <= base < UXSTACKTOP
    ensures KeepsTo(s, t, base, keep) && (OnlyFaults(d) ==> SameContext(s, t))
    decreases d
  {
    match d
    case Return =>
    case Compute(to, rest) => GoesBelow(rest, to, base, keep, t);
    case Fault(f, inner, retry, rest) =>
      SlotOutside(s, f);
      GoesBelow(inner, f.pushed, f.pushed.esp, keep, f.handled);
      GoesBelow(retry, f.store, f.store.esp, keep, f.ready);
      FrameBringsBack(s, f);
      MemoryAfter(s, f, keep);
      GoesBelow(rest, f.resumed, base, keep, t);
  }

  lemma HandledIntact(s: Machine, f: Frame, d: Doing, retry: Doing, keep: iset<int>)
    requires Handles(s, f, d, retry, keep)
    ensures FrameIntact(f) && Leaves(keep, f.pushed.mem, f.handled.mem) && Leaves(keep, f.store.mem, f.ready.mem)
  {
    SlotOutside(s, f);
    GoesBelow(d, f.pushed, f.pushed.esp, keep, f.handled);
    GoesBelow(retry, f.store, f.store.esp, keep, f.ready);
  }

  /** Nested page-fault upcalls: a fault whose handler may itself fault, and whose return code may
      fault at its store, to any depth that fits the exception stack, returns to the trap-time
      registers, flags, stack pointer and instruction, exactly if the stack pointer was not at the
      very top of the exception stack.  (There the word for the return address is the frame's own
      stack pointer; the one instruction that is returned to all the same lies in that word.) */
  lemma UpcallReturnsIff(s: Machine, f: Frame, d: Doing, retry: Doing, keep: iset<int>)
    requires Handles(s, f, d, retry, keep)
    ensures SameContext(s, f.resumed) <==> s.esp != UXSTACKTOP || s.eip == UXSTACKTOP - 4
  {
    HandledIntact(s, f, d, retry, keep);
    FrameBringsBack(s, f);
  }

  /** The memory of the interrupted code: on the exception stack, all from its stack pointer up is
      untouched; elsewhere, all that the handlers' own steps leave alone, but for the word below
      the stack pointer, which holds the return address. */
  lemma UpcallKeepsMemory(s: Machine, f: Frame, d: Doing, retry: Doing, keep: iset<int>)
    requires Handles(s, f, d, retry, keep) && s.esp != UXSTACKTOP
    ensures InStackPage(s.esp) ==> SameAbove(s.mem, f.resumed.mem, s.esp)
    ensures forall x | x in keep && !InStackPage(x) :: f.resumed.mem(x) == if x == s.esp - 4 then s.eip else s.mem(x)
  {
    HandledIntact(s, f, d, retry, keep);
    MemoryAfter(s, f, keep);
  }

  /** A frame pushed while a handler runs lies wholly below that handler's own frame. */
  lemma FramesApart(d: Doing, s: Machine, base: int, keep: iset<int>, t: Machine, f: Frame)
    requires Goes(d, s, base, keep, t) && Ok(s) && InStackPage(s.esp) && s.esp <= base < UXSTACKTOP && FaultAt(t, f)
    ensures f.pushed.esp + FRAME < base
  {
    GoesBelow(d, s, base, keep, t);
  }

  /** With the stack pointer at the very top, even a handler that does nothing does not get back. */
  method Misled(s: Machine, va: int, trapno: int, upcall: int) returns (f: Frame)
    requires s.esp == UXSTACKTOP && s.eip != UXSTACKTOP - 4 && upcall != 0
    ensures Handles(s, f, Return, Return, iset{})
    ensures !SameContext(s, f.resumed) && f.resumed.esp == s.eip + 4
  {
    var ok, t := Push(s, va, trapno, upcall, x => true);
    var r := Restore(t);
    f := Frame(va, trapno, upcall, t, t, Lowered(t, 0, 0), Lowered(t, 0, 0), r);
    UpcallReturnsIff(s, f, Return, Return, iset{});
    FrameBringsBack(s, f);
  }
}
