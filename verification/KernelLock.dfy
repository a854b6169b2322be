/** The big kernel lock on any number of CPUs: trap entry, the spin lock's own loads and stores,
    scheduling, halting and waking up, interleaved in every possible way. */
module KernelLock {
  import opened EnvStatus

  /** Where a CPU goes when it has given up the lock. */
  datatype Place = ToUser | ToIdle

  /** Where a CPU is.  `Want(n)` is about to take the lock, n times; `Took(n)` has just done so
      and not yet recorded it.  `Drop` and `Dropped` are the two halves of spin_unlock. */
  datatype Pc =
    | User
    | Idle
    | Entry(fromUser: bool)
    | Want(n: nat, fromUser: bool)
    | Took(n: nat, fromUser: bool)
    | Arrived(fromUser: bool)
    | Kernel
    | Sched
    | Drop(next: Place)
    | Dropped(next: Place)

  /** A CPU: its program counter, curenv (-1 is NULL) and whether cpu_status is CPU_HALTED. */
  datatype Cpu = Cpu(pc: Pc, cur: int, halted: bool)

  /** kernel_lock.locked and .cpu (-1 is NULL), the CPUs, and per environment its status and
      env_ipc_recving. */
  datatype State = State(locked: bool, owner: int, cpus: seq<Cpu>, status: seq<Status>, recving: seq<bool>)

  predicate Shape(s: State) {
    |s.status| == |s.recving| && forall c | 0 <= c < |s.cpus| :: -1 <= s.cpus[c].cur < |s.status|
  }

  function SetCpu(s: State, c: nat, x: Cpu): State
    requires c < |s.cpus|
  {
    s.(cpus := s.cpus[c := x])
  }

  function SetPc(s: State, c: nat, pc: Pc): State
    requires c < |s.cpus|
  {
    SetCpu(s, c, s.cpus[c].(pc := pc))
  }

  function SetStatus(s: State, e: nat, st: Status): State
    requires e < |s.status|
  {
    s.(status := s.status[e := st])
  }

  /** holding(&kernel_lock) on CPU c. */
  predicate Holding(s: State, c: nat) {
    s.locked && s.owner == c
  }

  /** The code between taking the lock and the exchange that gives it up. */
  predicate Inside(pc: Pc) {
    pc.Took? || pc.Arrived? || pc.Kernel? || pc.Sched? || pc.Drop? || pc.Dropped?
  }

  // ---------------------------------------------------------------- steps

  /** What a CPU can do next. */
  datatype Act =
    | Trap            // an interrupt, exception or system call in user mode, or an interrupt in the halt loop
    | Exchange        // trap's exchange on cpu_status
    | Acquire         // spin_lock's exchange, when the lock is free
    | Record          // lk->cpu = thiscpu
    | Collect         // trap's check for a zombie
    | Alloc(e: nat, runnable: bool)
    | SysSetStatus(e: nat, st: Status)
    | SysRecv
    | SysSend(e: nat)
    | SysDestroy(e: nat)
    | Yield
    | Return          // the end of trap
    | Pick(e: nat)    // sched_yield finds a runnable environment
    | Stay            // sched_yield keeps the current one
    | Halt            // sched_halt
    | Forget          // spin_unlock clears lk->cpu
    | Release         // spin_unlock's exchange

  /** env_run. */
  function Run(s: State, c: nat, e: nat): State
    requires Shape(s) && c < |s.cpus| && e < |s.status|
  {
    var cur := s.cpus[c].cur;
    var s1 := if cur >= 0 && s.status[cur] == RUNNING then SetStatus(s, cur, RUNNABLE) else s;
    SetCpu(SetStatus(s1, e, RUNNING), c, Cpu(Drop(ToUser), e, s.cpus[c].halted))
  }

  predicate Enabled(s: State, c: nat, a: Act)
    requires Shape(s) && c < |s.cpus|
  {
    var x := s.cpus[c];
    match a
    case Trap => x.pc.User? || x.pc.Idle?
    case Exchange => x.pc.Entry?
    case Acquire => x.pc.Want? && !s.locked
    case Record => x.pc.Took?
    case Collect => x.pc.Arrived? && (x.pc.fromUser ==> x.cur >= 0)
    case Alloc(e, _) => x.pc.Kernel? && e < |s.status| && s.status[e] == FREE
    case SysSetStatus(e, st) =>
      && x.pc.Kernel? && x.cur >= 0 && e < |s.status| && s.status[e] != FREE
      && (st == RUNNABLE || st == NOT_RUNNABLE)
    case SysRecv => x.pc.Kernel? && x.cur >= 0
    case SysSend(e) => x.pc.Kernel? && x.cur >= 0 && e < |s.status| && s.status[e] != FREE && s.recving[e]
    case SysDestroy(e) => x.pc.Kernel? && x.cur >= 0 && e < |s.status| && s.status[e] != FREE
    case Yield => x.pc.Kernel?
    case Return => x.pc.Kernel?
    case Pick(e) => x.pc.Sched? && e < |s.status| && s.status[e] == RUNNABLE
    case Stay =>
      && x.pc.Sched? && x.cur >= 0 && s.status[x.cur] == RUNNING
      && (forall e | 0 <= e < |s.status| :: s.status[e] != RUNNABLE)
    case Halt =>
      && x.pc.Sched? && !(x.cur >= 0 && s.status[x.cur] == RUNNING)
      && (forall e | 0 <= e < |s.status| :: s.status[e] != RUNNABLE)
    case Forget => x.pc.Drop?
    case Release => x.pc.Dropped?
  }

  /** The state after the step. */
  function Next(s: State, c: nat, a: Act): State
    requires Shape(s) && c < |s.cpus| && Enabled(s, c, a)
  {
    var x := s.cpus[c];
    match a
    case Trap => SetPc(s, c, Entry(x.pc.User?))
    case Exchange =>
      // One lock_kernel for a halted CPU, one for a trap from user mode.
      var n := (if x.halted then 1 else 0) + if x.pc.fromUser then 1 else 0;
      SetCpu(s, c, Cpu(if n == 0 then Arrived(x.pc.fromUser) else Want(n, x.pc.fromUser), x.cur, false))
    case Acquire => SetPc(s.(locked := true), c, Took(x.pc.n, x.pc.fromUser))
    case Record =>
      var pc := if x.pc.n > 1 then Want(x.pc.n - 1, x.pc.fromUser) else Arrived(x.pc.fromUser);
      SetPc(s.(owner := c), c, pc)
    case Collect =>
      if x.pc.fromUser && s.status[x.cur] == DYING then SetCpu(SetStatus(s, x.cur, FREE), c, Cpu(Sched, -1, x.halted))
      else SetPc(s, c, Kernel)
    case Alloc(e, runnable) =>
      var st := if runnable then RUNNABLE else NOT_RUNNABLE;
      SetStatus(s, e, st).(recving := s.recving[e := false])
    case SysSetStatus(e, st) => SetStatus(s, e, st)
    case SysRecv => SetPc(SetStatus(s, x.cur, NOT_RUNNABLE).(recving := s.recving[x.cur := true]), c, Sched)
    case SysSend(e) => SetStatus(s, e, RUNNABLE).(recving := s.recving[e := false])
    case SysDestroy(e) =>
      if s.status[e] == RUNNING && e != x.cur then SetStatus(s, e, DYING)
      else if e == x.cur then SetCpu(SetStatus(s, e, FREE), c, Cpu(Sched, -1, x.halted))
      else SetStatus(s, e, FREE)
    case Yield => SetPc(s, c, Sched)
    case Return => if x.cur >= 0 && s.status[x.cur] == RUNNING then Run(s, c, x.cur) else SetPc(s, c, Sched)
    case Pick(e) => Run(s, c, e)
    case Stay => Run(s, c, x.cur)
    case Halt => SetCpu(s, c, Cpu(Drop(ToIdle), -1, true))
    case Forget => SetPc(s.(owner := -1), c, Dropped(x.pc.next))
    case Release => SetPc(s.(locked := false), c, if x.pc.next == ToUser then User else Idle)
  }

  /** The guard that the code leaves to its callers: a status is set only of the caller itself
      or of an environment that is neither on a CPU nor waiting for a message, and no
      environment is destroyed twice. */
  predicate Guarded(s: State, c: nat, a: Act)
    requires Shape(s) && c < |s.cpus| && Enabled(s, c, a)
  {
    match a
    case SysSetStatus(e, st) => e == s.cpus[c].cur || (s.status[e] != RUNNING && s.status[e] != DYING && !s.recving[e])
    case SysDestroy(e) => s.status[e] != DYING
    case _ => true
  }

  // ---------------------------------------------------------------- what every step keeps

  /** What a CPU's own state says, wherever it is. */
  predicate CpuOk(s: State, c: nat)
    requires Shape(s) && c < |s.cpus|
  {
    var x := s.cpus[c];
    match x.pc
    case User => !x.halted && x.cur >= 0
    case Idle => x.halted && x.cur < 0
    case Entry(u) => if u then !x.halted && x.cur >= 0 else x.halted && x.cur < 0
    case Want(n, u) => n == 1 && !x.halted && (u <==> x.cur >= 0)
    case Took(n, u) => n == 1 && !x.halted && (u <==> x.cur >= 0)
    case Arrived(u) => !x.halted && (u <==> x.cur >= 0)
    case Kernel => !x.halted
    case Sched => !x.halted
    case Drop(p) => if p == ToUser then !x.halted && x.cur >= 0 else x.halted && x.cur < 0
    case Dropped(p) => if p == ToUser then !x.halted && x.cur >= 0 else x.halted && x.cur < 0
  }

  /** Is the CPU's current environment RUNNING or DYING, as it must be except in the middle of
      a system call? */
  predicate Settled(pc: Pc) {
    !pc.Kernel? && !pc.Sched?
  }

  /** The lock: held exactly when one CPU is inside the kernel, and recorded as that CPU's. */
  ghost predicate LockOk(s: State) {
    && (s.locked <==> exists c :: 0 <= c < |s.cpus| && Inside(s.cpus[c].pc))
    && (forall c, c' | 0 <= c < |s.cpus| && 0 <= c' < |s.cpus| && Inside(s.cpus[c].pc) && Inside(s.cpus[c'].pc) ::
          c == c')
    && (forall c | 0 <= c < |s.cpus| && Inside(s.cpus[c].pc) ::
          s.owner == if s.cpus[c].pc.Took? || s.cpus[c].pc.Dropped? then -1 else c)
    && (!s.locked ==> s.owner == -1)
  }

  /** No two CPUs have the same current environment. */
  ghost predicate NoSharing(s: State) {
    forall c, c' | 0 <= c < |s.cpus| && 0 <= c' < |s.cpus| && c != c' && s.cpus[c].cur >= 0 ::
      s.cpus[c].cur != s.cpus[c'].cur
  }

  ghost predicate OnCpu(s: State, e: nat) {
    exists c :: 0 <= c < |s.cpus| && s.cpus[c].cur == e
  }

  /** What the status of a CPU's current environment may be. */
  predicate CurOk(s: State, c: nat)
    requires Shape(s) && c < |s.cpus|
  {
    var x := s.cpus[c];
    x.cur >= 0 ==>
      && (Settled(x.pc) ==> s.status[x.cur] == RUNNING || s.status[x.cur] == DYING)
      && (!Settled(x.pc) ==> s.status[x.cur] != DYING && s.status[x.cur] != FREE)
      && (x.pc.Kernel? ==> !s.recving[x.cur])
  }

  predicate WaitOk(s: State, e: nat)
    requires Shape(s) && e < |s.status|
  {
    s.recving[e] ==> s.status[e] == NOT_RUNNABLE || s.status[e] == FREE
  }

  /** The environments that are RUNNING or DYING are current ones, and outside the kernel the
      other way round as well; only one that is not runnable waits for a message. */
  ghost predicate EnvsOk(s: State)
    requires Shape(s)
  {
    && (forall c | 0 <= c < |s.cpus| :: CurOk(s, c))
    && (forall e | 0 <= e < |s.status| && (s.status[e] == RUNNING || s.status[e] == DYING) :: OnCpu(s, e))
    && (forall e | 0 <= e < |s.status| :: WaitOk(s, e))
  }

  ghost predicate Inv(s: State) {
    Shape(s) && (forall c | 0 <= c < |s.cpus| :: CpuOk(s, c)) && LockOk(s) && NoSharing(s) && EnvsOk(s)
  }

  lemma NextShape(s: State, c: nat, a: Act)
    requires Shape(s) && c < |s.cpus| && Enabled(s, c, a)
    ensures Shape(Next(s, c, a))
    ensures |Next(s, c, a).cpus| == |s.cpus| && |Next(s, c, a).status| == |s.status|
    ensures forall k | 0 <= k < |s.cpus| && k != c :: Next(s, c, a).cpus[k] == s.cpus[k]
  {
    var s' := Next(s, c, a);
    assert s'.cpus == s.cpus[c := s'.cpus[c]];
  }

  lemma NextCpu(s: State, c: nat, a: Act)
    requires Shape(s) && c < |s.cpus| && Enabled(s, c, a) && CpuOk(s, c)
    ensures Shape(Next(s, c, a)) && c < |Next(s, c, a).cpus| && CpuOk(Next(s, c, a), c)
  {
    NextShape(s, c, a);
  }

  lemma StepCpus(s: State, c: nat, a: Act)
    requires Inv(s) && c < |s.cpus| && Enabled(s, c, a)
    ensures Shape(Next(s, c, a)) && (forall k | 0 <= k < |s.cpus| :: CpuOk(Next(s, c, a), k))
    ensures |Next(s, c, a).cpus| == |s.cpus| && |Next(s, c, a).status| == |s.status|
    ensures forall k | 0 <= k < |s.cpus| && k != c :: Next(s, c, a).cpus[k] == s.cpus[k]
  {
    hide LockOk;
    hide NoSharing;
    hide EnvsOk;
    NextShape(s, c, a);
    NextCpu(s, c, a);
    hide Next;
    forall k | 0 <= k < |s.cpus| && k != c ensures CpuOk(Next(s, c, a), k) {
      assert CpuOk(s, k);
    }
  }

  /** While one CPU is inside, every other one is outside the kernel. */
  lemma Alone(s: State, c: nat)
    requires Inv(s) && c < |s.cpus| && Inside(s.cpus[c].pc)
    ensures s.locked && forall k | 0 <= k < |s.cpus| && k != c :: !Inside(s.cpus[k].pc) && Settled(s.cpus[k].pc)
  {
  }

  /** A step that stays on its side of the lock. */
  lemma SameSide(s: State, s': State, c: nat)
    requires Inv(s) && Shape(s') && c < |s.cpus| == |s'.cpus|
    requires forall k | 0 <= k < |s.cpus| && k != c :: s'.cpus[k] == s.cpus[k]
    requires Inside(s'.cpus[c].pc) <==> Inside(s.cpus[c].pc)
    requires s'.locked == s.locked
    requires Inside(s.cpus[c].pc) ==> s'.owner == if s'.cpus[c].pc.Took? || s'.cpus[c].pc.Dropped? then -1 else c
    requires !Inside(s.cpus[c].pc) ==> s'.owner == s.owner
    ensures LockOk(s')
  {
    if s.locked {
      var h :| 0 <= h < |s.cpus| && Inside(s.cpus[h].pc);
      assert Inside(s'.cpus[h].pc);
    }
  }

  lemma StepLock(s: State, c: nat, a: Act)
    requires Inv(s) && c < |s.cpus| && Enabled(s, c, a)
    ensures LockOk(Next(s, c, a))
  {
    StepCpus(s, c, a);
    var s' := Next(s, c, a);
    assert CpuOk(s, c);
    if a.Acquire? {
      assert Inside(s'.cpus[c].pc);
    } else if a.Release? {
      Alone(s, c);
    } else {
      SameSide(s, s', c);
    }
  }

  lemma StepSharing(s: State, c: nat, a: Act)
    requires Inv(s) && c < |s.cpus| && Enabled(s, c, a)
    ensures NoSharing(Next(s, c, a))
  {
    hide LockOk;
    hide OnCpu;
    NextShape(s, c, a);
    if Inside(s.cpus[c].pc) { Alone(s, c); }
    var s' := Next(s, c, a);
    forall k | 0 <= k < |s.cpus| && k != c ensures s'.cpus[c].cur < 0 || s'.cpus[k].cur != s'.cpus[c].cur {
      assert CurOk(s, k);
    }
  }

  lemma StepOwn(s: State, c: nat, a: Act)
    requires Inv(s) && c < |s.cpus| && Enabled(s, c, a) && Guarded(s, c, a)
    ensures Shape(Next(s, c, a)) && c < |Next(s, c, a).cpus| && CurOk(Next(s, c, a), c)
  {
    hide LockOk;
    hide NoSharing;
    hide OnCpu;
    NextShape(s, c, a);
    assert CpuOk(s, c) && CurOk(s, c);
    if a.Pick? { assert WaitOk(s, a.e); }
    if s.cpus[c].cur >= 0 { assert WaitOk(s, s.cpus[c].cur); }
  }

  lemma StepOther(s: State, c: nat, a: Act, k: nat)
    requires Inv(s) && c < |s.cpus| && Enabled(s, c, a) && Guarded(s, c, a) && k < |s.cpus| && k != c
    ensures Shape(Next(s, c, a)) && k < |Next(s, c, a).cpus| && CurOk(Next(s, c, a), k)
  {
    hide LockOk;
    hide OnCpu;
    NextShape(s, c, a);
    if Inside(s.cpus[c].pc) { Alone(s, c); }
    assert CpuOk(s, c) && CurOk(s, k);
    assert a.SysSend? ==> WaitOk(s, a.e);
  }

  lemma StepWait(s: State, c: nat, a: Act, e: nat)
    requires Inv(s) && c < |s.cpus| && Enabled(s, c, a) && Guarded(s, c, a) && e < |s.status|
    ensures Shape(Next(s, c, a)) && e < |Next(s, c, a).status| && WaitOk(Next(s, c, a), e)
  {
    hide LockOk;
    hide OnCpu;
    NextShape(s, c, a);
    assert WaitOk(s, e) && CurOk(s, c);
    assert a.Pick? ==> WaitOk(s, a.e);
  }

  lemma StepEnvs(s: State, c: nat, a: Act)
    requires Inv(s) && c < |s.cpus| && Enabled(s, c, a) && Guarded(s, c, a)
    ensures Shape(Next(s, c, a)) && EnvsOk(Next(s, c, a))
  {
    hide Inv;
    hide OnCpu;
    hide Next;
    InvShape(s);
    NextShape(s, c, a);
    StepOwn(s, c, a);
    forall k | 0 <= k < |s.cpus| ensures CurOk(Next(s, c, a), k) {
      if k != c { StepOther(s, c, a, k); }
    }
    forall e | 0 <= e < |s.status| ensures WaitOk(Next(s, c, a), e) { StepWait(s, c, a, e); }
    StepOnCpu(s, c, a);
  }

  lemma InvShape(s: State)
    requires Inv(s)
    ensures Shape(s)
  {
  }

  lemma StepOnCpu(s: State, c: nat, a: Act)
    requires Inv(s) && c < |s.cpus| && Enabled(s, c, a) && Guarded(s, c, a)
    ensures var s' := Next(s, c, a);
            forall e | 0 <= e < |s'.status| && (s'.status[e] == RUNNING || s'.status[e] == DYING) :: OnCpu(s', e)
  {
    hide LockOk;
    hide NoSharing;
    NextShape(s, c, a);
    var s' := Next(s, c, a);
    assert CpuOk(s, c) && CurOk(s, c);
    forall e | 0 <= e < |s'.status| && (s'.status[e] == RUNNING || s'.status[e] == DYING) ensures OnCpu(s', e) {
      if s'.cpus[c].cur != e {
        assert OnCpu(s, e);
        var k :| 0 <= k < |s.cpus| && s.cpus[k].cur == e;
        assert k != c ==> s'.cpus[k].cur == e;
      }
    }
  }

  /** Every step keeps the invariant. */
  lemma StepInv(s: State, c: nat, a: Act)
    requires Inv(s) && c < |s.cpus| && Enabled(s, c, a) && Guarded(s, c, a)
    ensures Inv(Next(s, c, a))
  {
    StepCpus(s, c, a);
    StepLock(s, c, a);
    StepSharing(s, c, a);
    StepEnvs(s, c, a);
  }

  // ---------------------------------------------------------------- runs

  datatype Step = Step(c: nat, a: Act)

  /** Can the steps be taken one after the other? */
  predicate Possible(s: State, steps: seq<Step>)
    decreases |steps|
  {
    steps == [] ||
    (&& Shape(s) && steps[0].c < |s.cpus| && Enabled(s, steps[0].c, steps[0].a)
     && Possible(Next(s, steps[0].c, steps[0].a), steps[1..]))
  }

  predicate AllGuarded(s: State, steps: seq<Step>)
    requires Possible(s, steps)
    decreases |steps|
  {
    steps == [] || (Guarded(s, steps[0].c, steps[0].a) && AllGuarded(Next(s, steps[0].c, steps[0].a), steps[1..]))
  }

  function After(s: State, steps: seq<Step>): State
    requires Possible(s, steps)
    decreases |steps|
  {
    if steps == [] then s else After(Next(s, steps[0].c, steps[0].a), steps[1..])
  }

  // ---------------------------------------------------------------- who can run

  /** The environment runs, or will when a CPU picks it. */
  predicate Ready(s: State, e: nat) {
    e < |s.status| && (s.status[e] == RUNNABLE || s.status[e] == RUNNING)
  }

  /** It waits, and is on nobody's list. */
  predicate Parked(s: State, e: nat) {
    e < |s.status| && s.status[e] == NOT_RUNNABLE
  }

  /** The step sets the environment's status or destroys it. */
  predicate Concerns(a: Act, e: nat) {
    (a.SysSetStatus? || a.SysDestroy?) && a.e == e
  }

  /** It is the environment's own wait for a message. */
  predicate Waits(s: State, c: nat, a: Act, e: nat)
    requires c < |s.cpus|
  {
    a.SysRecv? && s.cpus[c].cur == e
  }

  /** Losing the CPU costs nothing: an environment that can run can still run after every step,
      unless it waits for a message itself or the step sets its status or destroys it. */
  lemma StaysReady(s: State, c: nat, a: Act, e: nat)
    requires Inv(s) && c < |s.cpus| && Enabled(s, c, a) && Ready(s, e) && !Concerns(a, e)
    ensures Ready(Next(s, c, a), e) <==> !Waits(s, c, a, e)
    ensures Waits(s, c, a, e) ==> Parked(Next(s, c, a), e) && Next(s, c, a).recving[e]
  {
    assert CpuOk(s, c) && CurOk(s, c) && WaitOk(s, e);
  }

  /** One that waits goes on waiting until a message comes. */
  lemma StaysParked(s: State, c: nat, a: Act, e: nat)
    requires Inv(s) && c < |s.cpus| && Enabled(s, c, a) && Parked(s, e) && !Concerns(a, e)
    ensures if a == SysSend(e) then Next(s, c, a).status[e] == RUNNABLE && !Next(s, c, a).recving[e]
            else Parked(Next(s, c, a), e) && (s.recving[e] ==> Next(s, c, a).recving[e])
  {
    assert CpuOk(s, c) && CurOk(s, c);
  }

  /** A context switch: the environment picked runs on this CPU, and the one that ran there before
      is runnable again; nobody else is concerned. */
  lemma PickSwaps(s: State, c: nat, e: nat, d: nat)
    requires Inv(s) && c < |s.cpus| && Enabled(s, c, Pick(e)) && d < |s.status|
    ensures var s' := Next(s, c, Pick(e));
            && s'.cpus[c].cur == e && s'.status[e] == RUNNING
            && (d != e ==>
                  s'.status[d] == if d == s.cpus[c].cur && s.status[d] == RUNNING then RUNNABLE else s.status[d])
  {
  }

  /** A CPU halts, or goes on with what it has, only if nobody is waiting to run; and it does not halt
      while its own environment can go on. */
  lemma IdleOnlyIfNobodyReady(s: State, c: nat, a: Act)
    requires Inv(s) && c < |s.cpus| && Enabled(s, c, a) && (a.Halt? || a.Stay?)
    ensures forall e | 0 <= e < |s.status| :: s.status[e] != RUNNABLE
    ensures a.Halt? ==> forall e | 0 <= e < |s.status| && s.status[e] == RUNNING :: s.cpus[c].cur != e && OnCpu(s, e)
    ensures a.Stay? ==> Next(s, c, a).status == s.status && Next(s, c, a).cpus[c].cur == s.cpus[c].cur
  {
  }

  /** What the kernel is asked to do it does: a status is set, a new environment is as wanted, one
      that is destroyed is gone or will be collected, a zombie is collected when it traps, and a trap
      of an environment that still runs returns to it. */
  lemma TakesEffect(s: State, c: nat, a: Act)
    requires Inv(s) && c < |s.cpus| && Enabled(s, c, a)
    ensures var s', cur := Next(s, c, a), s.cpus[c].cur;
            && (a.SysSetStatus? ==> s'.status[a.e] == a.st)
            && (a.Alloc? ==> s'.status[a.e] == (if a.runnable then RUNNABLE else NOT_RUNNABLE) && !s'.recving[a.e])
            && (a.SysDestroy? ==> s'.status[a.e] == FREE || (s'.status[a.e] == DYING && a.e != cur))
            && (a.SysDestroy? && a.e == cur ==> s'.cpus[c].cur == -1)
            && (a.Collect? && cur >= 0 && s.status[cur] == DYING ==> s'.status[cur] == FREE && s'.cpus[c].cur == -1)
            && (a.Return? && cur >= 0 && s.status[cur] == RUNNING ==>
                  s'.cpus[c].cur == cur && s'.cpus[c].pc == Drop(ToUser) && s'.status == s.status)
  {
    assert CpuOk(s, c) && CurOk(s, c);
  }

  /** None of the steps concerns the environment, and it does not wait. */
  predicate LeftAlone(s: State, steps: seq<Step>, e: nat)
    requires Possible(s, steps)
    decreases |steps|
  {
    steps == [] ||
    (&& !Concerns(steps[0].a, e) && !Waits(s, steps[0].c, steps[0].a, e) && steps[0].a != SysSend(e)
     && LeftAlone(Next(s, steps[0].c, steps[0].a), steps[1..], e))
  }

  /** Over every run: an environment that can run can still run at the end, and one that waits still
      waits, unless it asked for something else or something else was asked for it. */
  lemma {:induction false} ReadyOverRuns(s: State, steps: seq<Step>, e: nat)
    requires Inv(s) && Possible(s, steps) && AllGuarded(s, steps) && LeftAlone(s, steps, e)
    ensures Ready(s, e) ==> Ready(After(s, steps), e)
    ensures Parked(s, e) ==> Parked(After(s, steps), e)
    decreases |steps|
  {
    if steps != [] {
      var c, a := steps[0].c, steps[0].a;
      StepInv(s, c, a);
      if Ready(s, e) { StaysReady(s, c, a, e); }
      if Parked(s, e) { StaysParked(s, c, a, e); }
      ReadyOverRuns(Next(s, c, a), steps[1..], e);
    }
  }

  /** Which way the status of an environment can go at all, and by which step. */
  lemma Lifecycle(s: State, c: nat, a: Act, e: nat)
    requires Inv(s) && c < |s.cpus| && Enabled(s, c, a) && e < |s.status|
    ensures var st, st' := s.status[e], Next(s, c, a).status[e];
            st' != st ==>
              match st
              case FREE => a.Alloc? && a.e == e && st' == if a.runnable then RUNNABLE else NOT_RUNNABLE
              case RUNNABLE =>
                if st' == RUNNING then a == Pick(e)
                else if st' == FREE then a == SysDestroy(e)
                else st' == NOT_RUNNABLE && (Waits(s, c, a, e) || a == SysSetStatus(e, st'))
              case RUNNING =>
                if st' == RUNNABLE then (a.Pick? && a.e != e && s.cpus[c].cur == e) || a == SysSetStatus(e, st')
                else if st' == NOT_RUNNABLE then Waits(s, c, a, e) || a == SysSetStatus(e, st')
                else a == SysDestroy(e) && st' == if s.cpus[c].cur == e then FREE else DYING
              case NOT_RUNNABLE =>
                if st' == FREE then a == SysDestroy(e)
                else st' == RUNNABLE && (a == SysSend(e) || a == SysSetStatus(e, st'))
              case DYING =>
                if st' == FREE then a == SysDestroy(e) || (a.Collect? && s.cpus[c].cur == e)
                else a == SysSetStatus(e, st')
  {
    assert CpuOk(s, c) && CurOk(s, c) && WaitOk(s, e);
  }

  /** CPU 0 has the lock and boots the others, which will ask for it. */
  function Start(ncpu: nat, nenv: nat): State
    requires ncpu > 0
  {
    State(true, 0, seq(ncpu, c => Cpu(if c == 0 then Kernel else Want(1, false), -1, false)),
          seq(nenv, _ => FREE), seq(nenv, _ => false))
  }

  lemma StartInv(ncpu: nat, nenv: nat)
    requires ncpu > 0
    ensures Inv(Start(ncpu, nenv))
  {
    assert Inside(Start(ncpu, nenv).cpus[0].pc);
  }

  lemma {:induction false} RunInv(s: State, steps: seq<Step>)
    requires Inv(s) && Possible(s, steps) && AllGuarded(s, steps)
    ensures Inv(After(s, steps))
    decreases |steps|
  {
    if steps != [] {
      StepInv(s, steps[0].c, steps[0].a);
      RunInv(Next(s, steps[0].c, steps[0].a), steps[1..]);
    }
  }

  /** Mutual exclusion, whatever the number of CPUs and however their steps interleave: the lock
      is held exactly when one CPU is inside the kernel; the CPU that releases it is the one
      that holds it, and no CPU asks for it twice, so that neither check of the spin lock can
      fail; and no two CPUs run the same environment. */
  lemma MutualExclusion(ncpu: nat, nenv: nat, steps: seq<Step>)
    requires ncpu > 0 && Possible(Start(ncpu, nenv), steps) && AllGuarded(Start(ncpu, nenv), steps)
    ensures var s := After(Start(ncpu, nenv), steps);
            && (s.locked <==> exists c :: 0 <= c < |s.cpus| && Inside(s.cpus[c].pc))
            && (forall c, c' | 0 <= c < |s.cpus| && 0 <= c' < |s.cpus|
                               && Inside(s.cpus[c].pc) && Inside(s.cpus[c'].pc) :: c == c')
            && (forall c | 0 <= c < |s.cpus| && s.cpus[c].pc.Drop? :: Holding(s, c))
            && (forall c | 0 <= c < |s.cpus| && s.cpus[c].pc.Want? :: !Holding(s, c))
            && NoSharing(s)
  {
    StartInv(ncpu, nenv);
    RunInv(Start(ncpu, nenv), steps);
  }

  // ---------------------------------------------------------------- the guard is exact

  /** If the status of an environment on another CPU is set, the two CPUs can come to share it. */
  lemma SetStatusShares(s: State, c: nat, e: nat)
    requires Inv(s) && c < |s.cpus| && s.cpus[c].pc.Kernel? && s.cpus[c].cur >= 0
    requires e < |s.status| && e != s.cpus[c].cur && (s.status[e] == RUNNING || s.status[e] == DYING)
    ensures var steps := [Step(c, SysSetStatus(e, RUNNABLE)), Step(c, Yield), Step(c, Pick(e))];
            Possible(s, steps) && !NoSharing(After(s, steps))
  {
    hide Possible;
    hide After;
    hide Inv;
    InvShape(s);
    var k := OnAnotherCpu(s, c, e);
    var steps := [Step(c, SysSetStatus(e, RUNNABLE)), Step(c, Yield), Step(c, Pick(e))];
    var s1 := Next(s, c, SysSetStatus(e, RUNNABLE));
    Picks(s1, c, e);
    var s2 := Next(s1, c, Yield);
    var s3 := Next(s2, c, Pick(e));
    Three(s, s1, s2, s3, steps);
    assert s3.cpus[c].cur == e && s3.cpus[k].cur == e;
  }

  lemma OnAnotherCpu(s: State, c: nat, e: nat) returns (k: nat)
    requires Inv(s) && c < |s.cpus| && e < |s.status| && e != s.cpus[c].cur
    requires s.status[e] == RUNNING || s.status[e] == DYING
    ensures k < |s.cpus| && k != c && s.cpus[k].cur == e
  {
    assert OnCpu(s, e);
    k :| 0 <= k < |s.cpus| && s.cpus[k].cur == e;
  }

  lemma Three(s: State, s1: State, s2: State, s3: State, steps: seq<Step>)
    requires |steps| == 3
    requires Shape(s) && steps[0].c < |s.cpus| && Enabled(s, steps[0].c, steps[0].a)
    requires s1 == Next(s, steps[0].c, steps[0].a)
    requires Shape(s1) && steps[1].c < |s1.cpus| && Enabled(s1, steps[1].c, steps[1].a)
    requires s2 == Next(s1, steps[1].c, steps[1].a)
    requires Shape(s2) && steps[2].c < |s2.cpus| && Enabled(s2, steps[2].c, steps[2].a)
    requires s3 == Next(s2, steps[2].c, steps[2].a)
    ensures Possible(s, steps) && After(s, steps) == s3
  {
    assert steps[1..][1..] == steps[2..];
    assert steps[2..][1..] == [];
    assert Possible(s3, []) && After(s3, []) == s3;
    assert Possible(s2, steps[2..]) && After(s2, steps[2..]) == s3;
    assert Possible(s1, steps[1..]) && After(s1, steps[1..]) == s3;
  }

  /** If an environment is destroyed a second time before its CPU has noticed the first, its
      slot can be given to a new environment that the two CPUs come to share. */
  lemma DestroyTwiceShares(s: State, c: nat, e: nat)
    requires Inv(s) && c < |s.cpus| && s.cpus[c].pc.Kernel? && s.cpus[c].cur >= 0 && e < |s.status|
    requires s.status[e] == DYING
    ensures Enabled(s, c, SysDestroy(e))
    ensures var s1, steps := Next(s, c, SysDestroy(e)), [Step(c, Alloc(e, true)), Step(c, Yield), Step(c, Pick(e))];
            Possible(s1, steps) && !NoSharing(After(s1, steps))
  {
    hide Possible;
    hide After;
    hide Inv;
    NotDyingItself(s, c);
    var k := OnAnotherCpu(s, c, e);
    FreedOnCpu(s, c, k, e);
    ReuseShares(Next(s, c, SysDestroy(e)), c, k, e);
  }

  lemma FreedOnCpu(s: State, c: nat, k: nat, e: nat)
    requires Shape(s) && c < |s.cpus| && s.cpus[c].pc.Kernel? && s.cpus[c].cur >= 0 && e < |s.status|
    requires s.status[e] == DYING
    requires k < |s.cpus| && k != c && s.cpus[k].cur == e && s.cpus[c].cur != e
    ensures Enabled(s, c, SysDestroy(e))
    ensures var t := Next(s, c, SysDestroy(e)); Shape(t) && t.cpus == s.cpus && e < |t.status| && t.status[e] == FREE
  {
  }

  /** An environment that is freed while on a CPU can be allocated again and picked by another. */
  lemma ReuseShares(s: State, c: nat, k: nat, e: nat)
    requires Shape(s) && c < |s.cpus| && k < |s.cpus| && k != c && s.cpus[c].pc.Kernel? && e < |s.status|
    requires s.status[e] == FREE && s.cpus[k].cur == e
    ensures var steps := [Step(c, Alloc(e, true)), Step(c, Yield), Step(c, Pick(e))];
            Possible(s, steps) && !NoSharing(After(s, steps))
  {
    hide Possible;
    hide After;
    var s1, steps := Next(s, c, Alloc(e, true)), [Step(c, Alloc(e, true)), Step(c, Yield), Step(c, Pick(e))];
    Picks(s1, c, e);
    var s2 := Next(s1, c, Yield);
    var s3 := Next(s2, c, Pick(e));
    Three(s, s1, s2, s3, steps);
    assert s3.cpus[c].cur == e && s3.cpus[k].cur == e;
  }

  /** A runnable environment is picked by a CPU that yields. */
  lemma Picks(s: State, c: nat, e: nat)
    requires Shape(s) && c < |s.cpus| && s.cpus[c].pc.Kernel? && e < |s.status| && s.status[e] == RUNNABLE
    ensures Enabled(s, c, Yield) && Shape(Next(s, c, Yield)) && c < |Next(s, c, Yield).cpus|
    ensures Enabled(Next(s, c, Yield), c, Pick(e))
    ensures var t := Next(Next(s, c, Yield), c, Pick(e));
            && Shape(t) && |t.cpus| == |s.cpus| && t.cpus[c].cur == e
            && (forall k | 0 <= k < |s.cpus| && k != c :: t.cpus[k] == s.cpus[k])
            && |t.status| == |s.status| && t.status[e] == RUNNING && t.recving == s.recving
            && t.cpus[c].pc == Drop(ToUser) && t.locked == s.locked
            && (forall d | 0 <= d < |s.status| && d != e && d != s.cpus[c].cur :: t.status[d] == s.status[d])
  {
  }

  lemma NotDyingItself(s: State, c: nat)
    requires Inv(s) && c < |s.cpus| && s.cpus[c].pc.Kernel? && s.cpus[c].cur >= 0
    ensures Shape(s) && s.status[s.cpus[c].cur] != DYING
  {
    assert CurOk(s, c);
  }

  lemma {:induction false} OneMore(s: State, steps: seq<Step>, x: Step)
    requires Possible(s, steps)
    requires var t := After(s, steps); Shape(t) && x.c < |t.cpus| && Enabled(t, x.c, x.a)
    ensures Possible(s, steps + [x]) && After(s, steps + [x]) == Next(After(s, steps), x.c, x.a)
    decreases |steps|
  {
    if steps == [] {
      assert [x][1..] == [];
    } else {
      assert (steps + [x])[1..] == steps[1..] + [x];
      OneMore(Next(s, steps[0].c, steps[0].a), steps[1..], x);
    }
  }

  /** Environment e runs on CPU c although it is still marked as waiting for a message; CPU k
      runs another one. */
  predicate WokenEarly(s: State, c: nat, k: nat, e: nat) {
    && Shape(s) && c < |s.cpus| && k < |s.cpus| && c != k && e < |s.status| && !s.locked
    && s.cpus[c].cur == e && s.status[e] == RUNNING && s.recving[e]
    && s.cpus[k].pc == User && !s.cpus[k].halted && s.cpus[k].cur >= 0 && s.cpus[k].cur != e
    && s.status[s.cpus[k].cur] == RUNNING
  }

  /** The same, but CPU c has not given up the lock yet. */
  predicate WakingEarly(s: State, c: nat, k: nat, e: nat) {
    && Shape(s) && c < |s.cpus| && s.cpus[c].pc == Drop(ToUser)
    && WokenEarly(s.(locked := false), c, k, e)
  }

  lemma PickReceiver(s: State, c: nat, k: nat, e: nat) returns (steps: seq<Step>)
    requires Inv(s) && c < |s.cpus| && s.cpus[c].pc.Kernel? && s.cpus[c].cur >= 0
    requires e < |s.status| && s.status[e] == NOT_RUNNABLE && s.recving[e]
    requires k < |s.cpus| && k != c && s.cpus[k].pc == User && s.cpus[k].cur >= 0 && s.status[s.cpus[k].cur] == RUNNING
    ensures Possible(s, steps) && |steps| > 0 && steps[0] == Step(c, SysSetStatus(e, RUNNABLE))
    ensures WakingEarly(After(s, steps), c, k, e)
  {
    hide Possible;
    hide After;
    hide LockOk;
    hide OnCpu;
    assert CpuOk(s, k);
    var s1 := Next(s, c, SysSetStatus(e, RUNNABLE));
    Picks(s1, c, e);
    var s2 := Next(s1, c, Yield);
    var s3 := Next(s2, c, Pick(e));
    steps := [Step(c, SysSetStatus(e, RUNNABLE)), Step(c, Yield), Step(c, Pick(e))];
    Three(s, s1, s2, s3, steps);
  }

  lemma WakeReceiver(s: State, c: nat, k: nat, e: nat) returns (steps: seq<Step>)
    requires Inv(s) && c < |s.cpus| && s.cpus[c].pc.Kernel? && s.cpus[c].cur >= 0
    requires e < |s.status| && s.status[e] == NOT_RUNNABLE && s.recving[e]
    requires k < |s.cpus| && k != c && s.cpus[k].pc == User && s.cpus[k].cur >= 0 && s.status[s.cpus[k].cur] == RUNNING
    ensures Possible(s, steps) && |steps| > 0 && steps[0] == Step(c, SysSetStatus(e, RUNNABLE))
    ensures WokenEarly(After(s, steps), c, k, e)
  {
    hide Possible;
    hide After;
    hide LockOk;
    hide OnCpu;
    hide NoSharing;
    hide CpuOk;
    hide EnvsOk;
    steps := PickReceiver(s, c, k, e);
    OneMore(s, steps, Step(c, Forget));
    steps := steps + [Step(c, Forget)];
    OneMore(s, steps, Step(c, Release));
    steps := steps + [Step(c, Release)];
  }

  /** CPU k is in the kernel on behalf of another environment. */
  predicate SenderInside(s: State, c: nat, k: nat, e: nat) {
    && Shape(s) && c < |s.cpus| && k < |s.cpus| && c != k && e < |s.status|
    && s.cpus[c].cur == e && s.status[e] == RUNNING && s.recving[e]
    && s.cpus[k].pc == Kernel && s.cpus[k].cur >= 0 && s.cpus[k].cur != e
  }

  lemma SenderEnters(s: State, c: nat, k: nat, e: nat) returns (steps: seq<Step>)
    requires WokenEarly(s, c, k, e)
    ensures Possible(s, steps) && SenderInside(After(s, steps), c, k, e)
  {
    hide Possible;
    hide After;
    var s1 := Next(s, k, Trap);
    var s2 := Next(s1, k, Exchange);
    var s3 := Next(s2, k, Acquire);
    steps := [Step(k, Trap), Step(k, Exchange), Step(k, Acquire)];
    Three(s, s1, s2, s3, steps);
    OneMore(s, steps, Step(k, Record));
    steps := steps + [Step(k, Record)];
    OneMore(s, steps, Step(k, Collect));
    steps := steps + [Step(k, Collect)];
  }

  /** If a blocked receiver is made runnable, a later message makes it runnable again while it
      runs, and the sender's CPU can come to share it. */
  lemma WokenEarlyShares(s: State, c: nat, k: nat, e: nat) returns (steps: seq<Step>)
    requires WokenEarly(s, c, k, e)
    ensures Possible(s, steps) && !NoSharing(After(s, steps))
  {
    hide Possible;
    hide After;
    hide WokenEarly;
    steps := SenderEnters(s, c, k, e);
    OneMore(s, steps, Step(k, SysSend(e)));
    steps := steps + [Step(k, SysSend(e))];
    OneMore(s, steps, Step(k, Yield));
    steps := steps + [Step(k, Yield)];
    OneMore(s, steps, Step(k, Pick(e)));
    steps := steps + [Step(k, Pick(e))];
    var t := After(s, steps);
    assert t.cpus[c].cur == e && t.cpus[k].cur == e;
  }
}
