/** Whole runs of the kernel's memory: any sequence of system calls by any environments. */
module KernelRuns {
  import opened Mmu
  import opened VmSpec
  import opened VmTables
  import opened VmBoot
  import opened VmTheorems
  import opened Pmap
  import opened Ipc
  import opened EnvStatus
  import opened Env

  /** One kernel operation, made by environment slot cur. */
  datatype Op =
    | Create
    | Exofork(cur: nat)
    | SetStatus(cur: nat, envid: int, st: Status)
    | Alloc(cur: nat, envid: int, va: nat, perm: Bits)
    | MapPage(cur: nat, srcid: int, srcva: nat, envid: int, va: nat, perm: Bits)
    | Unmap(cur: nat, envid: int, va: nat)
    | Send(cur: nat, envid: int, value: int, va: nat, perm: Bits)
    | Recv(cur: nat, va: nat)
    | Destroy(cur: nat, envid: int)
    | Reap(cur: nat)

  function Elements(a: seq<nat>): set<nat> {
    set x | x in a
  }

  lemma {:induction false} NoDupCount(a: seq<nat>)
    requires NoDup(a)
    ensures |Elements(a)| == |a|
  {
    if a != [] {
      NoDupCount(a[1..]);
      assert a == [a[0]] + a[1..];
      assert Elements(a) == Elements(a[1..]) + {a[0]};
      assert a[0] !in a[1..];
    }
  }

  /** Once the last environment is gone, the free list holds exactly the pages it held when
      there was none before: creating and destroying environments loses and gains nothing. */
  lemma FreePagesConserved(vm: Vm, vm': Vm)
    requires Inv(vm) && NoneHeld(vm) && NoEnvs(vm)
    requires Inv(vm') && NoneHeld(vm') && NoEnvs(vm')
    requires |vm'.mem| == |vm.mem| && SameKernel(vm, vm')
    ensures Elements(vm'.free) == Elements(vm.free)
    ensures |vm'.free| == |vm.free|
  {
    forall f: nat ensures f in vm'.free <==> f in vm.free {
      if f < |vm.mem| {
        NoEnvsAllFree(vm, f);
        NoEnvsAllFree(vm', f);
      }
    }
    NoDupCount(vm.free);
    NoDupCount(vm'.free);
    assert Elements(vm'.free) == Elements(vm.free);
  }

  /** No page is mapped so often that pp_ref could wrap around. */
  ghost predicate Room(k: Kernel)
    reads k, k.vm
  {
    forall f | 0 <= f < |k.vm.ref| :: k.vm.ref[f] < REF_MAX
  }

  /** May the operation be made?  The caller exists, no reference count is at its 16-bit
      maximum, and a page is sent only to a receiver listening below UTOP. */
  ghost predicate Allowed(k: Kernel, op: Op)
    reads k, k.vm
    requires k.Valid()
  {
    && (op.Create? || (op.cur < NENV && k.status[op.cur] != FREE))
    && (op.MapPage? || op.Send? ==> Room(k))
    && (op.Send? ==>
          var e := k.Envid2Env(op.cur, op.envid, false);
          e >= 0 && Accepts(k.box[e]) && op.va < UTOP ==> k.box[e].dstva < UTOP)
    && (op.Reap? ==> k.status[op.cur] == DYING)
  }

  lemma ReleasedKernel(vm: Vm, vm': Vm, s: nat)
    requires Shape(vm) && Released(vm, vm', s)
    ensures SameKernel(vm, vm')
  {
  }

  method DestroyOrReap(k: Kernel, op: Op)
    requires k.Valid() && Allowed(k, op) && (op.Destroy? || op.Reap?)
    modifies k, k.vm
    ensures k.Valid() && SameKernel(old(k.vm.S()), k.vm.S())
  {
    ghost var vm0 := k.vm.S();
    if op.Reap? {
      k.EnvFree(op.cur);
      ReleasedKernel(vm0, k.vm.S(), op.cur);
    } else {
      var e := k.Envid2Env(op.cur, op.envid, true);
      if e >= 0 {
        var curenv := k.EnvDestroy(op.cur, e);
        if k.vm.S() != vm0 {
          ReleasedKernel(vm0, k.vm.S(), e);
        }
      }
    }
  }

  method ChangePages(k: Kernel, op: Op)
    requires k.Valid() && Allowed(k, op) && (op.Alloc? || op.MapPage? || op.Unmap? || op.Send?)
    modifies k, k.vm
    ensures k.Valid() && SameKernel(old(k.vm.S()), k.vm.S())
  {
    match op {
      case Alloc(cur, envid, va, perm) => var r := k.SysPageAlloc(cur, envid, va, perm);
      case MapPage(cur, srcid, srcva, envid, va, perm) => var r := k.SysPageMap(cur, srcid, srcva, envid, va, perm);
      case Unmap(cur, envid, va) => var r := k.SysPageUnmap(cur, envid, va);
      case Send(cur, envid, value, va, perm) => var r := k.SysIpcTrySend(cur, envid, value, va, perm);
    }
  }

  method Perform(k: Kernel, op: Op)
    requires k.Valid() && Allowed(k, op)
    modifies k, k.vm
    ensures k.Valid() && SameKernel(old(k.vm.S()), k.vm.S())
  {
    match op {
      case Create => var r, e := k.EnvAlloc(0);
      case Exofork(cur) => var r := k.SysExofork(cur);
      case SetStatus(cur, envid, st) => var r := k.SysEnvSetStatus(cur, envid, st);
      case Recv(cur, va) => var r := k.SysIpcRecv(cur, va);
      case Destroy(_, _) => DestroyOrReap(k, op);
      case Reap(_) => DestroyOrReap(k, op);
      case _ => ChangePages(k, op);
    }
  }

  /** Any sequence of operations, each made if it is allowed at that point. */
  method RunAll(k: Kernel, ops: seq<Op>)
    requires k.Valid()
    modifies k, k.vm
    ensures k.Valid()
    ensures forall f | 0 <= f < k.vm.npages && !IsKernel(k.vm.kind[f]) ::
              k.vm.ref[f] == |NamesOf(k.vm.S(), f)| && (k.vm.ref[f] == 0 <==> f in k.vm.free)
    ensures NoEnvs(old(k.vm.S())) && NoEnvs(k.vm.S()) ==>
              |k.vm.free| == |old(k.vm.free)| && Elements(k.vm.free) == Elements(old(k.vm.free))
  {
    ghost var vm0 := k.vm.S();
    for i := 0 to |ops|
      invariant k.Valid() && SameKernel(vm0, k.vm.S())
    {
      var ok := IsAllowed(k, ops[i]);
      if ok {
        Perform(k, ops[i]);
      }
    }
    if NoEnvs(vm0) && NoEnvs(k.vm.S()) {
      FreePagesConserved(vm0, k.vm.S());
    }
    forall f | 0 <= f < k.vm.npages && !IsKernel(k.vm.kind[f])
      ensures k.vm.ref[f] == |NamesOf(k.vm.S(), f)| && (k.vm.ref[f] == 0 <==> f in k.vm.free) {
      RefCountsNames(k.vm.S(), f);
    }
  }

  method IsAllowed(k: Kernel, op: Op) returns (ok: bool)
    requires k.Valid()
    ensures ok <==> Allowed(k, op)
  {
    if !op.Create? && (op.cur >= NENV || k.status[op.cur] == FREE) {
      return false;
    }
    if op.MapPage? || op.Send? {
      for f := 0 to |k.vm.ref|
        invariant forall g | 0 <= g < f :: k.vm.ref[g] < REF_MAX
      {
        if k.vm.ref[f] >= REF_MAX {
          return false;
        }
      }
    }
    if op.Send? {
      var e := k.Envid2Env(op.cur, op.envid, false);
      if e >= 0 && Accepts(k.box[e]) && op.va < UTOP && k.box[e].dstva >= UTOP {
        return false;
      }
    }
    return op.Reap? ==> k.status[op.cur] == DYING;
  }
}
