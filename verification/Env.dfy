/** kern/env.c and the page system calls of kern/syscall.c. */
module Env {
  import opened Errors
  import opened Mmu
  import opened EnvStatus
  import opened VmSpec
  import opened VmLemmas
  import opened VmTables
  import opened VmBoot
  import opened EnvIds
  import opened Pmap
  import opened Ipc

  const PGSIZE := 4096
  const UTOP := 0xeec0_0000

  /** env_link, followed from the head, spells out the list of free environments.  Unlike
      pp_link, the link of an allocated environment is left as it was. */
  predicate Follows(link: seq<int>, head: int, list: seq<nat>) {
    && head == Nth(list, 0)
    && (forall i | 0 <= i < |list| :: list[i] < |link|)
    && (forall i | 0 <= i < |list| :: LinkAt(link, list, i))
  }

  lemma FollowsTail(link: seq<int>, head: int, list: seq<nat>)
    requires Follows(link, head, list) && NoDup(list) && list != []
    ensures 0 <= head < |link| && Follows(link, link[head], list[1..]) && NoDup(list[1..])
  {
    var tail := list[1..];
    assert forall i | 0 <= i < |tail| :: tail[i] == list[i + 1];
    assert LinkAt(link, list, 0);
    forall i | 0 <= i < |tail| ensures tail[i] < |link| && LinkAt(link, tail, i) {
      assert LinkAt(link, list, i + 1);
    }
  }

  lemma FollowsPush(link: seq<int>, head: int, list: seq<nat>, s: nat)
    requires Follows(link, head, list) && NoDup(list) && s < |link| && s !in list
    ensures Follows(link[s := head], s, [s] + list) && NoDup([s] + list)
  {
    var list' := [s] + list;
    assert forall i | 0 < i < |list'| :: list'[i] == list[i - 1];
    forall i | 0 <= i < |list'| ensures list'[i] < |link| && LinkAt(link[s := head], list', i) {
      if i > 0 { assert LinkAt(link, list, i - 1); }
    }
  }

  ghost predicate NoneHeld(vm: Vm) {
    forall f | 0 <= f < |vm.kind| :: vm.kind[f] != Held
  }

  /** What a page system call demands of a virtual address. */
  predicate UserPage(va: nat) {
    va < UTOP && va % PGSIZE == 0
  }

  lemma UserPageNumber(va: nat)
    requires va < UTOP
    ensures va / PGSIZE < UTOP_PAGES
  {
  }

  class Kernel {
    const vm: PageMap
    var id: seq<int>
    var parent: seq<int>
    var status: seq<Status>
    var box: seq<Box>
    var envLink: seq<int>
    var envFree: int
    ghost var envList: seq<nat>
    /** How often each slot has been allocated. */
    ghost var uses: seq<nat>

    /** The environment table on its own. */
    ghost predicate TableOk()
      reads this
    {
      && |id| == |parent| == |status| == |box| == |envLink| == |uses| == NENV
      && NoDup(envList) && Follows(envLink, envFree, envList)
      && (forall s | 0 <= s < NENV :: status[s] == FREE <==> s in envList)
      && (forall s | 0 <= s < NENV :: id[s] == IdAfter(s, uses[s]) && (s !in envList ==> uses[s] >= 1))
    }

    /** Free slots are the ones without a page directory, and no page is left in limbo. */
    ghost predicate Valid()
      reads this, vm
    {
      && vm.Valid() && TableOk()
      && (forall s | 0 <= s < NENV :: vm.dir[s] >= 0 <==> s !in envList)
      && NoneHeld(vm.S())
    }

    /** env_init: every slot is free, and the first env_alloc takes slot 0. */
    constructor EnvInit(vm: PageMap)
      requires vm.Valid() && NoEnvs(vm.S())
      requires NoneHeld(vm.S())
      ensures Valid() && this.vm == vm && fresh(this)
      ensures forall s | 0 <= s < NENV :: status[s] == FREE
      ensures envFree == 0
    {
      hide Owned;
      hide KernelShared;
      hide Counted;
      hide FreeOk;
      this.vm := vm;
      id := seq(NENV, i => 0);
      parent := seq(NENV, i => 0);
      status := seq(NENV, i => FREE);
      box := seq(NENV, i => Box(false, 0, 0, 0, {}));
      envLink := seq(NENV, i => -1);
      envFree := -1;
      envList := [];
      uses := seq(NENV, i => 0);
      new;
      assert forall s | 0 <= s < NENV && vm.dir[s] >= 0 :: Live(vm.S(), s);
      var i := NENV - 1;
      while i >= 0
        invariant -1 <= i < NENV
        invariant |envLink| == NENV && NoDup(envList) && Follows(envLink, envFree, envList)
        invariant forall s | 0 <= s < NENV :: s in envList <==> s > i
        invariant id == seq(NENV, i => 0) && status == seq(NENV, i => FREE)
        invariant |parent| == |uses| == |box| == NENV && forall s | 0 <= s < NENV :: uses[s] == 0
        invariant i < NENV - 1 ==> envFree == i + 1
      {
        FollowsPush(envLink, envFree, envList, i);
        id := id[i := 0];
        status := status[i := FREE];
        envLink := envLink[i := envFree];
        envFree := i;
        envList := [i] + envList;
        i := i - 1;
      }
    }

    /** envid2env: the slot an identifier denotes for the current environment, or an error. */
    function Envid2Env(cur: nat, envid: int, checkperm: bool): (r: int)
      reads this
      requires |id| == |parent| == |status| == NENV && cur < NENV
      ensures r < 0 <==> r == -E_BAD_ENV
      ensures r >= 0 ==> r < NENV
      ensures r >= 0 && envid != 0 ==> status[r] != FREE && id[r] == envid
      ensures r >= 0 && checkperm ==> r == cur || parent[r] == id[cur]
    {
      if envid == 0 then cur
      else
        var e := Envx(envid);
        if status[e] == FREE || id[e] != envid then -E_BAD_ENV
        else if checkperm && e != cur && parent[e] != id[cur] then -E_BAD_ENV
        else e
    }

    /** env_alloc: the head of the free list gets an empty address space and a new identifier. */
    method EnvAlloc(parentId: int) returns (r: int, e: nat)
      requires Valid()
      modifies this, vm
      ensures Valid() && r in {0, -E_NO_FREE_ENV, -E_NO_MEM}
      ensures r == -E_NO_FREE_ENV <==> old(envList) == []
      ensures r == -E_NO_MEM <==> old(envList) != [] && old(vm.free) == []
      ensures r < 0 ==> status == old(status) && id == old(id) && parent == old(parent) && box == old(box)
      ensures r < 0 ==> vm.S() == old(vm.S())
      ensures r == 0 ==> old(envList) != [] && e == old(envList[0]) && e < NENV && old(status)[e] == FREE
      ensures r == 0 ==> status == old(status)[e := RUNNABLE] && parent == old(parent)[e := parentId]
      ensures r == 0 ==> id == old(id)[e := NextId(old(id[e]), e)] && box == old(box)[e := Renew(old(box[e]))]
      ensures r == 0 ==> box[e] == old(box)[e].(recving := false)
      ensures r == 0 ==> Live(vm.S(), e) && Space(vm.S(), e) == map[]
      ensures r == 0 ==> (forall s: nat | s != e :: Space(vm.S(), s) == old(Space(vm.S(), s)))
      ensures r == 0 ==> DataKept(old(vm.S()), vm.S()) && SameKernel(old(vm.S()), vm.S())
    {
      e := 0;
      if envFree == -1 {
        return -E_NO_FREE_ENV, 0;
      }
      e := envFree;
      ghost var vm0 := vm.S();
      r := vm.EnvSetupVm(e);
      if r < 0 {
        return;
      }
      SetupSpaces(vm0, e);
      CommitAlloc(e, parentId);
    }

    method CommitAlloc(e: nat, parentId: int)
      requires TableOk() && envList != [] && e == envList[0]
      modifies this
      ensures TableOk() && envList == old(envList)[1..] && e !in envList
      ensures status == old(status)[e := RUNNABLE] && parent == old(parent)[e := parentId]
      ensures id == old(id)[e := NextId(old(id[e]), e)] && box == old(box)[e := Renew(old(box[e]))]
    {
      FollowsTail(envLink, envFree, envList);
      id := id[e := NextId(id[e], e)];
      parent := parent[e := parentId];
      status := status[e := RUNNABLE];
      box := box[e := Renew(box[e])];
      uses := uses[e := uses[e] + 1];
      envFree := envLink[e];
      envList := envList[1..];
      assert forall s | 0 <= s < NENV && s != e :: s in envList <==> s in old(envList);
    }

    /** env_free: the address space is released and the slot goes to the head of the list. */
    method EnvFree(e: nat)
      requires Valid() && e < NENV && status[e] != FREE
      modifies this, vm
      ensures Valid() && status == old(status)[e := FREE] && id == old(id) && parent == old(parent) && box == old(box)
      ensures Released(old(vm.S()), vm.S(), e) && !Live(vm.S(), e)
    {
      ghost var vm0 := vm.S();
      vm.EnvFreeVm(e);
      ReturnSlot(e);
      forall s | 0 <= s < NENV ensures vm.dir[s] >= 0 <==> s !in envList {}
      assert NoneHeld(vm.S());
    }

    method ReturnSlot(e: nat)
      requires TableOk() && e < NENV && e !in envList
      modifies this
      ensures TableOk() && envList == [e] + old(envList)
      ensures status == old(status)[e := FREE] && id == old(id) && parent == old(parent) && box == old(box)
    {
      FollowsPush(envLink, envFree, envList, e);
      status := status[e := FREE];
      envLink := envLink[e := envFree];
      envFree := e;
      envList := [e] + envList;
    }

    /** env_destroy: an environment running on another CPU only becomes a zombie.  Afterwards this
        CPU's current environment is `curenv`; if none, it gives up the processor. */
    method EnvDestroy(cur: int, e: nat) returns (curenv: int)
      requires Valid() && e < NENV && status[e] != FREE
      modifies this, vm
      ensures curenv == if cur == e then -1 else cur
      ensures Valid() && id == old(id) && parent == old(parent) && box == old(box)
      ensures old(status[e]) == RUNNING && cur != e ==> status == old(status)[e := DYING] && vm.S() == old(vm.S())
      ensures !(old(status[e]) == RUNNING && cur != e) ==>
                status == old(status)[e := FREE] && !Live(vm.S(), e) && Released(old(vm.S()), vm.S(), e)
    {
      curenv := cur;
      if status[e] == RUNNING && cur != e {
        status := status[e := DYING];
        return;
      }
      EnvFree(e);
      if cur == e {
        curenv := -1;
      }
    }

    /** sys_exofork: a child that is not runnable and has an empty address space. */
    method SysExofork(cur: nat) returns (r: int)
      requires Valid() && cur < NENV && status[cur] != FREE
      modifies this, vm
      ensures Valid()
      ensures r < 0 ==> r in {-E_NO_FREE_ENV, -E_NO_MEM} && vm.S() == old(vm.S())
      ensures r == -E_NO_FREE_ENV <==> old(envList) == []
      ensures r == -E_NO_MEM <==> old(envList) != [] && old(vm.free) == []
      ensures r < 0 ==> status == old(status) && id == old(id) && parent == old(parent) && box == old(box)
      ensures r >= 0 ==>
                var e := Envx(r);
                && r > 0 && old(status[e]) == FREE && status == old(status)[e := NOT_RUNNABLE]
                && id == old(id)[e := r] && parent == old(parent)[e := old(id[cur])]
                && box == old(box)[e := Renew(old(box[e]))] && box[e] == old(box)[e].(recving := false)
                && Space(vm.S(), e) == map[]
                && (forall s: nat | s != e :: Space(vm.S(), s) == old(Space(vm.S(), s)))
                && DataKept(old(vm.S()), vm.S()) && SameKernel(old(vm.S()), vm.S())
    {
      hide Inv;
      var ret, e := EnvAlloc(id[cur]);
      if ret < 0 {
        return ret;
      }
      IdClosedForm(e, uses[e]);
      status := status[e := NOT_RUNNABLE];
      return id[e];
    }

    /** sys_env_set_status. */
    method SysEnvSetStatus(cur: nat, envid: int, st: Status) returns (r: int)
      requires Valid() && cur < NENV && status[cur] != FREE
      modifies this`status
      ensures Valid()
      ensures var e := old(Envid2Env(cur, envid, true));
              && (e < 0 ==> r == -E_BAD_ENV)
              && (e >= 0 && st !in {RUNNABLE, NOT_RUNNABLE} ==> r == -E_INVAL)
              && (e >= 0 && st in {RUNNABLE, NOT_RUNNABLE} ==> r == 0)
              && status == if r == 0 then old(status)[e := st] else old(status)
    {
      var e := Envid2Env(cur, envid, true);
      if e < 0 {
        return e;
      }
      if st != RUNNABLE && st != NOT_RUNNABLE {
        return -E_INVAL;
      }
      status := status[e := st];
      r := 0;
    }

    /** sys_page_alloc: on success one page of the target becomes a private page of zeros; on
        any error no address space, count or page contents in use has changed. */
    method SysPageAlloc(cur: nat, envid: int, va: nat, perm: Bits) returns (r: int)
      requires Valid() && cur < NENV && status[cur] != FREE
      modifies vm
      ensures Valid()
      ensures var e := Envid2Env(cur, envid, true);
              && (e < 0 <==> r == -E_BAD_ENV)
              && (e >= 0 && !(UserPage(va) && PermOk(perm)) <==> r == -E_INVAL)
              && (e >= 0 && UserPage(va) && PermOk(perm) ==>
                    (r == 0 || r == -E_NO_MEM)
                    && (r == -E_NO_MEM <==>
                          old(vm.free == [] || (|vm.free| == 1 && !HasTable(vm.S(), e, va / PGSIZE / NPTENTRIES)))))
      ensures r < 0 ==> Untouched(old(vm.S()), vm.S())
      ensures r == 0 ==>
                && old(vm.free) != [] && vm.mem[old(vm.free[0])] == ZeroFrame()
                && OnePage(old(vm.S()), vm.S(), Envid2Env(cur, envid, true), va / PGSIZE,
                           Word(old(vm.free[0]), {P} + perm))
    {
      hide Inv;
      var e := Envid2Env(cur, envid, true);
      if e < 0 {
        return e;
      }
      if va >= UTOP || va % PGSIZE != 0 {
        return -E_INVAL;
      }
      if !({U, P} <= perm) || !(perm <= SYSCALL_BITS) {
        return -E_INVAL;
      }
      r := AllocInto(e, va / PGSIZE, perm);
    }

    /** The memory half of sys_page_alloc. */
    method AllocInto(e: nat, v: nat, perm: Bits) returns (r: int)
      requires Valid() && e < NENV && Live(vm.S(), e) && v < UTOP_PAGES
      modifies vm
      ensures Valid()
      ensures r == 0 || r == -E_NO_MEM
      ensures r == -E_NO_MEM <==> old(vm.free == [] || (|vm.free| == 1 && !HasTable(vm.S(), e, v / NPTENTRIES)))
      ensures r < 0 ==> Untouched(old(vm.S()), vm.S())
      ensures r == 0 ==> old(vm.free) != [] && vm.mem[old(vm.free[0])] == ZeroFrame()
      ensures r == 0 ==> OnePage(old(vm.S()), vm.S(), e, v, Word(old(vm.free[0]), {P} + perm))
    {
      ghost var vm0 := vm.S();
      var pg := vm.PageAlloc(true);
      if pg == -1 {
        return -E_NO_MEM;
      }
      TakeTables(vm0, e, v);
      ghost var vm1 := vm.S();
      r := vm.PageInsert(e, pg, v, perm);
      if r < 0 {
        TakeThenGiveBack(vm0);
        vm.PageFree(pg);
        return;
      }
      AllocOnePage(vm0, vm.S(), e, v, Word(pg, {P} + perm));
    }

    /** sys_page_map: on success one page of the destination maps the source's frame, never
        with more write access than the source has; on error nothing changes. */
    method SysPageMap(cur: nat, srcid: int, srcva: nat, dstid: int, dstva: nat, perm: Bits) returns (r: int)
      requires Valid() && cur < NENV && status[cur] != FREE
      requires RoomAt(vm.S(), Envid2Env(cur, srcid, true), srcva / PGSIZE)
      modifies vm
      ensures Valid()
      ensures var se, de := Envid2Env(cur, srcid, true), Envid2Env(cur, dstid, true);
              var good := UserPage(srcva) && UserPage(dstva) && PermOk(perm)
                          && old(MayGrant(vm.S(), se, srcva / PGSIZE, perm));
              && (r == -E_BAD_ENV <==> se < 0 || de < 0)
              && (r == -E_INVAL <==> se >= 0 && de >= 0 && !good)
              && (r == -E_NO_MEM <==> se >= 0 && de >= 0 && good
                                      && old(vm.free == [] && !HasTable(vm.S(), de, dstva / PGSIZE / NPTENTRIES)))
              && (r == 0 || r in {-E_BAD_ENV, -E_INVAL, -E_NO_MEM})
      ensures r < 0 ==> vm.S() == old(vm.S())
      ensures r == 0 ==> OnePage(old(vm.S()), vm.S(), Envid2Env(cur, dstid, true), dstva / PGSIZE,
                                 Word(old(Space(vm.S(), Envid2Env(cur, srcid, true))[srcva / PGSIZE].frame),
                                      {P} + perm))
    {
      hide Inv;
      var se := Envid2Env(cur, srcid, true);
      if se < 0 {
        return se;
      }
      var de := Envid2Env(cur, dstid, true);
      if de < 0 {
        return de;
      }
      if srcva >= UTOP || srcva % PGSIZE != 0 || dstva >= UTOP || dstva % PGSIZE != 0 {
        return -E_INVAL;
      }
      if !({U, P} <= perm) || !(perm <= SYSCALL_BITS) {
        return -E_INVAL;
      }
      r := MapInto(se, srcva / PGSIZE, de, dstva / PGSIZE, perm);
    }

    /** The checks sys_page_map and sys_ipc_try_send make on the page they pass on. */
    method GrantedPage(se: nat, sv: nat, perm: Bits) returns (pg: int)
      requires Valid() && Live(vm.S(), se) && sv < UTOP_PAGES
      ensures pg >= 0 <==> MayGrant(vm.S(), se, sv, perm)
      ensures pg >= 0 ==> pg == Space(vm.S(), se)[sv].frame && pg < vm.npages && vm.kind[pg] == User
    {
      var w;
      pg, w := vm.PageLookup(se, sv);
      if pg < 0 {
        return -1;
      }
      if W in perm && W !in w.bits {
        return -1;
      }
    }

    /** The memory half of sys_page_map. */
    method MapInto(se: nat, sv: nat, de: nat, dv: nat, perm: Bits) returns (r: int)
      requires Valid() && Live(vm.S(), se) && Live(vm.S(), de) && sv < UTOP_PAGES && dv < UTOP_PAGES
      requires RoomAt(vm.S(), se, sv)
      modifies vm
      ensures Valid() && r in {0, -E_INVAL, -E_NO_MEM}
      ensures r == -E_INVAL <==> !old(MayGrant(vm.S(), se, sv, perm))
      ensures r == -E_NO_MEM <==>
                old(MayGrant(vm.S(), se, sv, perm) && vm.free == [] && !HasTable(vm.S(), de, dv / NPTENTRIES))
      ensures r < 0 ==> vm.S() == old(vm.S())
      ensures r == 0 ==> OnePage(old(vm.S()), vm.S(), de, dv, Word(old(Space(vm.S(), se)[sv].frame), {P} + perm))
    {
      hide Inv;
      var pg := GrantedPage(se, sv, perm);
      if pg < 0 {
        return -E_INVAL;
      }
      r := vm.PageInsert(de, pg, dv, perm);
    }

    /** sys_page_unmap. */
    method SysPageUnmap(cur: nat, envid: int, va: nat) returns (r: int)
      requires Valid() && cur < NENV && status[cur] != FREE
      modifies vm
      ensures Valid()
      ensures var e := Envid2Env(cur, envid, true);
              && (r == -E_BAD_ENV <==> e < 0)
              && (r == -E_INVAL <==> e >= 0 && !UserPage(va))
              && (r == 0 <==> e >= 0 && UserPage(va))
              && (r < 0 ==> vm.S() == old(vm.S()))
              && (r == 0 ==> OnePage(old(vm.S()), vm.S(), e, va / PGSIZE, ZERO))
    {
      hide Inv;
      var e := Envid2Env(cur, envid, true);
      if e < 0 {
        return e;
      }
      if va >= UTOP || va % PGSIZE != 0 {
        return -E_INVAL;
      }
      vm.PageRemove(e, va / PGSIZE);
      r := 0;
    }

    /** sys_ipc_recv, up to giving up the processor. */
    method SysIpcRecv(cur: nat, dstva: nat) returns (r: int)
      requires Valid() && cur < NENV && status[cur] != FREE
      modifies this`box, this`status
      ensures Valid()
      ensures r == -E_INVAL <==> dstva < UTOP && dstva % PGSIZE != 0
      ensures r == 0 || r == -E_INVAL
      ensures r < 0 ==> box == old(box) && status == old(status)
      ensures r == 0 ==>
                box == old(box)[cur := Listen(old(box[cur]), dstva)] && status == old(status)[cur := NOT_RUNNABLE]
      ensures r == 0 ==> box[cur].recving && box[cur].dstva == dstva && box[cur].from == 0
      ensures r == 0 ==> box[cur].value == old(box[cur].value) && box[cur].perm == old(box[cur].perm)
    {
      if dstva < UTOP && dstva % PGSIZE != 0 {
        return -E_INVAL;
      }
      box := box[cur := Listen(box[cur], dstva)];
      status := status[cur := NOT_RUNNABLE];
      r := 0;
    }

    /** A page the sender may pass on is mapped where the receiver listens, if it does. */
    method PassPage(pg: nat, e: nat, dstva: nat, perm: Bits) returns (r: int)
      requires Valid() && Live(vm.S(), e) && dstva < UTOP
      requires pg < vm.npages && vm.kind[pg] == User && vm.ref[pg] < REF_MAX
      modifies vm
      ensures Valid() && (r == 0 || r == -E_NO_MEM)
      ensures r == -E_NO_MEM <==> dstva != 0 && old(vm.free == [] && !HasTable(vm.S(), e, dstva / PGSIZE / NPTENTRIES))
      ensures r < 0 || dstva == 0 ==> vm.S() == old(vm.S())
      ensures r == 0 && dstva != 0 ==> OnePage(old(vm.S()), vm.S(), e, dstva / PGSIZE, Word(pg, {P} + perm))
    {
      r := 0;
      if dstva != 0 {
        UserPageNumber(dstva);
        r := vm.PageInsert(e, pg, dstva / PGSIZE, perm);
      }
    }

    /** The receiver wants a page where it has no page table, and there is no page for one. */
    ghost predicate NoTableFor(e: int)
      requires Shape(vm.S())
      reads this, vm
    {
      && 0 <= e < NENV && |box| == NENV && box[e].dstva != 0
      && vm.free == [] && !HasTable(vm.S(), e, box[e].dstva / PGSIZE / NPTENTRIES)
    }

    /** The page half of sys_ipc_try_send, for srcva below UTOP. */
    method SendPage(cur: nat, srcva: nat, e: nat, perm: Bits) returns (r: int)
      requires Valid() && Live(vm.S(), cur) && Live(vm.S(), e) && srcva < UTOP && box[e].dstva < UTOP
      requires RoomAt(vm.S(), cur, srcva / PGSIZE)
      modifies vm
      ensures Valid() && r in {0, -E_INVAL, -E_NO_MEM}
      ensures r == -E_INVAL <==> !(UserPage(srcva) && PermOk(perm) && old(MayGrant(vm.S(), cur, srcva / PGSIZE, perm)))
      ensures r == -E_NO_MEM <==> r != -E_INVAL && old(NoTableFor(e))
      ensures r < 0 || box[e].dstva == 0 ==> vm.S() == old(vm.S())
      ensures r == 0 && box[e].dstva != 0 ==>
                OnePage(old(vm.S()), vm.S(), e, box[e].dstva / PGSIZE,
                        Word(old(Space(vm.S(), cur)[srcva / PGSIZE].frame), {P} + perm))
    {
      hide Inv;
      if srcva % PGSIZE != 0 || P !in perm || U !in perm || !(perm <= SYSCALL_BITS) {
        return -E_INVAL;
      }
      UserPageNumber(srcva);
      var pg := GrantedPage(cur, srcva / PGSIZE, perm);
      if pg < 0 {
        return -E_INVAL;
      }
      r := PassPage(pg, e, box[e].dstva, perm);
    }

    /** sys_ipc_try_send.  A page offered to a receiver that listens at a nonzero address below
        UTOP becomes a mapping of the same frame there; the message is delivered exactly when
        the call returns 0, and an error changes nothing. */
    method SysIpcTrySend(cur: nat, envid: int, value: int, srcva: nat, perm: Bits) returns (r: int)
      requires Valid() && cur < NENV && status[cur] != FREE
      requires RoomAt(vm.S(), cur, srcva / PGSIZE)
      requires var e := Envid2Env(cur, envid, false); e >= 0 && Accepts(box[e]) && srcva < UTOP ==> box[e].dstva < UTOP
      modifies this`box, this`status, vm
      ensures Valid()
      ensures var e := old(Envid2Env(cur, envid, false));
              && (r == -E_BAD_ENV <==> e < 0)
              && (r == -E_IPC_NOT_RECV <==> e >= 0 && !Accepts(old(box)[e]))
              && (r == -E_INVAL <==>
                    && e >= 0 && Accepts(old(box)[e]) && srcva < UTOP
                    && !(UserPage(srcva) && PermOk(perm) && old(MayGrant(vm.S(), cur, srcva / PGSIZE, perm))))
              && (r == -E_NO_MEM <==>
                    && e >= 0 && Accepts(old(box)[e]) && srcva < UTOP && r != -E_INVAL
                    && old(NoTableFor(Envid2Env(cur, envid, false))))
              && r in {0, -E_BAD_ENV, -E_IPC_NOT_RECV, -E_INVAL, -E_NO_MEM}
              && (r < 0 ==> box == old(box) && status == old(status) && vm.S() == old(vm.S()))
              && (r >= 0 ==>
                    var taken := srcva < UTOP && old(box)[e].dstva != 0;
                    && r == 0 && status == old(status)[e := RUNNABLE]
                    && box == old(box)[e := Deliver(old(box)[e], id[cur], value, if taken then Sent(perm) else NoPage)]
                    && (!taken ==> vm.S() == old(vm.S()))
                    && (taken ==> OnePage(old(vm.S()), vm.S(), e, old(box)[e].dstva / PGSIZE,
                                          Word(old(Space(vm.S(), cur)[srcva / PGSIZE].frame), {P} + perm)))
                    && !box[e].recving && box[e].from == id[cur] && box[e].value == value
                    && box[e].dstva == old(box)[e].dstva && box[e].perm == if taken then perm else old(box)[e].perm)
    {
      hide Inv;
      var e := Envid2Env(cur, envid, false);
      if e < 0 {
        return e;
      }
      if !box[e].recving || box[e].from != 0 {
        return -E_IPC_NOT_RECV;
      }
      var page := NoPage;
      if srcva < UTOP {
        r := SendPage(cur, srcva, e, perm);
        if r < 0 {
          return;
        }
        if box[e].dstva != 0 {
          page := Sent(perm);
        }
      }
      box := box[e := Deliver(box[e], id[cur], value, page)];
      status := status[e := RUNNABLE];
      r := 0;
    }
  }

  /** An identifier other than 0 resolves exactly if some environment has it, and with checkperm
      exactly if that is the current one or a child of it. */
  lemma ResolvesIff(k: Kernel, cur: nat, envid: int, checkperm: bool)
    requires k.Valid() && cur < NENV && envid != 0
    ensures k.Envid2Env(cur, envid, checkperm) >= 0 <==>
            exists e | 0 <= e < NENV ::
              k.status[e] != FREE && k.id[e] == envid && (checkperm ==> e == cur || k.parent[e] == k.id[cur])
  {
    forall e | 0 <= e < NENV && k.status[e] != FREE ensures Envx(k.id[e]) == e { IdClosedForm(e, k.uses[e]); }
  }

  /** A receive and a send to it: the send fails only for a page that the sender may not pass on or
      that there is no page table for; a page appears in the receiver where it said, the same frame
      with the permissions sent, and the receiver is told of it. */
  method RecvThenSend(k: Kernel, e: nat, va: nat, cur: nat, value: int, srcva: nat, perm: Bits) returns (r: int)
    requires k.Valid() && e < NENV && k.status[e] != FREE && cur < NENV && k.status[cur] != FREE && e != cur
    requires 0 < va < UTOP && va % PGSIZE == 0 && RoomAt(k.vm.S(), cur, srcva / PGSIZE)
    modifies k`box, k`status, k.vm
    ensures k.Valid() && r in {0, -E_INVAL, -E_NO_MEM}
    ensures r == -E_INVAL <==>
              srcva < UTOP && !(UserPage(srcva) && PermOk(perm) && old(MayGrant(k.vm.S(), cur, srcva / PGSIZE, perm)))
    ensures r == -E_NO_MEM <==>
              && srcva < UTOP && r != -E_INVAL && old(k.vm.free) == []
              && !old(HasTable(k.vm.S(), e, va / PGSIZE / NPTENTRIES))
    ensures r == 0 ==> k.status[e] == RUNNABLE && k.box[e].value == value && k.box[e].from == k.id[cur]
    ensures r == 0 && srcva < UTOP ==>
              && k.box[e].perm == perm && va / PGSIZE in Space(k.vm.S(), e)
              && Space(k.vm.S(), e)[va / PGSIZE] == Word(old(Space(k.vm.S(), cur)[srcva / PGSIZE].frame), {P} + perm)
    ensures r == 0 && srcva >= UTOP ==> k.vm.S() == old(k.vm.S()) && k.box[e].perm == old(k.box[e].perm)
  {
    hide Inv;
    r := k.SysIpcRecv(e, va);
    IdOfSlot(k, cur, e);
    r := k.SysIpcTrySend(cur, k.id[e], value, srcva, perm);
  }

  lemma IdOfSlot(k: Kernel, cur: nat, e: nat)
    requires k.Valid() && cur < NENV && e < NENV && k.status[e] != FREE
    ensures k.Envid2Env(cur, k.id[e], false) == e
  {
    IdClosedForm(e, k.uses[e]);
  }

  /** One more mapping of page v of slot s does not make the 16-bit pp_ref wrap around. */
  ghost predicate RoomAt(vm: Vm, s: int, v: nat)
    requires Shape(vm)
  {
    s >= 0 && v in Space(vm, s) && Space(vm, s)[v].frame < |vm.ref| ==> vm.ref[Space(vm, s)[v].frame] < REF_MAX
  }

  /** May page v of slot s be mapped elsewhere with these permissions? */
  ghost predicate MayGrant(vm: Vm, s: int, v: nat, perm: Bits)
    requires Shape(vm)
  {
    s >= 0 && v in Space(vm, s) && (W in perm ==> W in Space(vm, s)[v].bits)
  }

  /** No address space, page use, count or free-list entry changed, nor any page in use. */
  ghost predicate Untouched(vm: Vm, vm': Vm)
    requires Shape(vm)
  {
    && Shape(vm') && |vm'.mem| == |vm.mem|
    && vm'.ref == vm.ref && vm'.kind == vm.kind && vm'.dir == vm.dir && vm'.free == vm.free
    && (forall f | 0 <= f < |vm.mem| && vm.kind[f] != Free :: vm'.mem[f] == vm.mem[f])
    && (forall s: nat :: Space(vm', s) == Space(vm, s))
  }

  lemma TakeTables(vm: Vm, s: nat, v: nat)
    requires Inv(vm) && vm.free != [] && Live(vm, s) && v < UTOP_PAGES
    ensures vm.free[0] < |vm.mem| && Shape(Take(vm, true)) && Live(Take(vm, true), s)
    ensures HasTable(Take(vm, true), s, v / NPTENTRIES) == HasTable(vm, s, v / NPTENTRIES)
    ensures Take(vm, true).ref[vm.free[0]] == 0 && Take(vm, true).kind[vm.free[0]] == Held
  {
    TakeInv(vm, true);
    SameTablesOwned(vm, Take(vm, true));
    assert CountOk(vm, vm.free[0]);
  }

  /** page_alloc followed by page_free leaves the free list exactly as it was. */
  lemma TakeThenGiveBack(vm: Vm)
    requires Inv(vm) && vm.free != [] && NoneHeld(vm)
    ensures vm.free[0] < |vm.mem| && Shape(Take(vm, true)) && vm.free[0] !in Take(vm, true).free
    ensures var vm' := GiveBack(Take(vm, true), vm.free[0]);
            Inv(vm') && Untouched(vm, vm') && NoneHeld(vm')
  {
    TakeInv(vm, true);
    var vm1 := Take(vm, true);
    GiveBackInv(vm1, vm.free[0]);
    var vm' := GiveBack(vm1, vm.free[0]);
    assert vm'.kind == vm.kind;
    assert vm'.free == vm.free;
  }

  lemma AllocOnePage(vm: Vm, vm': Vm, s: nat, v: nat, w: Word)
    requires Inv(vm) && vm.free != [] && vm.free[0] < |vm.mem| && NoneHeld(vm)
    requires Shape(Take(vm, true)) && OnePage(Take(vm, true), vm', s, v, w) && w.frame == vm.free[0] && P in w.bits
    requires vm'.kind[w.frame] == User
    ensures OnePage(vm, vm', s, v, w) && NoneHeld(vm') && vm'.mem[w.frame] == ZeroFrame()
  {
    TakeInv(vm, true);
    var vm1 := Take(vm, true);
    forall f | 0 <= f < |vm.mem| && (vm.kind[f] == User || vm.kind[f] == Held) ensures vm'.mem[f] == vm.mem[f] {
      assert vm1.kind[f] == vm.kind[f];
    }
  }

  /** env_setup_vm as one step: a new, empty address space; the others are untouched. */
  lemma SetupSpaces(vm: Vm, s: nat)
    requires Inv(vm) && vm.free != [] && s < NENV && !Live(vm, s)
    requires NoneHeld(vm)
    ensures vm.free[0] < |vm.mem| && Shape(Take(vm, true))
    ensures var vm' := NewDir(Take(vm, true), s, vm.free[0]);
            && Inv(vm') && |vm'.mem| == |vm.mem| && vm'.dir == vm.dir[s := vm.free[0]]
            && Space(vm', s) == map[] && (forall s': nat :: Space(vm', s') == Space(vm, s'))
            && DataKept(vm, vm') && SameKernel(vm, vm')
            && NoneHeld(vm')
  {
    TakeInv(vm, true);
    NewDirInv(Take(vm, true), s, vm.free[0]);
    assert Space(vm, s) == map[];
  }
}
