/** The kernel's own half of the address space, which boot_map_region builds in kern_pgdir
    before any environment exists. */
module VmBoot {
  import opened Mmu
  import opened VmSpec
  import opened VmLemmas
  import opened VmTables

  /** Number of virtual pages of a 32-bit address space. */
  const ALL_PAGES := 1048576

  predicate KTableAt(vm: Vm, d: nat)
    requires Shape(vm)
  {
    && PDX_UTOP <= d < NPDENTRIES && d != PDX_UVPT
    && P in vm.mem[vm.kern][d].bits && vm.mem[vm.kern][d].frame < |vm.mem|
  }

  predicate KMapped(vm: Vm, v: nat)
    requires Shape(vm)
  {
    && v < ALL_PAGES && KTableAt(vm, v / NPTENTRIES)
    && P in vm.mem[vm.mem[vm.kern][v / NPTENTRIES].frame][v % NPTENTRIES].bits
  }

  function KEntry(vm: Vm, v: nat): Word
    requires Shape(vm) && KMapped(vm, v)
  {
    vm.mem[vm.mem[vm.kern][v / NPTENTRIES].frame][v % NPTENTRIES]
  }

  /** The kernel mappings above UTOP, other than the self-map at UVPT. */
  function KSpace(vm: Vm): (m: map<nat, Word>)
    requires Shape(vm)
    ensures forall v :: v in m <==> KMapped(vm, v)
    ensures forall v | v in m :: m[v] == KEntry(vm, v)
  {
    map v | 0 <= v < ALL_PAGES && KMapped(vm, v) :: KEntry(vm, v)
  }

  ghost predicate NoEnvs(vm: Vm)
    requires Shape(vm)
  {
    forall s: nat :: !Live(vm, s)
  }

  function NewKTable(vm: Vm, d: nat, f: nat): Vm
    requires Shape(vm) && d < NPDENTRIES && f < |vm.mem|
  {
    Put(vm, vm.kern, d, Word(f, {U, P, W})).(ref := vm.ref[f := 1], kind := vm.kind[f := KTable(d)])
  }

  ghost predicate CanGrowKernel(vm: Vm, d: nat, f: nat) {
    && Inv(vm) && NoEnvs(vm) && PDX_UTOP <= d < NPDENTRIES && d != PDX_UVPT
    && P !in vm.mem[vm.kern][d].bits
    && f < |vm.mem| && vm.kind[f] == Held && Blank(vm.mem[f])
  }

  lemma NewKTableInv(vm: Vm, d: nat, f: nat)
    requires CanGrowKernel(vm, d, f)
    ensures var vm' := NewKTable(vm, d, f);
            Inv(vm') && NoEnvs(vm') && KTableAt(vm', d) && vm'.mem[vm'.kern][d].frame == f
  {
    var vm' := NewKTable(vm, d, f);
    assert forall g | 0 <= g < |vm.kind| :: !vm.kind[g].Table? && !vm.kind[g].Dir?;
    SameRefs(vm, vm');
    KeepCounted(vm, vm', f);
    assert FreeOk(vm');
  }

  lemma NewKTableSpace(vm: Vm, d: nat, f: nat)
    requires CanGrowKernel(vm, d, f)
    ensures Shape(NewKTable(vm, d, f)) && KSpace(NewKTable(vm, d, f)) == KSpace(vm)
  {
    var vm' := NewKTable(vm, d, f);
    forall v: nat ensures KMapped(vm', v) == KMapped(vm, v)
                  ensures KMapped(vm, v) ==> KEntry(vm', v) == KEntry(vm, v) {
      if KTableAt(vm, v / NPTENTRIES) {
        assert vm.kind[vm.mem[vm.kern][v / NPTENTRIES].frame] == KTable(v / NPTENTRIES);
      }
    }
  }

  lemma TakeKSpace(vm: Vm)
    requires Inv(vm) && vm.free != []
    ensures vm.free[0] < |vm.mem| && Shape(Take(vm, true)) && KSpace(Take(vm, true)) == KSpace(vm)
  {
    TakeInv(vm, true);
    var vm1 := Take(vm, true);
    forall v: nat ensures KMapped(vm1, v) == KMapped(vm, v)
                  ensures KMapped(vm, v) ==> KEntry(vm1, v) == KEntry(vm, v) {
      if KTableAt(vm, v / NPTENTRIES) {
        assert vm.kind[vm.mem[vm.kern][v / NPTENTRIES].frame] == KTable(v / NPTENTRIES);
      }
    }
  }

  /** pgdir_walk on kern_pgdir adds a blank table and so no mapping. */
  lemma GrowKernel(vm: Vm, d: nat)
    requires Inv(vm) && NoEnvs(vm) && PDX_UTOP <= d < NPDENTRIES && d != PDX_UVPT
    requires P !in vm.mem[vm.kern][d].bits && vm.free != []
    ensures vm.free[0] < |vm.mem| && Shape(Take(vm, true)) && Take(vm, true).ref[vm.free[0]] == 0
    ensures var vm' := NewKTable(Take(vm, true), d, vm.free[0]);
            && Inv(vm') && NoEnvs(vm') && KTableAt(vm', d)
            && vm'.mem[vm'.kern][d].frame == vm.free[0] && KSpace(vm') == KSpace(vm)
  {
    TakeInv(vm, true);
    TakeKSpace(vm);
    var vm1 := Take(vm, true);
    assert CountOk(vm1, vm.free[0]);
    NewKTableInv(vm1, d, vm.free[0]);
    NewKTableSpace(vm1, d, vm.free[0]);
  }

  /** Before any table exists the invariant is about the free list alone. */
  lemma FreshInv(vm: Vm)
    requires Shape(vm) && NoDup(vm.free)
    requires forall s: nat :: !Live(vm, s)
    requires forall d | 0 <= d < NPDENTRIES && d != PDX_UVPT :: P !in vm.mem[vm.kern][d].bits
    requires forall f | 0 <= f < |vm.mem| :: vm.kind[f] == (if f in vm.free then Free else Fixed)
    requires forall f | 0 <= f < |vm.mem| :: vm.ref[f] == if f in vm.free then 0 else 1
    requires forall f | f in vm.free :: f < |vm.mem|
    requires vm.kern !in vm.free
    ensures Inv(vm)
  {
    assert forall i | 0 <= i < |vm.free| :: vm.free[i] in vm.free;
    assert forall x: Slot :: !IsPresent(vm, x);
    assert Owned(vm) && KernelShared(vm);
  }

  lemma PutKernelInv(vm: Vm, d: nat, i: nat, w: Word)
    requires Inv(vm) && KTableAt(vm, d) && i < NPTENTRIES
    ensures Inv(Put(vm, vm.mem[vm.kern][d].frame, i, w))
  {
    var t := vm.mem[vm.kern][d].frame;
    var vm' := Put(vm, t, i, w);
    assert vm.kind[t] == KTable(d);
    assert SameTables(vm, vm');
    SameTablesOwned(vm, vm');
    SameRefs(vm, vm');
    assert CountOk(vm, t);
    KeepCounted(vm, vm', t);
  }

  /** Writing one kernel page-table word changes the mapping of one kernel page. */
  lemma PutKernelEntry(vm: Vm, d: nat, i: nat, w: Word)
    requires Inv(vm) && NoEnvs(vm) && KTableAt(vm, d) && i < NPTENTRIES && P in w.bits
    ensures var vm' := Put(vm, vm.mem[vm.kern][d].frame, i, w);
            Inv(vm') && NoEnvs(vm') && KSpace(vm') == KSpace(vm)[Vpn(d, i) := w]
  {
    hide Inv;
    hide KTableAt;
    hide KMapped;
    hide KEntry;
    PutKernelInv(vm, d, i, w);
    KTableFrame(vm, d);
    PutKernelHere(vm, d, i, w);
    var vm' := Put(vm, vm.mem[vm.kern][d].frame, i, w);
    forall s: nat ensures !Live(vm', s) { assert !Live(vm, s); }
    forall v: nat | v != Vpn(d, i)
      ensures KMapped(vm', v) == KMapped(vm, v) && (KMapped(vm, v) ==> KEntry(vm', v) == KEntry(vm, v))
    {
      PutKernelElsewhere(vm, d, i, w, v);
    }
  }

  lemma KTableFrame(vm: Vm, d: nat)
    requires Inv(vm) && KTableAt(vm, d)
    ensures Shape(vm) && d < NPDENTRIES && vm.mem[vm.kern][d].frame < |vm.mem|
  {
  }

  lemma PutKernelHere(vm: Vm, d: nat, i: nat, w: Word)
    requires Inv(vm) && KTableAt(vm, d) && i < NPTENTRIES && P in w.bits
    ensures var vm' := Put(vm, vm.mem[vm.kern][d].frame, i, w);
            Shape(vm') && KMapped(vm', Vpn(d, i)) && KEntry(vm', Vpn(d, i)) == w
  {
    hide Counted;
    hide FreeOk;
    hide Owned;
    assert vm.kind[vm.mem[vm.kern][d].frame] == KTable(d);
  }

  lemma PutKernelElsewhere(vm: Vm, d: nat, i: nat, w: Word, v: nat)
    requires Inv(vm) && KTableAt(vm, d) && i < NPTENTRIES && v != Vpn(d, i)
    ensures var vm' := Put(vm, vm.mem[vm.kern][d].frame, i, w);
            && Shape(vm') && KMapped(vm', v) == KMapped(vm, v)
            && (KMapped(vm, v) ==> KEntry(vm', v) == KEntry(vm, v))
  {
    hide Counted;
    hide FreeOk;
    hide Owned;
    assert vm.kind[vm.mem[vm.kern][d].frame] == KTable(d);
    if KTableAt(vm, v / NPTENTRIES) {
      assert vm.kind[vm.mem[vm.kern][v / NPTENTRIES].frame] == KTable(v / NPTENTRIES);
    }
  }

  /** What boot_map_region has mapped after n pages. */
  function Region(m: map<nat, Word>, v: nat, pa: nat, perm: Bits, n: nat): map<nat, Word> {
    if n == 0 then m else Region(m, v, pa, perm, n - 1)[v + n - 1 := Word(pa + n - 1, {P} + perm)]
  }

  /** Page v + k of the region maps frame pa + k; every other page is as it was. */
  lemma {:induction false} RegionAt(m: map<nat, Word>, v: nat, pa: nat, perm: Bits, n: nat, u: nat)
    ensures u in Region(m, v, pa, perm, n) <==> u in m || v <= u < v + n
    ensures v <= u < v + n ==> Region(m, v, pa, perm, n)[u] == Word(pa + (u - v), {P} + perm)
    ensures u in m && !(v <= u < v + n) ==> Region(m, v, pa, perm, n)[u] == m[u]
  {
    if n > 0 {
      RegionAt(m, v, pa, perm, n - 1, u);
    }
  }

  lemma RegionStep(m: map<nat, Word>, v: nat, pa: nat, perm: Bits, n: nat)
    ensures Region(m, v, pa, perm, n + 1) == Region(m, v, pa, perm, n)[v + n := Word(pa + n, {P} + perm)]
  {
  }

  /** Page v has no page table in the kernel's directory. */
  predicate NoKTable(vm: Vm, v: nat)
    requires Shape(vm)
  {
    !KTableAt(vm, v / NPTENTRIES)
  }

  /** Does the range of pages stay above UTOP and clear of the self-map? */
  predicate KernelRange(v: nat, n: nat) {
    && PDX_UTOP * NPTENTRIES <= v && v + n <= ALL_PAGES
    && (v + n <= PDX_UVPT * NPTENTRIES || v >= (PDX_UVPT + 1) * NPTENTRIES)
  }
}
