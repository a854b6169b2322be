/** kern/pmap.c: the free-list page allocator, reference counts and two-level page tables,
    with the address-space half of kern/env.c (env_setup_vm, env_free). */
module Pmap {
  import opened Errors
  import opened Mmu
  import opened VmSpec
  import opened VmLemmas
  import opened VmTables
  import opened VmBoot
  import VmTheorems

  /** PGNUM(MPENTRY_PADDR). */
  const MPENTRY_PAGE := 7

  /** The pages page_init hands out. */
  predicate Allocatable(f: nat, npagesBasemem: nat, kernelEndPage: nat) {
    f != 0 && f != MPENTRY_PAGE && !(npagesBasemem <= f < kernelEndPage)
  }

  function Nth(free: seq<nat>, i: nat): int {
    if i < |free| then free[i] else -1
  }

  /** The i-th free page links to the next one. */
  predicate LinkAt(link: seq<int>, free: seq<nat>, i: nat)
    requires i < |free| && free[i] < |link|
  {
    link[free[i]] == Nth(free, i + 1)
  }

  /** The pp_link fields, followed from the head, spell out the free list; every page that is
      not on it has a null link. */
  predicate Chain(link: seq<int>, head: int, free: seq<nat>) {
    && head == Nth(free, 0)
    && (forall i | 0 <= i < |free| :: free[i] < |link|)
    && (forall i | 0 <= i < |free| :: LinkAt(link, free, i))
    && (forall f | 0 <= f < |link| && f !in free :: link[f] == -1)
  }

  /** The contents of pages that belong to users, or are about to, survive. */
  ghost predicate DataKept(vm: Vm, vm': Vm)
    requires Shape(vm) && Shape(vm') && |vm.mem| == |vm'.mem|
  {
    forall f | 0 <= f < |vm.mem| && (vm.kind[f] == User || vm.kind[f] == Held) :: vm'.mem[f] == vm.mem[f]
  }

  lemma ChainTail(link: seq<int>, head: int, free: seq<nat>)
    requires Chain(link, head, free) && NoDup(free) && free != []
    ensures 0 <= head < |link| && Chain(link[head := -1], link[head], free[1..]) && NoDup(free[1..])
  {
    var tail := free[1..];
    assert forall i | 0 <= i < |tail| :: tail[i] == free[i + 1];
    assert forall f | 0 <= f < |link| && f !in tail && f != head :: f !in free;
    assert LinkAt(link, free, 0);
    forall i | 0 <= i < |tail| ensures tail[i] < |link| && LinkAt(link[head := -1], tail, i) {
      assert LinkAt(link, free, i + 1);
    }
  }

  lemma ChainPush(link: seq<int>, head: int, free: seq<nat>, pp: nat)
    requires Chain(link, head, free) && NoDup(free) && pp < |link| && pp !in free
    ensures Chain(link[pp := head], pp, [pp] + free) && NoDup([pp] + free)
  {
    var free' := [pp] + free;
    assert forall i | 0 < i < |free'| :: free'[i] == free[i - 1];
    forall i | 0 <= i < |free'| ensures free'[i] < |link| && LinkAt(link[pp := head], free', i) {
      if i > 0 { assert LinkAt(link, free, i - 1); }
    }
  }

  /** The pages that stay with the kernel for good. */
  predicate IsKernel(k: Kind) {
    k.Fixed? || k.KTable?
  }

  ghost predicate SameKernel(vm: Vm, vm': Vm)
    requires Shape(vm) && Shape(vm') && |vm.mem| == |vm'.mem|
  {
    forall f | 0 <= f < |vm.mem| :: IsKernel(vm'.kind[f]) == IsKernel(vm.kind[f])
  }

  /** Only page tables were added: same address spaces, same user pages. */
  ghost predicate Quiet(vm: Vm, vm': Vm)
    requires Shape(vm)
  {
    && Shape(vm') && |vm'.mem| == |vm.mem| && vm'.dir == vm.dir
    && (forall s: nat :: Space(vm', s) == Space(vm, s))
    && DataKept(vm, vm') && SameKernel(vm, vm')
    && (forall f | 0 <= f < |vm.mem| && (vm.kind[f] == User || vm.kind[f] == Held) ::
          vm'.kind[f] == vm.kind[f] && vm'.ref[f] == vm.ref[f])
    && (forall f | 0 <= f < |vm.mem| && vm'.kind[f] == Held :: vm.kind[f] == Held)
  }

  /** pgdir_walk's new table: the state it leaves and why it is quiet. */
  lemma GrowQuiet(vm: Vm, s: nat, d: nat)
    requires Inv(vm) && Live(vm, s) && d < PDX_UTOP && P !in Pde(vm, s, d).bits && vm.free != []
    ensures vm.free[0] < |vm.mem|
    ensures Inv(Take(vm, true)) && Live(Take(vm, true), s)
    ensures var vm' := NewTable(Take(vm, true), s, d, vm.free[0]);
            Inv(vm') && Quiet(vm, vm') && HasTable(vm', s, d) && Pde(vm', s, d).frame == vm.free[0]
  {
    TakeInv(vm, true);
    var vm1, pp := Take(vm, true), vm.free[0];
    assert vm.kind[vm.dir[s]] == Dir(s);
    assert Pde(vm1, s, d) == Pde(vm, s, d);
    NewTableInv(vm1, s, d, pp);
    var vm' := NewTable(vm1, s, d, pp);
    assert Pde(vm', s, d) == Word(pp, {U, P, W});
  }

  /** Exactly page v of slot s changed: to the mapping w, or to nothing when w is not present.
      No page contents changed, and no other page became or stopped being held. */
  ghost predicate OnePage(vm: Vm, vm': Vm, s: nat, v: nat, w: Word)
    requires Shape(vm)
  {
    && Shape(vm') && |vm'.mem| == |vm.mem| && vm'.dir == vm.dir
    && (forall s': nat :: Space(vm', s') ==
          if s' != s then Space(vm, s')
          else if P in w.bits then Space(vm, s)[v := w] else Space(vm, s) - {v})
    && DataKept(vm, vm') && SameKernel(vm, vm')
    && (forall f | 0 <= f < |vm.mem| && (P !in w.bits || f != w.frame) :: vm'.kind[f] == Held <==> vm.kind[f] == Held)
  }

  /** What user mode can do with the page just mapped. */
  lemma JustMapped(vm: Vm, vm': Vm, s: nat, v: nat, pp: nat, perm: Bits)
    requires Shape(vm) && OnePage(vm, vm', s, v, Word(pp, {P} + perm)) && Inv(vm') && Live(vm', s) && v < UTOP_PAGES
    ensures forall f :: VmTheorems.CanRead(vm', s, v, f) <==> U in perm && f == pp
    ensures forall f :: VmTheorems.CanWrite(vm', s, v, f) <==> {U, W} <= perm && f == pp
  {
    hide Inv;
    hide VmTheorems.CanRead;
    hide VmTheorems.CanWrite;
    assert Space(vm', s)[v] == Word(pp, {P} + perm);
    forall f: nat
      ensures VmTheorems.CanRead(vm', s, v, f) <==> U in perm && f == pp
      ensures VmTheorems.CanWrite(vm', s, v, f) <==> {U, W} <= perm && f == pp
    {
      VmTheorems.UserAccessIff(vm', s, v, f);
    }
  }

  lemma TableSlot(vm: Vm, s: nat, v: nat) returns (t: nat)
    requires Inv(vm) && HasTable(vm, s, v / NPTENTRIES) && v < UTOP_PAGES
    ensures t == Pde(vm, s, v / NPTENTRIES).frame && t < |vm.mem| && vm.kind[t] == Table(s, v / NPTENTRIES)
    ensures Vpn(v / NPTENTRIES, v % NPTENTRIES) == v
    ensures IsPresent(vm, Slot(t, v % NPTENTRIES)) <==> v in Space(vm, s)
    ensures v in Space(vm, s) ==> vm.mem[t][v % NPTENTRIES] == Space(vm, s)[v]
  {
    t := Pde(vm, s, v / NPTENTRIES).frame;
  }

  /** The page-table word of a mapped page can be unlinked. */
  lemma MappedSlot(vm: Vm, s: nat, v: nat) returns (t: nat)
    requires Inv(vm) && Mapped(vm, s, v)
    ensures t == Pde(vm, s, v / NPTENTRIES).frame && IsPresent(vm, Slot(t, v % NPTENTRIES))
    ensures vm.kind[t] == Table(s, v / NPTENTRIES) && Vpn(v / NPTENTRIES, v % NPTENTRIES) == v
    ensures var f := vm.mem[t][v % NPTENTRIES].frame;
            f < |vm.mem| && vm.ref[f] >= 1 && vm.kind[f] == User && f !in vm.free
    ensures Inv(Unlink(vm, t, v % NPTENTRIES)) && SameTables(vm, Unlink(vm, t, v % NPTENTRIES))
  {
    t := TableSlot(vm, s, v);
    UnlinkInv(vm, t, v % NPTENTRIES);
  }

  /** Environment s lost mappings; the other address spaces and all page contents are intact. */
  ghost predicate Released(vm: Vm, vm': Vm, s: nat)
    requires Shape(vm)
  {
    && Shape(vm') && |vm'.mem| == |vm.mem| && vm'.kern == vm.kern
    && (forall s': nat | s' != s && s' < NENV :: vm'.dir[s'] == vm.dir[s'])
    && (forall s': nat | s' != s :: Space(vm', s') == Space(vm, s'))
    && (forall f | 0 <= f < |vm.mem| && !Structural(vm.kind[f]) ::
          vm'.mem[f] == vm.mem[f] && !Structural(vm'.kind[f]))
    && (forall f | 0 <= f < |vm.mem| :: Outlives(vm'.kind[f], vm.kind[f]))
  }

  /** How a frame's use may change while an environment is torn down. */
  predicate Outlives(k': Kind, k: Kind) {
    k' == k || (k' == Free && !k.Held? && !k.Fixed? && !k.KTable?)
  }

  lemma ReleasedTrans(vm: Vm, vm1: Vm, vm': Vm, s: nat)
    requires Shape(vm) && Released(vm, vm1, s) && Released(vm1, vm', s)
    ensures Released(vm, vm', s)
  {
  }

  lemma SameTablesTrans(vm: Vm, vm1: Vm, vm': Vm)
    requires Shape(vm) && SameTables(vm, vm1) && SameTables(vm1, vm')
    ensures SameTables(vm, vm')
  {
  }

  lemma DropThenClear(vm: Vm, t: nat, i: nat)
    requires Shape(vm) && t < |vm.mem| && i < NPTENTRIES
    requires vm.mem[t][i].frame < |vm.mem| && vm.ref[vm.mem[t][i].frame] >= 1
    ensures Shape(Drop(vm, vm.mem[t][i].frame))
    ensures Put(Drop(vm, vm.mem[t][i].frame), t, i, ZERO) == Unlink(vm, t, i)
    ensures forall f | 0 <= f < |vm.mem| && f != vm.mem[t][i].frame ::
              Unlink(vm, t, i).kind[f] == vm.kind[f] && Unlink(vm, t, i).ref[f] == vm.ref[f]
  {
  }

  lemma UnlinkOnePage(vm: Vm, vm': Vm, s: nat, v: nat, t: nat)
    requires Shape(vm) && Inv(vm) && Mapped(vm, s, v) && t == Pde(vm, s, v / NPTENTRIES).frame < |vm.mem|
    requires var f := vm.mem[t][v % NPTENTRIES].frame; f < |vm.mem| && vm.ref[f] >= 1 && vm.kind[f] == User
    requires vm.kind[t] == Table(s, v / NPTENTRIES) && Vpn(v / NPTENTRIES, v % NPTENTRIES) == v
    requires vm' == Unlink(vm, t, v % NPTENTRIES) && SameTables(vm, vm')
    ensures OnePage(vm, vm', s, v, ZERO)
    ensures HasTable(vm', s, v / NPTENTRIES) && Pde(vm', s, v / NPTENTRIES) == Pde(vm, s, v / NPTENTRIES)
  {
    hide Inv;
    hide Space;
    UnlinkSpaces(vm, vm', s, v, t);
  }

  lemma UnlinkSpaces(vm: Vm, vm': Vm, s: nat, v: nat, t: nat)
    requires Inv(vm) && Mapped(vm, s, v) && t == Pde(vm, s, v / NPTENTRIES).frame < |vm.mem|
    requires var f := vm.mem[t][v % NPTENTRIES].frame; f < |vm.mem| && vm.ref[f] >= 1 && vm.kind[f] == User
    requires vm.kind[t] == Table(s, v / NPTENTRIES) && Vpn(v / NPTENTRIES, v % NPTENTRIES) == v
    requires vm' == Unlink(vm, t, v % NPTENTRIES) && SameTables(vm, vm')
    ensures Shape(vm') && forall s': nat :: Space(vm', s') == if s' != s then Space(vm, s') else Space(vm, s) - {v}
    ensures HasTable(vm', s, v / NPTENTRIES) && Pde(vm', s, v / NPTENTRIES) == Pde(vm, s, v / NPTENTRIES)
  {
    hide Counted;
    hide FreeOk;
    SameTablesOwned(vm, vm');
    forall s': nat ensures Space(vm', s') == if s' != s then Space(vm, s') else Space(vm, s) - {v} {
      PutSpace(vm, vm', t, v % NPTENTRIES, s');
    }
  }

  lemma UnlinkReleased(vm: Vm, vm': Vm, s: nat, v: nat, t: nat)
    requires Shape(vm) && t < |vm.mem| && vm.kind[t].Table?
    requires var f := vm.mem[t][v % NPTENTRIES].frame; f < |vm.mem| && vm.ref[f] >= 1 && vm.kind[f] == User
    requires vm' == Unlink(vm, t, v % NPTENTRIES) && OnePage(vm, vm', s, v, ZERO)
    ensures Released(vm, vm', s)
  {
  }

  lemma LinkOnePage(vm: Vm, s: nat, v: nat, pp: nat, bits: Bits)
    requires Inv(vm) && HasTable(vm, s, v / NPTENTRIES) && v < UTOP_PAGES && !Mapped(vm, s, v)
    requires pp < |vm.mem| && (vm.kind[pp] == User || vm.kind[pp] == Held) && P in bits
    ensures var vm' := Link(vm, Pde(vm, s, v / NPTENTRIES).frame, v % NPTENTRIES, pp, bits);
            Inv(vm') && OnePage(vm, vm', s, v, Word(pp, bits)) && HasTable(vm', s, v / NPTENTRIES)
  {
    var t := TableSlot(vm, s, v);
    LinkInv(vm, t, v % NPTENTRIES, pp, bits);
    var vm' := Link(vm, t, v % NPTENTRIES, pp, bits);
    SameTablesOwned(vm, vm');
    forall s': nat ensures Space(vm', s') == if s' != s then Space(vm, s') else Space(vm, s)[v := Word(pp, bits)] {
      PutSpace(vm, vm', t, v % NPTENTRIES, s');
    }
  }

  lemma RepermOnePage(vm: Vm, s: nat, v: nat, bits: Bits)
    requires Inv(vm) && Mapped(vm, s, v) && P in bits
    ensures var t, i := Pde(vm, s, v / NPTENTRIES).frame, v % NPTENTRIES;
            var w := Word(vm.mem[t][i].frame, bits);
            Inv(Put(vm, t, i, w)) && OnePage(vm, Put(vm, t, i, w), s, v, w)
  {
    var t := TableSlot(vm, s, v);
    var i := v % NPTENTRIES;
    RepermInv(vm, t, i, bits);
    var vm' := Put(vm, t, i, Word(vm.mem[t][i].frame, bits));
    forall s': nat
      ensures Space(vm', s') == if s' != s then Space(vm, s') else Space(vm, s)[v := Word(vm.mem[t][i].frame, bits)]
    {
      PutSpace(vm, vm', t, i, s');
    }
  }

  lemma OrPdeQuiet(vm: Vm, s: nat, d: nat, perm: Bits)
    requires Inv(vm) && HasTable(vm, s, d)
    ensures Inv(OrPde(vm, s, d, perm)) && Quiet(vm, OrPde(vm, s, d, perm))
  {
    OrPdeInv(vm, s, d, perm);
    assert vm.kind[vm.dir[s]] == Dir(s);
  }

  lemma QuietThenOnePage(vm: Vm, vm1: Vm, vm': Vm, s: nat, v: nat, w: Word)
    requires Shape(vm) && Quiet(vm, vm1) && OnePage(vm1, vm', s, v, w)
    ensures OnePage(vm, vm', s, v, w)
  {
  }

  lemma OnePageThenQuiet(vm: Vm, vm1: Vm, vm': Vm, s: nat, v: nat, w: Word)
    requires Shape(vm) && OnePage(vm, vm1, s, v, w) && Quiet(vm1, vm') && DataKept(vm, vm')
    ensures OnePage(vm, vm', s, v, w)
  {
  }

  lemma OnePageTwice(vm: Vm, vm1: Vm, vm': Vm, s: nat, v: nat, w: Word)
    requires Shape(vm) && OnePage(vm, vm1, s, v, ZERO) && OnePage(vm1, vm', s, v, w) && DataKept(vm, vm')
    ensures OnePage(vm, vm', s, v, w)
  {
    hide Space;
    hide Shape;
    hide Live;
    assert Space(vm', s) == if P in w.bits then Space(vm, s)[v := w] else Space(vm, s) - {v};
  }

  /** page_insert's last three statements on an empty entry whose table exists. */
  function Place(vm: Vm, s: nat, v: nat, pp: nat, perm: Bits): Vm
    requires Shape(vm) && HasTable(vm, s, v / NPTENTRIES) && pp < |vm.mem|
  {
    var vm1 := Link(vm, Pde(vm, s, v / NPTENTRIES).frame, v % NPTENTRIES, pp, {P} + perm);
    OrPde(vm1, s, v / NPTENTRIES, perm)
  }

  lemma PlaceOnePage(vm: Vm, s: nat, v: nat, pp: nat, perm: Bits)
    requires Shape(vm) && Inv(vm) && HasTable(vm, s, v / NPTENTRIES) && v < UTOP_PAGES && !Mapped(vm, s, v)
    requires pp < |vm.mem| && (vm.kind[pp] == User || vm.kind[pp] == Held)
    ensures Inv(Place(vm, s, v, pp, perm)) && Place(vm, s, v, pp, perm).kind[pp] == User
    ensures OnePage(vm, Place(vm, s, v, pp, perm), s, v, Word(pp, {P} + perm))
    ensures forall f | 0 <= f < |vm.mem| && !Structural(vm.kind[f]) :: Place(vm, s, v, pp, perm).mem[f] == vm.mem[f]
  {
    hide Inv;
    hide Space;
    LinkOnePage(vm, s, v, pp, {P} + perm);
    PlaceData(vm, s, v, pp, perm);
    var vm1 := Link(vm, Pde(vm, s, v / NPTENTRIES).frame, v % NPTENTRIES, pp, {P} + perm);
    OrPdeQuiet(vm1, s, v / NPTENTRIES, perm);
    OnePageThenQuiet(vm, vm1, Place(vm, s, v, pp, perm), s, v, Word(pp, {P} + perm));
  }

  /** page_insert writes to a page table and to a page directory only. */
  lemma PlaceData(vm: Vm, s: nat, v: nat, pp: nat, perm: Bits)
    requires Inv(vm) && HasTable(vm, s, v / NPTENTRIES) && v < UTOP_PAGES && pp < |vm.mem|
    ensures Shape(Place(vm, s, v, pp, perm)) && |Place(vm, s, v, pp, perm).mem| == |vm.mem|
    ensures forall f | 0 <= f < |vm.mem| && !Structural(vm.kind[f]) :: Place(vm, s, v, pp, perm).mem[f] == vm.mem[f]
  {
    var t := TableSlot(vm, s, v);
    assert vm.kind[vm.dir[s]] == Dir(s);
  }

  /** Replacing a mapping is removing it and then placing the new one. */
  lemma ReplaceOnePage(vm: Vm, vm1: Vm, s: nat, v: nat, pp: nat, perm: Bits)
    requires Shape(vm) && OnePage(vm, vm1, s, v, ZERO) && SameTables(vm, vm1)
    requires Inv(vm1) && HasTable(vm1, s, v / NPTENTRIES) && v < UTOP_PAGES && !Mapped(vm1, s, v)
    requires pp < |vm1.mem| && (vm1.kind[pp] == User || vm1.kind[pp] == Held)
    ensures var vm' := Place(vm1, s, v, pp, perm);
            Inv(vm') && vm'.kind[pp] == User && OnePage(vm, vm', s, v, Word(pp, {P} + perm))
  {
    hide Counted;
    hide FreeOk;
    hide Owned;
    hide KernelShared;
    PlaceOnePage(vm1, s, v, pp, perm);
    var vm' := Place(vm1, s, v, pp, perm);
    forall f | 0 <= f < |vm.mem| && (vm.kind[f] == User || vm.kind[f] == Held) ensures vm'.mem[f] == vm.mem[f] {
      assert !Structural(vm1.kind[f]);
    }
    OnePageTwice(vm, vm1, vm', s, v, Word(pp, {P} + perm));
  }

  /** The first i entries of table d of slot s map nothing. */
  ghost predicate ClearTo(vm: Vm, s: nat, d: nat, i: nat)
    requires Shape(vm) && i <= NPTENTRIES
  {
    forall j | 0 <= j < i :: Vpn(d, j) !in Space(vm, s)
  }

  /** The first d directory entries of slot s name no table. */
  ghost predicate BareTo(vm: Vm, s: nat, d: nat)
    requires Shape(vm) && d <= PDX_UTOP
  {
    Live(vm, s) && forall d' | 0 <= d' < d :: P !in Pde(vm, s, d').bits
  }

  lemma ClearSkip(vm: Vm, s: nat, d: nat, i: nat)
    requires Inv(vm) && HasTable(vm, s, d) && i < NPTENTRIES && ClearTo(vm, s, d, i)
    requires P !in vm.mem[Pde(vm, s, d).frame][i].bits
    ensures ClearTo(vm, s, d, i + 1)
  {
    var t := TableSlot(vm, s, Vpn(d, i));
  }

  lemma BareSkip(vm: Vm, s: nat, d: nat)
    requires Inv(vm) && d < PDX_UTOP && BareTo(vm, s, d)
    ensures P in Pde(vm, s, d).bits ==> HasTable(vm, s, d)
    ensures P !in Pde(vm, s, d).bits ==> BareTo(vm, s, d + 1)
  {
  }

  lemma ClearedTable(vm: Vm, s: nat, d: nat)
    requires Inv(vm) && HasTable(vm, s, d)
    requires ClearTo(vm, s, d, NPTENTRIES)
    ensures CanShrink(vm, s, d)
  {
    var t := Pde(vm, s, d).frame;
    forall j | 0 <= j < NPTENTRIES ensures P !in vm.mem[t][j].bits {
      var t' := TableSlot(vm, s, Vpn(d, j));
    }
  }

  lemma ClearStep(vm0: Vm, vm1: Vm, vm2: Vm, s: nat, d: nat, i: nat)
    requires Inv(vm0) && Inv(vm1) && i < NPTENTRIES && d < PDX_UTOP
    requires SameTables(vm0, vm1) && Released(vm0, vm1, s)
    requires SameTables(vm1, vm2) && Released(vm1, vm2, s) && OnePage(vm1, vm2, s, Vpn(d, i), ZERO)
    requires ClearTo(vm1, s, d, i)
    ensures SameTables(vm0, vm2) && Released(vm0, vm2, s)
    ensures HasTable(vm2, s, d) == HasTable(vm1, s, d)
    ensures ClearTo(vm2, s, d, i + 1)
  {
    ReleasedTrans(vm0, vm1, vm2, s);
    SameTablesTrans(vm0, vm1, vm2);
    SameTablesOwned(vm1, vm2);
  }

  lemma FreeTableReleased(vm: Vm, s: nat, d: nat)
    requires CanShrink(vm, s, d)
    ensures vm.ref[Pde(vm, s, d).frame] == 1
    ensures Inv(FreeTable(vm, s, d)) && Released(vm, FreeTable(vm, s, d), s) && Live(FreeTable(vm, s, d), s)
    ensures forall d' | 0 <= d' < PDX_UTOP ::
              Pde(FreeTable(vm, s, d), s, d') == if d' == d then ZERO else Pde(vm, s, d')
    ensures Drop(vm, Pde(vm, s, d).frame).(mem := Put(vm, vm.dir[s], d, ZERO).mem) == FreeTable(vm, s, d)
  {
    FreeTableInv(vm, s, d);
    assert vm.kind[vm.dir[s]] == Dir(s);
    assert vm.kind[Pde(vm, s, d).frame] == Table(s, d);
  }

  lemma FreeDirReleased(vm: Vm, s: nat)
    requires Inv(vm) && Live(vm, s)
    requires forall d | 0 <= d < PDX_UTOP :: P !in Pde(vm, s, d).bits
    ensures vm.ref[vm.dir[s]] == 1 && vm.dir[s] !in vm.free
    ensures Inv(FreeDir(vm, s)) && !Live(FreeDir(vm, s), s) && Released(vm, FreeDir(vm, s), s)
  {
    FreeDirInv(vm, s);
    assert vm.kind[vm.dir[s]] == Dir(s);
  }

  class PageMap {
    const npages: nat
    const kern: nat
    var ref: seq<nat>
    var link: seq<int>
    var freeList: int
    var mem: seq<Frame>
    var dir: seq<int>
    ghost var kind: seq<Kind>
    ghost var free: seq<nat>

    ghost function S(): Vm
      reads this
    {
      Vm(ref, kind, mem, dir, free, kern)
    }

    ghost predicate Linked()
      reads this
    {
      && Shape(S()) && |mem| == |link| == npages
      && NoDup(free)
      && Chain(link, freeList, free)
    }

    ghost predicate Valid()
      reads this
    {
      Linked() && Inv(S())
    }

    /** page_init: page 0, the I/O hole with the kernel image, and the AP entry page are in
        use; every other page goes on the free list. */
    constructor PageInit(npages: nat, npagesBasemem: nat, kernelEndPage: nat, kernDir: nat, contents: seq<Frame>)
      requires 1 <= npagesBasemem <= kernDir < kernelEndPage <= npages == |contents|
      requires forall f | 0 <= f < npages :: |contents[f]| == NPTENTRIES
      requires forall d | 0 <= d < NPDENTRIES && d != PDX_UVPT :: P !in contents[kernDir][d].bits
      ensures Valid() && this.npages == npages && kern == kernDir && mem == contents
      ensures NoEnvs(S())
      ensures forall f | 0 <= f < npages :: f in free <==> Allocatable(f, npagesBasemem, kernelEndPage)
      ensures forall f | 0 <= f < npages :: kind[f] == if f in free then Free else Fixed
    {
      this.npages := npages;
      kern := kernDir;
      mem := contents;
      dir := seq(NENV, i => -1);
      ref := seq(npages, i => 1);
      link := seq(npages, i => -1);
      freeList := -1;
      kind := seq(npages, i => Fixed);
      free := [];
      new;
      BuildFreeList(npagesBasemem, kernelEndPage);
      FreshInv(S());
    }

    method BuildFreeList(npagesBasemem: nat, kernelEndPage: nat)
      requires 1 <= npagesBasemem && Linked() && free == []
      requires forall f | 0 <= f < npages :: kind[f] == Fixed && ref[f] == 1
      modifies this
      ensures Linked() && mem == old(mem) && dir == old(dir)
      ensures forall f | 0 <= f < npages :: f in free <==> Allocatable(f, npagesBasemem, kernelEndPage)
      ensures forall f | 0 <= f < npages :: kind[f] == (if f in free then Free else Fixed)
      ensures forall f | 0 <= f < npages :: ref[f] == if f in free then 0 else 1
      ensures forall f | f in free :: f < npages
    {
      var i := 1;
      while i < npages
        invariant 1 <= i && (i <= npages || npages == 0) && Linked()
        invariant mem == old(mem) && dir == old(dir)
        invariant forall f | 0 <= f < npages :: f in free <==> f < i && Allocatable(f, npagesBasemem, kernelEndPage)
        invariant forall f | 0 <= f < npages :: kind[f] == (if f in free then Free else Fixed)
        invariant forall f | 0 <= f < npages :: ref[f] == if f in free then 0 else 1
        invariant forall f | f in free :: f < npages
      {
        if (npagesBasemem <= i < kernelEndPage) || i == MPENTRY_PAGE {
          assert link[i := -1] == link && ref[i := 1] == ref;
          ref := ref[i := 1];
          link := link[i := -1];
        } else {
          PushInitial(i);
        }
        i := i + 1;
      }
    }

    method PushInitial(i: nat)
      requires Linked() && i < npages && i !in free
      modifies this
      ensures Linked() && mem == old(mem) && dir == old(dir) && free == [i] + old(free)
      ensures ref == old(ref)[i := 0] && kind == old(kind)[i := Free]
    {
      ChainPush(link, freeList, free, i);
      ref := ref[i := 0];
      link := link[i := freeList];
      freeList := i;
      kind := kind[i := Free];
      free := [i] + free;
    }

    /** page_alloc: the head of the free list, or NULL. */
    method PageAlloc(zero: bool) returns (pp: int)
      requires Valid()
      modifies this
      ensures Valid()
      ensures pp < 0 ==> pp == -1 && old(free) == [] && S() == old(S())
      ensures pp >= 0 ==> old(free) != [] && pp == old(free[0]) && pp < npages
      ensures pp >= 0 ==> S() == Take(old(S()), zero)
      ensures dir == old(dir)
    {
      hide Inv;
      if freeList == -1 {
        return -1;
      }
      TakeInv(S(), zero);
      ChainTail(link, freeList, free);
      pp := freeList;
      freeList := link[pp];
      link := link[pp := -1];
      if zero {
        mem := mem[pp := ZeroFrame()];
      }
      kind := kind[pp := Held];
      free := free[1..];
    }

    /** page_free; its panic test on pp_link and pp_ref cannot fire. */
    method PageFree(pp: nat)
      requires Linked() && pp < npages && pp !in free && ref[pp] == 0
      modifies this`link, this`freeList, this`kind, this`free
      ensures Linked() && S() == GiveBack(old(S()), pp)
    {
      assert link[pp] == -1;
      ChainPush(link, freeList, free, pp);
      link := link[pp := freeList];
      freeList := pp;
      kind := kind[pp := Free];
      free := [pp] + free;
    }

    /** page_decref: the page is freed with its last reference. */
    method PageDecref(pp: nat)
      requires Linked() && pp < npages && pp !in free && ref[pp] >= 1
      modifies this`ref, this`link, this`freeList, this`kind, this`free
      ensures Linked() && S() == Drop(old(S()), pp)
    {
      ref := ref[pp := ref[pp] - 1];
      if ref[pp] == 0 {
        PageFree(pp);
      }
    }

    /** pgdir_walk's reference to a fresh page table, and the directory entry naming it. */
    method AttachTable(s: nat, d: nat, pp: nat)
      requires Linked() && Live(S(), s) && d < PDX_UTOP && pp < npages && ref[pp] == 0
      modifies this`ref, this`mem, this`kind
      ensures Linked() && S() == NewTable(old(S()), s, d, pp)
    {
      ref := ref[pp := ref[pp] + 1];
      mem := mem[dir[s] := mem[dir[s]][d := Word(pp, {U, P, W})]];
      kind := kind[pp := Table(s, d)];
    }

    /** pgdir_walk: the frame of the page table that holds the entry of page v, or -1. */
    method PgdirWalk(s: nat, v: nat, create: bool) returns (t: int)
      requires Valid() && Live(S(), s) && v < UTOP_PAGES
      modifies this
      ensures Valid() && dir == old(dir)
      ensures t < 0 ==> t == -1 && S() == old(S()) && !HasTable(S(), s, v / NPTENTRIES)
      ensures t < 0 && create ==> free == []
      ensures t >= 0 ==> old(HasTable(S(), s, v / NPTENTRIES)) || (create && old(free) != [])
      ensures t >= 0 ==> HasTable(S(), s, v / NPTENTRIES) && Pde(S(), s, v / NPTENTRIES).frame == t
      ensures !create || old(HasTable(S(), s, v / NPTENTRIES)) ==> S() == old(S())
      ensures Quiet(old(S()), S())
    {
      var d := v / NPTENTRIES;
      if P !in mem[dir[s]][d].bits {
        if !create {
          return -1;
        }
        ghost var vm0 := S();
        var pp := PageAlloc(true);
        if pp == -1 {
          return -1;
        }
        GrowQuiet(vm0, s, d);
        assert CountOk(S(), pp);
        AttachTable(s, d, pp);
      }
      t := mem[dir[s]][d].frame;
    }

    /** page_lookup: the frame mapped at page v and its entry, or -1. */
    method PageLookup(s: nat, v: nat) returns (pp: int, w: Word)
      requires Valid() && Live(S(), s) && v < UTOP_PAGES
      ensures pp < 0 <==> v !in Space(S(), s)
      ensures pp >= 0 ==>
                v in Space(S(), s) && Space(S(), s)[v] == w && w.frame == pp && pp < npages && kind[pp] == User
    {
      var d := v / NPTENTRIES;
      if P !in mem[dir[s]][d].bits {
        return -1, ZERO;
      }
      var t := mem[dir[s]][d].frame;
      assert HasTable(S(), s, d);
      if P !in mem[t][v % NPTENTRIES].bits {
        return -1, ZERO;
      }
      assert Mapped(S(), s, v);
      w := mem[t][v % NPTENTRIES];
      pp := w.frame;
      assert IsPresent(S(), Slot(t, v % NPTENTRIES));
    }

    /** page_remove: page v of slot s, and nothing else, loses its mapping. */
    method PageRemove(s: nat, v: nat)
      requires Valid() && Live(S(), s) && v < UTOP_PAGES
      modifies this
      ensures Valid()
      ensures !old(Mapped(S(), s, v)) ==> S() == old(S())
      ensures OnePage(old(S()), S(), s, v, ZERO) && SameTables(old(S()), S())
      ensures old(HasTable(S(), s, v / NPTENTRIES)) ==>
                HasTable(S(), s, v / NPTENTRIES)
                && Pde(S(), s, v / NPTENTRIES) == old(Pde(S(), s, v / NPTENTRIES))
      ensures forall f | 0 <= f < npages && (!old(Mapped(S(), s, v)) || f != old(Entry(S(), s, v).frame)) ::
                kind[f] == old(kind[f]) && ref[f] == old(ref[f])
      ensures Released(old(S()), S(), s)
    {
      var pp, w := PageLookup(s, v);
      if pp < 0 {
        assert old(Space(S(), s)) - {v} == old(Space(S(), s));
        return;
      }
      ghost var vm0 := S();
      ghost var t0 := MappedSlot(vm0, s, v);
      DropThenClear(vm0, t0, v % NPTENTRIES);
      var t := mem[dir[s]][v / NPTENTRIES].frame;
      PageDecref(pp);
      ClearEntry(t, v % NPTENTRIES);
      UnlinkOnePage(vm0, S(), s, v, t);
      UnlinkReleased(vm0, S(), s, v, t);
    }

    method ClearEntry(t: nat, i: nat)
      requires Linked() && t < npages && i < NPTENTRIES
      modifies this`mem
      ensures Linked() && S() == Put(old(S()), t, i, ZERO)
    {
      mem := mem[t := mem[t][i := ZERO]];
    }

    method AddReference(t: nat, i: nat, pp: nat, perm: Bits)
      requires Linked() && t < npages && i < NPTENTRIES && pp < npages && ref[pp] < REF_MAX
      modifies this`ref, this`mem, this`kind
      ensures Linked() && S() == Link(old(S()), t, i, pp, {P} + perm)
    {
      ref := ref[pp := (ref[pp] + 1) % (REF_MAX + 1)];
      mem := mem[t := mem[t][i := Word(pp, {P} + perm)]];
      kind := kind[pp := User];
    }

    method WidenDirectory(s: nat, d: nat, perm: Bits)
      requires Linked() && Live(S(), s) && d < NPDENTRIES
      modifies this`mem
      ensures Linked() && S() == OrPde(old(S()), s, d, perm)
    {
      mem := mem[dir[s] := mem[dir[s]][d := Word(mem[dir[s]][d].frame, mem[dir[s]][d].bits + perm)]];
    }

    /** The rest of page_insert once the entry's table exists and the entry is empty. */
    method MapEmpty(s: nat, pp: nat, v: nat, perm: Bits)
      requires Linked() && HasTable(S(), s, v / NPTENTRIES)
      requires pp < npages && ref[pp] < REF_MAX
      modifies this`ref, this`mem, this`kind
      ensures Linked() && S() == Place(old(S()), s, v, pp, perm)
    {
      AddReference(mem[dir[s]][v / NPTENTRIES].frame, v % NPTENTRIES, pp, perm);
      WidenDirectory(s, v / NPTENTRIES, perm);
    }

    method SetEntry(t: nat, i: nat, w: Word)
      requires Linked() && t < npages && i < NPTENTRIES
      modifies this`mem
      ensures Linked() && S() == Put(old(S()), t, i, w)
    {
      mem := mem[t := mem[t][i := w]];
    }

    /** page_insert after pgdir_walk has found or made the table. */
    method InsertInTable(s: nat, pp: nat, v: nat, perm: Bits)
      requires Valid() && HasTable(S(), s, v / NPTENTRIES) && v < UTOP_PAGES
      requires pp < npages && (kind[pp] == User || kind[pp] == Held) && ref[pp] < REF_MAX
      modifies this
      ensures Valid() && kind[pp] == User
      ensures OnePage(old(S()), S(), s, v, Word(pp, {P} + perm))
    {
      ghost var vm0 := S();
      ghost var t0 := TableSlot(vm0, s, v);
      var t := mem[dir[s]][v / NPTENTRIES].frame;
      if P in mem[t][v % NPTENTRIES].bits {
        if mem[t][v % NPTENTRIES].frame == pp {
          RepermOnePage(vm0, s, v, {P} + perm);
          assert IsPresent(vm0, Slot(t, v % NPTENTRIES));
          SetEntry(t, v % NPTENTRIES, Word(pp, {P} + perm));
          return;
        }
        PageRemove(s, v);
        ReplaceOnePage(vm0, S(), s, v, pp, perm);
        MapEmpty(s, pp, v, perm);
        return;
      }
      PlaceOnePage(vm0, s, v, pp, perm);
      MapEmpty(s, pp, v, perm);
    }

    /** page_insert: either page v of slot s, and nothing else, becomes a mapping of pp, or
        the call fails for want of a page-table page and nothing at all changes. */
    method PageInsert(s: nat, pp: nat, v: nat, perm: Bits) returns (r: int)
      requires Valid() && Live(S(), s) && v < UTOP_PAGES
      requires pp < npages && (kind[pp] == User || kind[pp] == Held) && ref[pp] < REF_MAX
      modifies this
      ensures Valid() && (r == 0 || r == -E_NO_MEM)
      ensures r < 0 <==> old(!HasTable(S(), s, v / NPTENTRIES) && free == [])
      ensures r < 0 ==> S() == old(S())
      ensures r == 0 ==> kind[pp] == User && OnePage(old(S()), S(), s, v, Word(pp, {P} + perm))
      ensures r == 0 ==> forall f :: VmTheorems.CanRead(S(), s, v, f) <==> U in perm && f == pp
      ensures r == 0 ==> forall f :: VmTheorems.CanWrite(S(), s, v, f) <==> {U, W} <= perm && f == pp
    {
      ghost var vm0 := S();
      var t := PgdirWalk(s, v, true);
      if t == -1 {
        return -E_NO_MEM;
      }
      ghost var vm1 := S();
      InsertInTable(s, pp, v, perm);
      QuietThenOnePage(vm0, vm1, S(), s, v, Word(pp, {P} + perm));
      JustMapped(vm0, S(), s, v, pp, perm);
      r := 0;
    }

    /** env_setup_vm: a page directory with the kernel's half filled in. */
    method EnvSetupVm(s: nat) returns (r: int)
      requires Valid() && s < NENV && !Live(S(), s)
      modifies this
      ensures Valid() && (r == 0 || r == -E_NO_MEM)
      ensures r < 0 <==> old(free) == []
      ensures r < 0 ==> S() == old(S())
      ensures r == 0 ==> S() == NewDir(Take(old(S()), true), s, old(free[0]))
    {
      ghost var vm0 := S();
      var p := PageAlloc(true);
      if p == -1 {
        return -E_NO_MEM;
      }
      NewDirInv(S(), s, p);
      assert CountOk(S(), p);
      SetDirectory(s, p);
      FillDirectory(p);
      r := 0;
    }

    method SetDirectory(s: nat, p: nat)
      requires Linked() && s < NENV && p < npages && ref[p] == 0
      modifies this`dir, this`ref, this`kind
      ensures Linked()
      ensures S() == old(S()).(dir := old(dir)[s := p], ref := old(ref)[p := 1], kind := old(kind)[p := Dir(s)])
    {
      dir := dir[s := p];
      ref := ref[p := ref[p] + 1];
      kind := kind[p := Dir(s)];
    }

    method FillDirectory(p: nat)
      requires Linked() && p < npages && p != kern
      modifies this`mem
      ensures Linked() && mem == old(mem)[p := DirFrame(old(S()), p)]
    {
      var i := 0;
      while i < PDX_UTOP
        invariant 0 <= i <= PDX_UTOP && Linked()
        invariant mem == old(mem)[p := mem[p]] && |mem[p]| == NPDENTRIES
        invariant forall j | 0 <= j < i :: mem[p][j] == ZERO
      {
        mem := mem[p := mem[p][i := ZERO]];
        i := i + 1;
      }
      while i < NPDENTRIES
        invariant PDX_UTOP <= i <= NPDENTRIES && Linked()
        invariant mem == old(mem)[p := mem[p]] && |mem[p]| == NPDENTRIES
        invariant forall j | 0 <= j < PDX_UTOP :: mem[p][j] == ZERO
        invariant forall j | PDX_UTOP <= j < i :: mem[p][j] == old(mem[kern][j])
      {
        mem := mem[p := mem[p][i := mem[kern][i]]];
        i := i + 1;
      }
      mem := mem[p := mem[p][PDX_UVPT := Word(p, {P, U})]];
      assert mem[p] == DirFrame(old(S()), p);
    }

    /** env_free's inner loop: every entry of one page table is unmapped. */
    method ClearTable(s: nat, d: nat)
      requires Valid() && HasTable(S(), s, d)
      modifies this
      ensures Valid() && SameTables(old(S()), S()) && Released(old(S()), S(), s)
      ensures CanShrink(S(), s, d)
    {
      ghost var vm0 := S();
      var i := 0;
      while i < NPTENTRIES
        invariant 0 <= i <= NPTENTRIES && Valid() && HasTable(S(), s, d)
        invariant SameTables(vm0, S()) && Released(vm0, S(), s)
        invariant ClearTo(S(), s, d, i)
      {
        ghost var vm1 := S();
        if P in mem[mem[dir[s]][d].frame][i].bits {
          PageRemove(s, Vpn(d, i));
          ClearStep(vm0, vm1, S(), s, d, i);
        } else {
          ClearSkip(vm1, s, d, i);
        }
        i := i + 1;
      }
      ClearedTable(S(), s, d);
    }

    method DropTable(s: nat, d: nat)
      requires Valid() && CanShrink(S(), s, d)
      modifies this
      ensures Valid() && Live(S(), s) && Released(old(S()), S(), s)
      ensures forall d' | 0 <= d' < PDX_UTOP :: Pde(S(), s, d') == if d' == d then ZERO else old(Pde(S(), s, d'))
    {
      FreeTableReleased(S(), s, d);
      var t := mem[dir[s]][d].frame;
      assert kind[t] == Table(s, d);
      ClearEntry(dir[s], d);
      PageDecref(t);
    }

    method RemoveTable(s: nat, d: nat)
      requires Valid() && HasTable(S(), s, d)
      modifies this
      ensures Valid() && Live(S(), s) && Released(old(S()), S(), s)
      ensures old(BareTo(S(), s, d)) ==> BareTo(S(), s, d + 1)
    {
      ghost var vm0 := S();
      ClearTable(s, d);
      ghost var vm1 := S();
      SameTablesOwned(vm0, vm1);
      DropTable(s, d);
      ReleasedTrans(vm0, vm1, S(), s);
    }

    method DropDirectory(s: nat)
      requires Valid() && BareTo(S(), s, PDX_UTOP)
      modifies this
      ensures Valid() && !Live(S(), s) && Released(old(S()), S(), s)
    {
      FreeDirReleased(S(), s);
      var pd := dir[s];
      dir := dir[s := -1];
      PageDecref(pd);
    }

    /** env_free's address-space half: everything the environment mapped is released, and
        with it its page tables and its directory; nobody else notices. */
    method EnvFreeVm(s: nat)
      requires Valid() && Live(S(), s)
      modifies this
      ensures Valid() && !Live(S(), s) && Released(old(S()), S(), s)
    {
      hide Inv;
      ghost var vm0 := S();
      var d := 0;
      while d < PDX_UTOP
        invariant 0 <= d <= PDX_UTOP && Valid() && Released(vm0, S(), s)
        invariant BareTo(S(), s, d)
      {
        ghost var vm1 := S();
        BareSkip(vm1, s, d);
        if P in mem[dir[s]][d].bits {
          RemoveTable(s, d);
          ReleasedTrans(vm0, vm1, S(), s);
        }
        d := d + 1;
      }
      ghost var vm3 := S();
      DropDirectory(s);
      ReleasedTrans(vm0, vm3, S(), s);
    }

    /** pgdir_walk on kern_pgdir, creating the table if need be. */
    method KernelWalk(v: nat) returns (t: int)
      requires Valid() && NoEnvs(S()) && KernelRange(v, 1)
      modifies this
      ensures Valid() && NoEnvs(S()) && KSpace(S()) == old(KSpace(S())) && CountsKept(old(S()), S())
      ensures t < 0 ==> t == -1 && free == [] && !KTableAt(S(), v / NPTENTRIES)
      ensures t >= 0 ==> KTableAt(S(), v / NPTENTRIES) && mem[kern][v / NPTENTRIES].frame == t
    {
      hide Owned;
      hide Counted;
      var d := v / NPTENTRIES;
      if P !in mem[kern][d].bits {
        ghost var vm0 := S();
        var pp := PageAlloc(true);
        if pp == -1 {
          return -1;
        }
        GrowKernel(vm0, d);
        AttachKernelTable(d, pp);
      }
      t := mem[kern][d].frame;
    }

    method AttachKernelTable(d: nat, pp: nat)
      requires Linked() && d < NPDENTRIES && pp < npages && ref[pp] == 0
      modifies this`ref, this`mem, this`kind
      ensures Linked() && S() == NewKTable(old(S()), d, pp)
    {
      ref := ref[pp := ref[pp] + 1];
      mem := mem[kern := mem[kern][d := Word(pp, {U, P, W})]];
      kind := kind[pp := KTable(d)];
    }

    method MapKernelPage(v: nat, w: Word) returns (ok: bool)
      requires Valid() && NoEnvs(S()) && KernelRange(v, 1) && P in w.bits
      modifies this
      ensures Valid() && NoEnvs(S()) && CountsKept(old(S()), S())
      ensures !ok ==> free == [] && !KTableAt(S(), v / NPTENTRIES)
      ensures ok ==> KSpace(S()) == old(KSpace(S()))[v := w]
    {
      var t := KernelWalk(v);
      if t == -1 {
        return false;
      }
      assert Vpn(v / NPTENTRIES, v % NPTENTRIES) == v;
      PutKernelEntry(S(), v / NPTENTRIES, v % NPTENTRIES, w);
      SetEntry(t, v % NPTENTRIES, w);
      ok := true;
    }

    /** boot_map_region: the pages from v that `size` bytes take, the last one perhaps in part, map the
        frames from pa, and no other kernel address changes; no page that was in use has its
        count changed; it fails (the original panics) only when there is no page for a page table
        that one of the pages still needs. */
    method BootMapRegion(v: nat, size: nat, pa: nat, perm: Bits) returns (ok: bool)
      requires Valid() && NoEnvs(S()) && KernelRange(v, (size + PAGE - 1) / PAGE)
      modifies this
      ensures Valid() && NoEnvs(S()) && CountsKept(old(S()), S())
      ensures !ok ==> free == [] && exists u :: v <= u < v + (size + PAGE - 1) / PAGE && NoKTable(S(), u)
      ensures ok ==> KSpace(S()) == Region(old(KSpace(S())), v, pa, perm, (size + PAGE - 1) / PAGE)
    {
      hide Inv;
      hide CountsKept;
      hide KSpace;
      CountsKeptNot(S());
      ghost var vm0 := S();
      var n := size / PAGE;
      if size % PAGE != 0 {
        n := n + 1;
      }
      ghost var m := KSpace(S());
      ghost var done := m;
      for i := 0 to n
        invariant Valid() && NoEnvs(S()) && CountsKept(vm0, S())
        invariant KSpace(S()) == done && done == Region(m, v, pa, perm, i)
      {
        ghost var vm1 := S();
        var w := Word(pa + i, {P} + perm);
        RegionStep(m, v, pa, perm, i);
        ok := MapKernelPage(v + i, w);
        CountsKeptTwice(vm0, vm1, S());
        if !ok {
          assert NoKTable(S(), v + i);
          return;
        }
        done := done[v + i := w];
      }
      ok := true;
    }
  }

  const PAGE := 4096

  /** Pages in use stay in use, with the same counts. */
  predicate CountsKept(vm: Vm, vm': Vm) {
    && Shape(vm) && Shape(vm') && |vm'.ref| == |vm.ref|
    && forall f | 0 <= f < |vm.ref| && vm.kind[f] != Free :: vm'.kind[f] != Free && vm'.ref[f] == vm.ref[f]
  }

  lemma CountsKeptNot(vm: Vm)
    requires Shape(vm)
    ensures CountsKept(vm, vm)
  {
  }

  lemma CountsKeptTwice(a: Vm, b: Vm, c: Vm)
    requires CountsKept(a, b) && CountsKept(b, c)
    ensures CountsKept(a, c)
  {
  }
}
