/** Steps that create and destroy page tables and page directories. */
module VmTables {
  import opened Mmu
  import opened VmSpec
  import opened VmLemmas

  // ---------------------------------------------------------------- the free list

  lemma TakeInv(vm: Vm, zero: bool)
    requires Inv(vm) && vm.free != []
    ensures vm.free[0] < |vm.mem| && vm.kind[vm.free[0]] == Free
    ensures Inv(Take(vm, zero)) && SameTables(vm, Take(vm, zero))
    ensures forall s: nat :: Space(Take(vm, zero), s) == Space(vm, s)
  {
    assert vm.free[0] in vm.free;
    var f, vm' := vm.free[0], Take(vm, zero);
    assert SameTables(vm, vm');
    SameTablesOwned(vm, vm');
    SameRefs(vm, vm');
    assert CountOk(vm, f);
    KeepCounted(vm, vm', f);
    forall g | 0 <= g < |vm'.mem| && vm'.kind[g] == Free ensures g in vm'.free {
      assert g in vm.free;
    }
    forall s: nat ensures Space(vm', s) == Space(vm, s) { SameSpace(vm, vm', s); }
  }

  /** page_free of a page nobody maps. */
  function GiveBack(vm: Vm, f: nat): Vm
    requires Shape(vm) && f < |vm.mem|
  {
    vm.(kind := vm.kind[f := Free], free := [f] + vm.free)
  }

  lemma GiveBackInv(vm: Vm, f: nat)
    requires Inv(vm) && f < |vm.mem| && vm.kind[f] == Held
    ensures Inv(GiveBack(vm, f))
    ensures forall s: nat :: Space(GiveBack(vm, f), s) == Space(vm, s)
  {
    var vm' := GiveBack(vm, f);
    assert SameTables(vm, vm');
    SameTablesOwned(vm, vm');
    SameRefs(vm, vm');
    assert CountOk(vm, f);
    KeepCounted(vm, vm', f);
    forall s: nat ensures Space(vm', s) == Space(vm, s) { SameSpace(vm, vm', s); }
  }

  // ---------------------------------------------------------------- page tables

  function NewTable(vm: Vm, s: nat, d: nat, f: nat): Vm
    requires Shape(vm) && Live(vm, s) && d < NPDENTRIES && f < |vm.mem|
  {
    Put(vm, vm.dir[s], d, Word(f, {U, P, W})).(ref := vm.ref[f := 1], kind := vm.kind[f := Table(s, d)])
  }

  ghost predicate CanGrow(vm: Vm, s: nat, d: nat, f: nat) {
    && Inv(vm) && Live(vm, s) && d < PDX_UTOP && f < |vm.mem|
    && P !in Pde(vm, s, d).bits
    && vm.kind[f] == Held && Blank(vm.mem[f])
  }

  lemma NewTableOwned(vm: Vm, s: nat, d: nat, f: nat)
    requires CanGrow(vm, s, d, f)
    ensures var vm' := NewTable(vm, s, d, f); Shape(vm') && Owned(vm') && KernelShared(vm')
    ensures var vm' := NewTable(vm, s, d, f);
            forall s': nat, d': nat | d' < PDX_UTOP && Live(vm, s') && (s', d') != (s, d) ::
              Live(vm', s') && Pde(vm', s', d') == Pde(vm, s', d')
  {
    hide Counted;
    hide FreeOk;
    var vm' := NewTable(vm, s, d, f);
    assert vm.kind[vm.dir[s]] == Dir(s);
    forall s': nat, d': nat | d' < NPDENTRIES && Live(vm, s') && (s', d') != (s, d)
      ensures Live(vm', s') && Pde(vm', s', d') == Pde(vm, s', d') {
      assert vm.kind[vm.dir[s']] == Dir(s');
    }
    assert Pde(vm', s, d) == Word(f, {U, P, W});
    forall g | 0 <= g < |vm'.kind| && vm'.kind[g].Table?
      ensures HasTable(vm', vm'.kind[g].slot, vm'.kind[g].d) && Pde(vm', vm'.kind[g].slot, vm'.kind[g].d).frame == g {
      if g != f {
        assert HasTable(vm, vm.kind[g].slot, vm.kind[g].d);
      }
    }
  }

  /** A fresh, blank table adds no mapping. */
  lemma NewTableInv(vm: Vm, s: nat, d: nat, f: nat)
    requires CanGrow(vm, s, d, f)
    ensures Inv(NewTable(vm, s, d, f))
    ensures forall s': nat :: Space(NewTable(vm, s, d, f), s') == Space(vm, s')
  {
    var vm' := NewTable(vm, s, d, f);
    NewTableOwned(vm, s, d, f);
    SameRefs(vm, vm');
    KeepCounted(vm, vm', f);
    assert FreeOk(vm');
    forall s': nat ensures Space(vm', s') == Space(vm, s') {
      NewTableSpace(vm, s, d, f, s');
    }
  }

  lemma NewTableSpace(vm: Vm, s: nat, d: nat, f: nat, s': nat)
    requires CanGrow(vm, s, d, f)
    ensures Shape(NewTable(vm, s, d, f))
    ensures Space(NewTable(vm, s, d, f), s') == Space(vm, s')
  {
    var vm' := NewTable(vm, s, d, f);
    NewTableOwned(vm, s, d, f);
    forall v: nat ensures Mapped(vm', s', v) == Mapped(vm, s', v)
                  ensures Mapped(vm, s', v) ==> Entry(vm', s', v) == Entry(vm, s', v) {
      var d' := v / NPTENTRIES;
      if Live(vm, s') && (s', d') != (s, d) && d' < PDX_UTOP {
        assert Pde(vm', s', d') == Pde(vm, s', d');
        if P in Pde(vm, s', d').bits {
          assert vm.kind[Pde(vm, s', d').frame] == Table(s', d');
        }
      }
    }
  }

  /** env_free clears a directory entry and drops the table it named. */
  function FreeTable(vm: Vm, s: nat, d: nat): Vm
    requires Shape(vm) && HasTable(vm, s, d) && vm.ref[Pde(vm, s, d).frame] >= 1
  {
    Drop(Put(vm, vm.dir[s], d, ZERO), Pde(vm, s, d).frame)
  }

  ghost predicate CanShrink(vm: Vm, s: nat, d: nat) {
    && Inv(vm) && HasTable(vm, s, d) && Blank(vm.mem[Pde(vm, s, d).frame])
  }

  lemma FreeTableOwned(vm: Vm, s: nat, d: nat)
    requires CanShrink(vm, s, d)
    ensures vm.ref[Pde(vm, s, d).frame] == 1
    ensures var vm' := FreeTable(vm, s, d); Shape(vm') && Owned(vm') && KernelShared(vm')
    ensures var vm' := FreeTable(vm, s, d);
            forall s': nat, d': nat | d' < PDX_UTOP && Live(vm, s') && (s', d') != (s, d) ::
              Live(vm', s') && Pde(vm', s', d') == Pde(vm, s', d')
  {
    hide FreeOk;
    var f := Pde(vm, s, d).frame;
    assert vm.kind[f] == Table(s, d);
    assert CountOk(vm, f);
    var vm' := FreeTable(vm, s, d);
    assert vm.kind[vm.dir[s]] == Dir(s);
    forall s': nat, d': nat | d' < NPDENTRIES && Live(vm, s') && (s', d') != (s, d)
      ensures Live(vm', s') && Pde(vm', s', d') == Pde(vm, s', d') {
      assert vm.kind[vm.dir[s']] == Dir(s');
    }
    forall g | 0 <= g < |vm'.kind| && vm'.kind[g].Table?
      ensures HasTable(vm', vm'.kind[g].slot, vm'.kind[g].d) && Pde(vm', vm'.kind[g].slot, vm'.kind[g].d).frame == g {
      assert HasTable(vm, vm.kind[g].slot, vm.kind[g].d);
    }
  }

  lemma FreeTableInv(vm: Vm, s: nat, d: nat)
    requires CanShrink(vm, s, d)
    ensures vm.ref[Pde(vm, s, d).frame] == 1
    ensures Inv(FreeTable(vm, s, d))
    ensures forall s': nat :: Space(FreeTable(vm, s, d), s') == Space(vm, s')
  {
    FreeTableOwned(vm, s, d);
    var vm' := FreeTable(vm, s, d);
    SameRefs(vm, vm');
    KeepCounted(vm, vm', Pde(vm, s, d).frame);
    assert FreeOk(vm');
    forall s': nat ensures Space(vm', s') == Space(vm, s') {
      FreeTableSpace(vm, s, d, s');
    }
  }

  lemma FreeTableSpace(vm: Vm, s: nat, d: nat, s': nat)
    requires CanShrink(vm, s, d)
    ensures vm.ref[Pde(vm, s, d).frame] == 1
    ensures Shape(FreeTable(vm, s, d))
    ensures Space(FreeTable(vm, s, d), s') == Space(vm, s')
  {
    FreeTableOwned(vm, s, d);
    var vm' := FreeTable(vm, s, d);
    forall v: nat ensures Mapped(vm', s', v) == Mapped(vm, s', v)
                  ensures Mapped(vm, s', v) ==> Entry(vm', s', v) == Entry(vm, s', v) {
      var d' := v / NPTENTRIES;
      if Live(vm, s') && (s', d') != (s, d) && d' < PDX_UTOP {
        assert Pde(vm', s', d') == Pde(vm, s', d');
        if P in Pde(vm, s', d').bits {
          assert vm.kind[Pde(vm, s', d').frame] == Table(s', d');
        }
      }
    }
  }

  /** page_insert makes a directory entry at least as permissive as the mapping. */
  function OrPde(vm: Vm, s: nat, d: nat, perm: Bits): Vm
    requires Shape(vm) && Live(vm, s) && d < NPDENTRIES
  {
    Put(vm, vm.dir[s], d, Word(Pde(vm, s, d).frame, Pde(vm, s, d).bits + perm))
  }

  lemma OrPdeInv(vm: Vm, s: nat, d: nat, perm: Bits)
    requires Inv(vm) && HasTable(vm, s, d)
    ensures Inv(OrPde(vm, s, d, perm))
    ensures forall s': nat :: Space(OrPde(vm, s, d, perm), s') == Space(vm, s')
  {
    hide Space;
    var vm' := OrPde(vm, s, d, perm);
    assert vm.kind[vm.dir[s]] == Dir(s);
    OrPdeOwned(vm, s, d, perm);
    SameRefs(vm, vm');
    assert CountOk(vm, vm.dir[s]);
    KeepCounted(vm, vm', vm.dir[s]);
    forall s': nat ensures Space(vm', s') == Space(vm, s') { OrPdeSpace(vm, s, d, perm, s'); }
  }

  /** The entries of all directories still name the tables that they named. */
  lemma OrPdeEntries(vm: Vm, s: nat, d: nat, perm: Bits, s': nat, d': nat)
    requires Inv(vm) && HasTable(vm, s, d) && d' < NPDENTRIES && Live(vm, s')
    ensures var vm' := OrPde(vm, s, d, perm);
            && Shape(vm') && Live(vm', s') && Pde(vm', s', d').frame == Pde(vm, s', d').frame
            && (P in Pde(vm', s', d').bits <==> P in Pde(vm, s', d').bits)
  {
    hide Counted;
    hide FreeOk;
    hide KernelShared;
    assert vm.kind[vm.dir[s]] == Dir(s) && vm.kind[vm.dir[s']] == Dir(s');
  }

  lemma OrPdeSpace(vm: Vm, s: nat, d: nat, perm: Bits, s': nat)
    requires Inv(vm) && HasTable(vm, s, d)
    ensures Shape(OrPde(vm, s, d, perm)) && Space(OrPde(vm, s, d, perm), s') == Space(vm, s')
  {
    hide Counted;
    hide FreeOk;
    hide KernelShared;
    var vm' := OrPde(vm, s, d, perm);
    assert vm.kind[vm.dir[s]] == Dir(s);
    forall v: nat ensures Mapped(vm', s', v) == Mapped(vm, s', v)
                  ensures Mapped(vm, s', v) ==> Entry(vm', s', v) == Entry(vm, s', v) {
      if v < UTOP_PAGES && Live(vm, s') { OrPdeEntries(vm, s, d, perm, s', v / NPTENTRIES); }
      if HasTable(vm, s', v / NPTENTRIES) {
        assert vm.kind[Pde(vm, s', v / NPTENTRIES).frame] == Table(s', v / NPTENTRIES);
      }
    }
  }

  lemma OrPdeOwned(vm: Vm, s: nat, d: nat, perm: Bits)
    requires Inv(vm) && HasTable(vm, s, d)
    ensures var vm' := OrPde(vm, s, d, perm); Shape(vm') && Owned(vm') && KernelShared(vm')
  {
    var vm' := OrPde(vm, s, d, perm);
    assert vm.kind[vm.dir[s]] == Dir(s);
    forall s': nat, d': nat | d' < NPDENTRIES && Live(vm, s')
      ensures Live(vm', s') && Pde(vm', s', d').frame == Pde(vm, s', d').frame
      ensures (s', d') != (s, d) ==> Pde(vm', s', d') == Pde(vm, s', d')
      ensures P in Pde(vm', s', d').bits <==> P in Pde(vm, s', d').bits {
      assert vm.kind[vm.dir[s']] == Dir(s');
    }
    forall g | 0 <= g < |vm'.kind| && vm'.kind[g].Table?
      ensures HasTable(vm', vm'.kind[g].slot, vm'.kind[g].d) && Pde(vm', vm'.kind[g].slot, vm'.kind[g].d).frame == g {
      assert HasTable(vm, vm.kind[g].slot, vm.kind[g].d);
    }
  }

  /** Rewriting the permissions of a present word keeps what it names. */
  lemma RepermInv(vm: Vm, t: nat, i: nat, bits: Bits)
    requires Inv(vm) && IsPresent(vm, Slot(t, i)) && P in bits
    ensures Inv(Put(vm, t, i, Word(vm.mem[t][i].frame, bits)))
    ensures SameTables(vm, Put(vm, t, i, Word(vm.mem[t][i].frame, bits)))
  {
    var vm' := Put(vm, t, i, Word(vm.mem[t][i].frame, bits));
    assert SameTables(vm, vm');
    SameTablesOwned(vm, vm');
    forall x: Slot ensures IsPresent(vm', x) == IsPresent(vm, x)
                   ensures IsPresent(vm, x) ==> vm'.mem[x.t][x.i].frame == vm.mem[x.t][x.i].frame {}
    forall g | 0 <= g < |vm'.mem| ensures CountOk(vm', g) {
      assert CountOk(vm, g);
      assert Refs(vm', g) == Refs(vm, g);
    }
  }

  // ---------------------------------------------------------------- page directories

  /** The directory env_setup_vm builds in frame f. */
  function DirFrame(vm: Vm, f: nat): (r: Frame)
    requires Shape(vm)
    ensures |r| == NPDENTRIES
  {
    seq(NPDENTRIES, d requires 0 <= d < NPDENTRIES =>
      if d < PDX_UTOP then ZERO else if d == PDX_UVPT then Word(f, {P, U}) else vm.mem[vm.kern][d])
  }

  function NewDir(vm: Vm, s: nat, f: nat): Vm
    requires Shape(vm) && s < NENV && f < |vm.mem|
  {
    vm.(dir := vm.dir[s := f], ref := vm.ref[f := 1], kind := vm.kind[f := Dir(s)],
        mem := vm.mem[f := DirFrame(vm, f)])
  }

  /** The directories of the others are as they were. */
  lemma NewDirOthers(vm: Vm, s: nat, f: nat)
    requires Inv(vm) && s < NENV && !Live(vm, s) && f < |vm.mem| && vm.kind[f] == Held
    ensures var vm' := NewDir(vm, s, f);
            && Shape(vm') && (forall s': nat | Live(vm, s') :: Live(vm', s'))
            && forall s': nat, d: nat | d < NPDENTRIES && Live(vm, s') && Live(vm', s') ::
                 Pde(vm', s', d) == Pde(vm, s', d)
  {
    hide Counted;
    hide FreeOk;
    var vm' := NewDir(vm, s, f);
    forall s': nat, d: nat | d < NPDENTRIES && Live(vm, s') && Live(vm', s')
      ensures Pde(vm', s', d) == Pde(vm, s', d) {
      assert vm.kind[vm.dir[s']] == Dir(s');
    }
  }

  lemma NewDirShared(vm: Vm, s: nat, f: nat)
    requires Inv(vm) && s < NENV && !Live(vm, s) && f < |vm.mem| && vm.kind[f] == Held
    ensures Shape(NewDir(vm, s, f)) && KernelShared(NewDir(vm, s, f))
  {
    hide Counted;
    hide FreeOk;
    hide Owned;
    var vm' := NewDir(vm, s, f);
    NewDirOthers(vm, s, f);
    assert vm'.mem[vm'.kern] == vm.mem[vm.kern];
    forall d: nat | d < NPDENTRIES ensures Pde(vm', s, d) == DirFrame(vm, f)[d] {}
  }

  lemma NewDirOwned(vm: Vm, s: nat, f: nat)
    requires Inv(vm) && s < NENV && !Live(vm, s) && f < |vm.mem| && vm.kind[f] == Held
    ensures var vm' := NewDir(vm, s, f); Shape(vm') && Owned(vm') && KernelShared(vm')
    ensures var vm' := NewDir(vm, s, f);
            && (forall s': nat | Live(vm, s') :: Live(vm', s'))
            && forall s': nat, d: nat | d < NPDENTRIES && Live(vm, s') && Live(vm', s') ::
                 Pde(vm', s', d) == Pde(vm, s', d)
  {
    hide Counted;
    hide FreeOk;
    hide KernelShared;
    var vm' := NewDir(vm, s, f);
    NewDirOthers(vm, s, f);
    NewDirShared(vm, s, f);
    forall d: nat | d < NPDENTRIES ensures Pde(vm', s, d) == DirFrame(vm, f)[d] {}
    forall g | 0 <= g < |vm'.kind| && vm'.kind[g].Table?
      ensures HasTable(vm', vm'.kind[g].slot, vm'.kind[g].d) && Pde(vm', vm'.kind[g].slot, vm'.kind[g].d).frame == g {
      assert HasTable(vm, vm.kind[g].slot, vm.kind[g].d);
    }
  }

  /** A new environment starts with an empty address space and disturbs no other. */
  lemma NewDirInv(vm: Vm, s: nat, f: nat)
    requires Inv(vm) && s < NENV && !Live(vm, s) && f < |vm.mem| && vm.kind[f] == Held
    ensures Inv(NewDir(vm, s, f))
    ensures forall s': nat :: Space(NewDir(vm, s, f), s') == Space(vm, s')
  {
    var vm' := NewDir(vm, s, f);
    NewDirOwned(vm, s, f);
    SameRefs(vm, vm');
    KeepCounted(vm, vm', f);
    assert FreeOk(vm');
    forall s': nat ensures Space(vm', s') == Space(vm, s') {
      NewDirSpace(vm, s, f, s');
    }
  }

  lemma NewDirSpace(vm: Vm, s: nat, f: nat, s': nat)
    requires Inv(vm) && s < NENV && !Live(vm, s) && f < |vm.mem| && vm.kind[f] == Held
    ensures Shape(NewDir(vm, s, f)) && Space(NewDir(vm, s, f), s') == Space(vm, s')
  {
    var vm' := NewDir(vm, s, f);
    NewDirOwned(vm, s, f);
    if s' == s {
      forall d: nat | d < NPDENTRIES ensures Pde(vm', s, d) == DirFrame(vm, f)[d] {}
      forall v: nat ensures !Mapped(vm', s, v) {}
    } else {
      forall v: nat ensures Mapped(vm', s', v) == Mapped(vm, s', v)
                    ensures Mapped(vm, s', v) ==> Entry(vm', s', v) == Entry(vm, s', v) {
        if HasTable(vm, s', v / NPTENTRIES) {
          assert vm.kind[Pde(vm, s', v / NPTENTRIES).frame] == Table(s', v / NPTENTRIES);
        }
      }
    }
  }

  /** env_free drops the directory once every user entry in it is clear. */
  function FreeDir(vm: Vm, s: nat): Vm
    requires Shape(vm) && Live(vm, s) && vm.ref[vm.dir[s]] >= 1
  {
    Drop(vm.(dir := vm.dir[s := -1]), vm.dir[s])
  }

  lemma FreeDirInv(vm: Vm, s: nat)
    requires Inv(vm) && Live(vm, s)
    requires forall d | 0 <= d < PDX_UTOP :: P !in Pde(vm, s, d).bits
    ensures vm.ref[vm.dir[s]] == 1
    ensures Inv(FreeDir(vm, s)) && !Live(FreeDir(vm, s), s)
    ensures forall s': nat :: Space(FreeDir(vm, s), s') == Space(vm, s')
  {
    assert vm.kind[vm.dir[s]] == Dir(s);
    assert CountOk(vm, vm.dir[s]);
    var vm' := FreeDir(vm, s);
    FreeDirOwned(vm, s);
    SameRefs(vm, vm');
    KeepCounted(vm, vm', vm.dir[s]);
    assert FreeOk(vm');
    forall s': nat ensures Space(vm', s') == Space(vm, s') {
      FreeDirSpace(vm, s, s');
    }
  }

  lemma FreeDirSpace(vm: Vm, s: nat, s': nat)
    requires Inv(vm) && Live(vm, s)
    requires forall d | 0 <= d < PDX_UTOP :: P !in Pde(vm, s, d).bits
    ensures vm.ref[vm.dir[s]] == 1
    ensures Shape(FreeDir(vm, s)) && Space(FreeDir(vm, s), s') == Space(vm, s')
  {
    FreeDirOwned(vm, s);
    var vm' := FreeDir(vm, s);
    forall v: nat ensures Mapped(vm', s', v) == Mapped(vm, s', v)
                  ensures Mapped(vm, s', v) ==> Entry(vm', s', v) == Entry(vm, s', v) {}
  }

  lemma FreeDirOwned(vm: Vm, s: nat)
    requires Inv(vm) && Live(vm, s)
    requires forall d | 0 <= d < PDX_UTOP :: P !in Pde(vm, s, d).bits
    ensures vm.ref[vm.dir[s]] == 1
    ensures var vm' := FreeDir(vm, s); Shape(vm') && Owned(vm') && KernelShared(vm')
    ensures var vm' := FreeDir(vm, s);
            && (forall s': nat | s' != s && Live(vm, s') :: Live(vm', s'))
            && forall s': nat, d: nat | s' != s && d < NPDENTRIES && Live(vm, s') && Live(vm', s') ::
                 Pde(vm', s', d) == Pde(vm, s', d)
  {
    assert vm.kind[vm.dir[s]] == Dir(s);
    assert CountOk(vm, vm.dir[s]);
    var vm' := FreeDir(vm, s);
    forall s': nat, d: nat | s' != s && d < NPDENTRIES && Live(vm, s') && Live(vm', s')
      ensures Pde(vm', s', d) == Pde(vm, s', d) {
      assert vm.kind[vm.dir[s']] == Dir(s');
    }
    forall g | 0 <= g < |vm'.kind| && vm'.kind[g].Table?
      ensures HasTable(vm', vm'.kind[g].slot, vm'.kind[g].d) && Pde(vm', vm'.kind[g].slot, vm'.kind[g].d).frame == g {
      assert HasTable(vm, vm.kind[g].slot, vm.kind[g].d);
    }
  }

  // ---------------------------------------------------------------- conservation

  /** Every page in use by users is mapped by some live environment. */
  lemma UserPageIsMapped(vm: Vm, f: nat) returns (s: nat, v: nat)
    requires Inv(vm) && f < |vm.mem| && vm.kind[f] == User
    ensures Mapped(vm, s, v) && Entry(vm, s, v).frame == f
  {
    assert CountOk(vm, f);
    var x :| x in Refs(vm, f);
    s, v := vm.kind[x.t].slot, Vpn(vm.kind[x.t].d, x.i);
    assert HasTable(vm, s, vm.kind[x.t].d);
  }

  /** With no environment left, every page that page_init freed is free again. */
  lemma NoEnvsAllFree(vm: Vm, f: nat)
    requires Inv(vm) && f < |vm.mem|
    requires forall s: nat :: !Live(vm, s)
    requires vm.kind[f] != Held
    ensures f in vm.free <==> !vm.kind[f].Fixed? && !vm.kind[f].KTable?
  {
    if vm.kind[f] == User {
      var s, v := UserPageIsMapped(vm, f);
    }
  }
}
