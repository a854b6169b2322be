/** What each single step of VmSpec does to ownership, counts and address spaces. */
module VmLemmas {
  import opened Mmu
  import opened VmSpec

  /** Page number of word i of the table at directory index d. */
  function Vpn(d: nat, i: nat): (v: nat)
    requires i < NPTENTRIES
    ensures v / NPTENTRIES == d && v % NPTENTRIES == i
  {
    d * NPTENTRIES + i
  }

  predicate Structural(k: Kind) {
    k.Dir? || k.Table? || k.KTable? || k.Fixed?
  }

  /** vm' has the directories of vm and uses the same frames as directories and tables. */
  ghost predicate SameTables(vm: Vm, vm': Vm)
    requires Shape(vm)
  {
    && Shape(vm') && |vm'.mem| == |vm.mem| && vm'.dir == vm.dir && vm'.kern == vm.kern
    && (forall f | 0 <= f < |vm.mem| && (vm.kind[f].Dir? || vm.kind[f].Fixed?) :: vm'.mem[f] == vm.mem[f])
    && (forall f | 0 <= f < |vm.mem| ::
          vm'.kind[f] == vm.kind[f] || (!Structural(vm.kind[f]) && !Structural(vm'.kind[f])))
  }

  lemma SameTablesOwned(vm: Vm, vm': Vm)
    requires Shape(vm) && Owned(vm) && KernelShared(vm) && SameTables(vm, vm')
    ensures Owned(vm') && KernelShared(vm')
    ensures forall s: nat :: Live(vm', s) == Live(vm, s)
    ensures forall s: nat, d: nat | d < NPDENTRIES && Live(vm, s) && Live(vm', s) :: Pde(vm', s, d) == Pde(vm, s, d)
    ensures forall s: nat, d: nat :: HasTable(vm', s, d) == HasTable(vm, s, d)
  {
    forall s: nat, d: nat | d < NPDENTRIES && Live(vm, s) && Live(vm', s)
      ensures Pde(vm', s, d) == Pde(vm, s, d) {
      assert vm.kind[vm.dir[s]] == Dir(s);
    }
    forall s: nat, d: nat ensures HasTable(vm', s, d) == HasTable(vm, s, d) {}
  }

  /** Address spaces depend only on the directories and on the contents of the tables. */
  lemma SameSpace(vm: Vm, vm': Vm, s: nat)
    requires Shape(vm) && Owned(vm) && KernelShared(vm) && SameTables(vm, vm')
    requires forall f | 0 <= f < |vm.mem| && vm.kind[f].Table? && vm.kind[f].slot == s :: vm'.mem[f] == vm.mem[f]
    ensures Space(vm', s) == Space(vm, s)
  {
    SameTablesOwned(vm, vm');
    forall v: nat ensures Mapped(vm', s, v) == Mapped(vm, s, v) {}
  }

  predicate Blank(t: Frame) {
    forall i | 0 <= i < |t| :: P !in t[i].bits
  }

  /** The table words are those of vm, so every frame is named as often as before. */
  lemma SameRefs(vm: Vm, vm': Vm)
    requires Shape(vm) && Shape(vm') && |vm'.mem| == |vm.mem|
    requires forall f | 0 <= f < |vm.mem| && vm.kind[f].Table? && vm'.kind[f].Table? :: vm'.mem[f] == vm.mem[f]
    requires forall f | 0 <= f < |vm.mem| && vm.kind[f].Table? && !vm'.kind[f].Table? :: Blank(vm.mem[f])
    requires forall f | 0 <= f < |vm.mem| && !vm.kind[f].Table? && vm'.kind[f].Table? :: Blank(vm'.mem[f])
    ensures SameNames(vm, vm')
  {
  }

  /** The same page-table words are present and name the same frames. */
  ghost predicate SameNames(vm: Vm, vm': Vm)
    requires Shape(vm) && Shape(vm')
  {
    forall x: Slot :: IsPresent(vm', x) == IsPresent(vm, x)
      && (IsPresent(vm, x) ==> vm'.mem[x.t][x.i].frame == vm.mem[x.t][x.i].frame)
  }

  /** When nothing is named differently, only the count of the frame whose use changed matters. */
  lemma KeepCounted(vm: Vm, vm': Vm, f: nat)
    requires Shape(vm) && Shape(vm') && |vm'.mem| == |vm.mem| && Counted(vm) && SameNames(vm, vm')
    requires forall g | 0 <= g < |vm.mem| && g != f :: vm'.kind[g] == vm.kind[g] && vm'.ref[g] == vm.ref[g]
    requires f < |vm.mem| && vm.kind[f] != User && vm'.kind[f] != User && CountOk(vm', f)
    ensures Counted(vm')
  {
    forall g | 0 <= g < |vm'.mem| ensures CountOk(vm', g) {
      assert CountOk(vm, g);
      assert Refs(vm', g) == Refs(vm, g);
    }
  }

  // ---------------------------------------------------------------- mapping a frame

  ghost predicate CanLink(vm: Vm, t: nat, i: nat, pp: nat, bits: Bits) {
    && Inv(vm) && t < |vm.mem| && i < NPTENTRIES && pp < |vm.mem|
    && vm.kind[t].Table? && P in bits && !IsPresent(vm, Slot(t, i))
    && (vm.kind[pp] == User || vm.kind[pp] == Held)
  }

  lemma LinkRefs(vm: Vm, t: nat, i: nat, pp: nat, bits: Bits)
    requires CanLink(vm, t, i, pp, bits)
    ensures Shape(Link(vm, t, i, pp, bits))
    ensures Refs(Link(vm, t, i, pp, bits), pp) == Refs(vm, pp) + {Slot(t, i)}
    ensures forall f: nat | f != pp :: Refs(Link(vm, t, i, pp, bits), f) == Refs(vm, f)
  {
    var vm' := Link(vm, t, i, pp, bits);
    OnlyWordChanged(vm, vm', t, i);
  }

  lemma OnlyWordChanged(vm: Vm, vm': Vm, t: nat, i: nat)
    requires Shape(vm) && Shape(vm') && |vm'.mem| == |vm.mem| && t < |vm.mem| && i < NPTENTRIES
    requires forall f | 0 <= f < |vm.mem| :: vm'.kind[f].Table? == vm.kind[f].Table?
    requires forall f | 0 <= f < |vm.mem| && f != t :: vm'.mem[f] == vm.mem[f]
    requires forall j | 0 <= j < NPTENTRIES && j != i :: vm'.mem[t][j] == vm.mem[t][j]
    ensures forall x: Slot | x != Slot(t, i) :: IsPresent(vm', x) == IsPresent(vm, x)
              && (IsPresent(vm, x) ==> vm'.mem[x.t][x.i] == vm.mem[x.t][x.i])
  {
  }

  lemma Unreferenced(vm: Vm, pp: nat)
    requires Inv(vm) && pp < |vm.mem| && vm.kind[pp] != User
    ensures Refs(vm, pp) == {}
  {
  }

  lemma LinkCounted(vm: Vm, t: nat, i: nat, pp: nat, bits: Bits)
    requires CanLink(vm, t, i, pp, bits)
    ensures Shape(Link(vm, t, i, pp, bits)) && Counted(Link(vm, t, i, pp, bits))
  {
    hide Owned;
    hide KernelShared;
    hide FreeOk;
    var vm' := Link(vm, t, i, pp, bits);
    OnlyWordChanged(vm, vm', t, i);
    forall x: Slot | IsPresent(vm', x)
      ensures vm'.mem[x.t][x.i].frame < |vm'.mem| && vm'.kind[vm'.mem[x.t][x.i].frame] == User {
      assert x == Slot(t, i) || IsPresent(vm, x);
    }
    forall f | 0 <= f < |vm'.mem| ensures CountOk(vm', f) { LinkCount(vm, t, i, pp, bits, f); }
  }

  lemma LinkCount(vm: Vm, t: nat, i: nat, pp: nat, bits: Bits, f: nat)
    requires CanLink(vm, t, i, pp, bits) && f < |vm.mem|
    ensures Shape(Link(vm, t, i, pp, bits)) && CountOk(Link(vm, t, i, pp, bits), f)
  {
    hide Owned;
    hide KernelShared;
    hide FreeOk;
    var vm' := Link(vm, t, i, pp, bits);
    LinkRefs(vm, t, i, pp, bits);
    if vm.kind[pp] == Held { Unreferenced(vm, pp); }
    assert |Refs(vm', pp)| == |Refs(vm, pp)| + 1;
    assert CountOk(vm, f);
  }

  lemma LinkInv(vm: Vm, t: nat, i: nat, pp: nat, bits: Bits)
    requires CanLink(vm, t, i, pp, bits)
    ensures Inv(Link(vm, t, i, pp, bits)) && SameTables(vm, Link(vm, t, i, pp, bits))
  {
    var vm' := Link(vm, t, i, pp, bits);
    assert SameTables(vm, vm');
    SameTablesOwned(vm, vm');
    LinkCounted(vm, t, i, pp, bits);
    assert FreeOk(vm');
  }

  /** Mapping a frame changes the one page it is mapped at, in the one address space that
      owns the table. */
  lemma PutSpace(vm: Vm, vm': Vm, t: nat, i: nat, s: nat)
    requires Shape(vm) && Owned(vm) && KernelShared(vm) && SameTables(vm, vm')
    requires t < |vm.mem| && i < NPTENTRIES && vm.kind[t].Table?
    requires forall f | 0 <= f < |vm.mem| && vm.kind[f].Table? && f != t :: vm'.mem[f] == vm.mem[f]
    requires forall j | 0 <= j < NPTENTRIES && j != i :: vm'.mem[t][j] == vm.mem[t][j]
    ensures var v := Vpn(vm.kind[t].d, i); var w := vm'.mem[t][i];
            Space(vm', s) ==
            if s != vm.kind[t].slot then Space(vm, s)
            else if P in w.bits then Space(vm, s)[v := w]
            else Space(vm, s) - {v}
  {
    SameTablesOwned(vm, vm');
    var d, v, w := vm.kind[t].d, Vpn(vm.kind[t].d, i), vm'.mem[t][i];
    if s != vm.kind[t].slot {
      SameSpace(vm, vm', s);
    } else {
      assert HasTable(vm, s, d) && Pde(vm, s, d).frame == t;
      forall u: nat ensures u != v ==> Mapped(vm', s, u) == Mapped(vm, s, u)
                    ensures u != v && Mapped(vm, s, u) ==> Entry(vm', s, u) == Entry(vm, s, u) {
        if u != v { PutElsewhere(vm, vm', t, i, u); }
      }
      assert Mapped(vm', s, v) <==> P in w.bits;
    }
  }

  lemma PutElsewhere(vm: Vm, vm': Vm, t: nat, i: nat, u: nat)
    requires Shape(vm) && Owned(vm) && Shape(vm') && SameTables(vm, vm')
    requires t < |vm.mem| && i < NPTENTRIES && vm.kind[t].Table? && u != Vpn(vm.kind[t].d, i)
    requires forall f | 0 <= f < |vm.mem| && vm.kind[f].Table? && f != t :: vm'.mem[f] == vm.mem[f]
    requires forall j | 0 <= j < NPTENTRIES && j != i :: vm'.mem[t][j] == vm.mem[t][j]
    ensures Mapped(vm', vm.kind[t].slot, u) == Mapped(vm, vm.kind[t].slot, u)
    ensures Mapped(vm, vm.kind[t].slot, u) ==> Entry(vm', vm.kind[t].slot, u) == Entry(vm, vm.kind[t].slot, u)
  {
    var s := vm.kind[t].slot;
    assert HasTable(vm, s, vm.kind[t].d);
    if HasTable(vm, s, u / NPTENTRIES) {
      assert vm.kind[Pde(vm, s, u / NPTENTRIES).frame] == Table(s, u / NPTENTRIES);
      assert u / NPTENTRIES != vm.kind[t].d || u % NPTENTRIES != i;
    }
  }

  // ---------------------------------------------------------------- unmapping

  lemma UnlinkRefs(vm: Vm, t: nat, i: nat)
    requires Inv(vm) && IsPresent(vm, Slot(t, i))
    ensures var f := vm.mem[t][i].frame;
            && f < |vm.mem| && vm.ref[f] >= 1
            && Shape(Unlink(vm, t, i))
            && Refs(Unlink(vm, t, i), f) == Refs(vm, f) - {Slot(t, i)}
            && Slot(t, i) in Refs(vm, f)
            && forall g: nat | g != f :: Refs(Unlink(vm, t, i), g) == Refs(vm, g)
  {
    var f := vm.mem[t][i].frame;
    assert CountOk(vm, f);
    var vm' := Unlink(vm, t, i);
    OnlyWordChanged(vm, vm', t, i);
  }

  lemma UnlinkCounted(vm: Vm, t: nat, i: nat)
    requires Inv(vm) && IsPresent(vm, Slot(t, i))
    ensures vm.mem[t][i].frame < |vm.mem| && vm.ref[vm.mem[t][i].frame] >= 1
    ensures Shape(Unlink(vm, t, i)) && Counted(Unlink(vm, t, i))
  {
    hide Owned;
    hide KernelShared;
    hide FreeOk;
    UnlinkRefs(vm, t, i);
    var f, vm' := vm.mem[t][i].frame, Unlink(vm, t, i);
    forall g | 0 <= g < |vm'.mem| ensures CountOk(vm', g) { UnlinkCount(vm, t, i, g); }
    UnlinkTargets(vm, t, i);
  }

  lemma UnlinkTargets(vm: Vm, t: nat, i: nat)
    requires Inv(vm) && IsPresent(vm, Slot(t, i)) && vm.mem[t][i].frame < |vm.mem| && vm.ref[vm.mem[t][i].frame] >= 1
    ensures var vm' := Unlink(vm, t, i);
            Shape(vm') && forall x: Slot | IsPresent(vm', x) ::
              vm'.mem[x.t][x.i].frame < |vm'.mem| && vm'.kind[vm'.mem[x.t][x.i].frame] == User
  {
    hide Owned;
    hide KernelShared;
    hide FreeOk;
    UnlinkRefs(vm, t, i);
    var f, vm' := vm.mem[t][i].frame, Unlink(vm, t, i);
    assert CountOk(vm, f);
    assert |Refs(vm', f)| == |Refs(vm, f)| - 1;
    OnlyWordChanged(vm, vm', t, i);
    forall x: Slot | IsPresent(vm', x)
      ensures vm'.mem[x.t][x.i].frame < |vm'.mem| && vm'.kind[vm'.mem[x.t][x.i].frame] == User {
      assert x in Refs(vm', vm'.mem[x.t][x.i].frame);
      assert IsPresent(vm, x);
    }
  }

  lemma UnlinkCount(vm: Vm, t: nat, i: nat, g: nat)
    requires Inv(vm) && IsPresent(vm, Slot(t, i)) && g < |vm.mem| && vm.mem[t][i].frame < |vm.mem|
    requires vm.ref[vm.mem[t][i].frame] >= 1
    ensures Shape(Unlink(vm, t, i)) && CountOk(Unlink(vm, t, i), g)
  {
    hide Owned;
    hide KernelShared;
    hide FreeOk;
    UnlinkRefs(vm, t, i);
    var f, vm' := vm.mem[t][i].frame, Unlink(vm, t, i);
    assert CountOk(vm, f) && CountOk(vm, g);
    assert |Refs(vm', f)| == |Refs(vm, f)| - 1;
  }

  lemma UnlinkInv(vm: Vm, t: nat, i: nat)
    requires Inv(vm) && IsPresent(vm, Slot(t, i))
    ensures vm.mem[t][i].frame < |vm.mem| && vm.ref[vm.mem[t][i].frame] >= 1
    ensures Inv(Unlink(vm, t, i)) && SameTables(vm, Unlink(vm, t, i))
  {
    UnlinkCounted(vm, t, i);
    var f, vm' := vm.mem[t][i].frame, Unlink(vm, t, i);
    assert SameTables(vm, vm');
    SameTablesOwned(vm, vm');
    if vm.ref[f] == 1 {
      assert f !in vm.free;
      assert vm'.free == [f] + vm.free;
    }
    assert FreeOk(vm');
  }
}
