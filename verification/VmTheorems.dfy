/** What the kernel promises about reference counts and about the hardware's view of the
    page tables, in terms of environments and virtual pages only. */
module VmTheorems {
  import opened Mmu
  import opened VmSpec
  import opened VmLemmas
  import opened Sets

  // ---------------------------------------------------------------- reference counts

  /** Everything that can name a physical page: a mapped user page, a page-directory entry,
      an environment's env_pgdir. */
  datatype Name = PteName(s: nat, v: nat) | PdeName(s: nat, d: nat) | DirName(s: nat)

  predicate Names(vm: Vm, x: Name, f: nat)
    requires Shape(vm)
  {
    match x
    case PteName(s, v) => Mapped(vm, s, v) && Entry(vm, s, v).frame == f
    case PdeName(s, d) => HasTable(vm, s, d) && Pde(vm, s, d).frame == f
    case DirName(s) => Live(vm, s) && vm.dir[s] == f
  }

  function AllNames(): (r: set<Name>)
    ensures forall x: Name ::
              x in r <==> x.s < NENV && (x.PteName? ==> x.v < UTOP_PAGES) && (x.PdeName? ==> x.d < PDX_UTOP)
  {
    (set s, v | 0 <= s < NENV && 0 <= v < UTOP_PAGES :: PteName(s, v))
    + (set s, d | 0 <= s < NENV && 0 <= d < PDX_UTOP :: PdeName(s, d))
    + (set s | 0 <= s < NENV :: DirName(s))
  }

  function NamesOf(vm: Vm, f: nat): (r: set<Name>)
    requires Shape(vm)
    ensures forall x: Name :: x in r <==> Names(vm, x, f)
  {
    set x | x in AllNames() && Names(vm, x, f)
  }

  /** The mapped user page that a page-table word stands for. */
  function NameOfSlot(vm: Vm, x: Slot): Name {
    if x.t < |vm.kind| && vm.kind[x.t].Table? && x.i < NPTENTRIES
    then PteName(vm.kind[x.t].slot, Vpn(vm.kind[x.t].d, x.i))
    else DirName(0)
  }

  lemma SlotNameInjective(vm: Vm, x: Slot, y: Slot)
    requires Inv(vm) && IsPresent(vm, x) && IsPresent(vm, y) && x != y
    ensures NameOfSlot(vm, x) != NameOfSlot(vm, y)
  {
    assert Pde(vm, vm.kind[x.t].slot, vm.kind[x.t].d).frame == x.t;
    assert Pde(vm, vm.kind[y.t].slot, vm.kind[y.t].d).frame == y.t;
  }

  lemma UserNames(vm: Vm, f: nat)
    requires Inv(vm) && f < |vm.mem| && vm.kind[f] == User
    ensures |NamesOf(vm, f)| == |Refs(vm, f)|
  {
    var name := (x: Slot) => NameOfSlot(vm, x);
    forall x, y | x in Refs(vm, f) && y in Refs(vm, f) && x != y ensures name(x) != name(y) {
      SlotNameInjective(vm, x, y);
    }
    InjectiveImage(Refs(vm, f), name);
    var names := Image(Refs(vm, f), name);
    forall n: Name | Names(vm, n, f) ensures n in names {
      NameKind(vm, n, f);
      var t := Pde(vm, n.s, n.v / NPTENTRIES).frame;
      assert vm.kind[t] == Table(n.s, n.v / NPTENTRIES);
      assert Slot(t, n.v % NPTENTRIES) in Refs(vm, f);
      assert n == name(Slot(t, n.v % NPTENTRIES));
    }
    forall n: Name | n in names ensures Names(vm, n, f) {
      var x :| x in Refs(vm, f) && n == name(x);
      assert HasTable(vm, vm.kind[x.t].slot, vm.kind[x.t].d);
    }
    assert names == NamesOf(vm, f);
  }

  /** What names a frame determines what the frame is used for. */
  lemma NameKind(vm: Vm, x: Name, f: nat)
    requires Inv(vm) && Names(vm, x, f)
    ensures f < |vm.mem|
    ensures vm.kind[f] == match x case PteName(_, _) => User case PdeName(s, d) => Table(s, d) case DirName(s) => Dir(s)
  {
    if x.PteName? {
      var t := Pde(vm, x.s, x.v / NPTENTRIES).frame;
      assert vm.kind[t] == Table(x.s, x.v / NPTENTRIES);
      assert IsPresent(vm, Slot(t, x.v % NPTENTRIES));
    }
  }

  /** pp_ref of every page that page_alloc can hand out is exactly the number of mappings,
      directory entries and directories that name it, and it is zero exactly on the free list. */
  lemma RefCountsNames(vm: Vm, f: nat)
    requires Inv(vm) && f < |vm.mem|
    requires !vm.kind[f].Fixed? && !vm.kind[f].KTable? && !vm.kind[f].Held?
    ensures vm.ref[f] == |NamesOf(vm, f)|
    ensures vm.ref[f] == 0 <==> f in vm.free
  {
    assert CountOk(vm, f);
    forall x: Name | Names(vm, x, f)
      ensures vm.kind[f] ==
                match x case PteName(_, _) => User case PdeName(s, d) => Table(s, d) case DirName(s) => Dir(s) {
      NameKind(vm, x, f);
    }
    match vm.kind[f] {
      case User => UserNames(vm, f);
      case Dir(s) => assert NamesOf(vm, f) == {DirName(s)};
      case Table(s, d) => assert NamesOf(vm, f) == {PdeName(s, d)};
      case Free => assert NamesOf(vm, f) == {};
    }
  }

  /** The width of pp_ref is all that limits this: counting one more mapping in 16 bits keeps
      the counts right exactly while the count is below its maximum. */
  lemma CountsSurviveIff(vm: Vm, t: nat, i: nat, pp: nat, bits: Bits)
    requires CanLink(vm, t, i, pp, bits) && vm.ref[pp] <= REF_MAX
    ensures Inv(Link(vm, t, i, pp, bits).(ref := vm.ref[pp := (vm.ref[pp] + 1) % (REF_MAX + 1)])) <==>
              vm.ref[pp] < REF_MAX
  {
    LinkInv(vm, t, i, pp, bits);
    var vm' := Link(vm, t, i, pp, bits).(ref := vm.ref[pp := (vm.ref[pp] + 1) % (REF_MAX + 1)]);
    if vm.ref[pp] == REF_MAX {
      assert !CountOk(vm', pp);
    } else {
      assert vm' == Link(vm, t, i, pp, bits);
    }
  }

  // ---------------------------------------------------------------- the hardware walk

  /** The word the processor loads from linear address (d, i, o) with root directory `root`,
      when both levels are present. */
  predicate Loads(mem: seq<Frame>, root: nat, d: nat, i: nat, o: nat, w: Word) {
    && root < |mem| && d < |mem[root]| && P in mem[root][d].bits
    && var t := mem[root][d].frame;
       && t < |mem| && i < |mem[t]| && P in mem[t][i].bits
       && var f := mem[t][i].frame;
          f < |mem| && o < |mem[f]| && mem[f][o] == w
  }

  /** The processor gets from linear page (d, i) to frame f with root directory `root`, and finds the
      bits it needs at both levels. */
  predicate Reaches(mem: seq<Frame>, root: int, d: nat, i: nat, need: Bits, f: nat) {
    && 0 <= root < |mem| && d < |mem[root]| && need <= mem[root][d].bits
    && var t := mem[root][d].frame;
       t < |mem| && i < |mem[t]| && need <= mem[t][i].bits && mem[t][i].frame == f
  }

  /** In user mode the environment can read what frame f holds at page v, ... */
  predicate CanRead(vm: Vm, s: nat, v: nat, f: nat)
    requires Shape(vm) && s < NENV
  {
    Reaches(vm.mem, vm.dir[s], v / NPTENTRIES, v % NPTENTRIES, {P, U}, f)
  }

  /** ... and write it. */
  predicate CanWrite(vm: Vm, s: nat, v: nat, f: nat)
    requires Shape(vm) && s < NENV
  {
    Reaches(vm.mem, vm.dir[s], v / NPTENTRIES, v % NPTENTRIES, {P, U, W}, f)
  }

  /** What the processor lets an environment do is what its address space says: the directory
      entries, whose permissions count as well, never stand in the way. */
  lemma UserAccessIff(vm: Vm, s: nat, v: nat, f: nat)
    requires Inv(vm) && Live(vm, s) && v < UTOP_PAGES
    ensures CanRead(vm, s, v, f) <==> v in Space(vm, s) && U in Space(vm, s)[v].bits && f == Space(vm, s)[v].frame
    ensures CanWrite(vm, s, v, f) <==>
              v in Space(vm, s) && {U, W} <= Space(vm, s)[v].bits && f == Space(vm, s)[v].frame
  {
    hide Counted;
    hide FreeOk;
    hide KernelShared;
    assert Live(vm, s) && v / NPTENTRIES < PDX_UTOP;
    assert P in Pde(vm, s, v / NPTENTRIES).bits ==> HasTable(vm, s, v / NPTENTRIES);
  }

  /** uvpt[v], the word at UVPT + 4v, is the page-table entry of page v, and uvpd[d], the word
      at UVPT + (UVPT >> 10) + 4d, is the page-directory entry d: the directory mapped into
      itself makes every table readable. */
  lemma UvptShowsTheTables(vm: Vm, s: nat, v: nat)
    requires Inv(vm) && v < UTOP_PAGES && HasTable(vm, s, v / NPTENTRIES)
    ensures Loads(vm.mem, vm.dir[s], PDX_UVPT, v / NPTENTRIES, v % NPTENTRIES,
                  vm.mem[Pde(vm, s, v / NPTENTRIES).frame][v % NPTENTRIES])
    ensures v in Space(vm, s) <==>
              exists w: Word :: Loads(vm.mem, vm.dir[s], PDX_UVPT, v / NPTENTRIES, v % NPTENTRIES, w) && P in w.bits
    ensures forall w: Word | v in Space(vm, s)
                             && Loads(vm.mem, vm.dir[s], PDX_UVPT, v / NPTENTRIES, v % NPTENTRIES, w) ::
              w == Space(vm, s)[v]
    ensures Loads(vm.mem, vm.dir[s], PDX_UVPT, PDX_UVPT, v / NPTENTRIES, Pde(vm, s, v / NPTENTRIES))
  {
    assert Pde(vm, s, PDX_UVPT) == Word(vm.dir[s], {P, U});
  }

  /** At and above UTOP every environment translates through the same page tables, so writing
      a word of one of them, as page_insert would for such an address, is seen by every
      environment: the one-address-space guarantee holds below UTOP only. */
  lemma AboveUtopIsShared(vm: Vm, s: nat, s': nat, d: nat, i: nat, w: Word)
    requires Inv(vm) && Live(vm, s) && Live(vm, s') && PDX_UTOP <= d < NPDENTRIES && d != PDX_UVPT && i < NPTENTRIES
    requires P in Pde(vm, s, d).bits
    ensures Pde(vm, s', d) == Pde(vm, s, d) && Pde(vm, s, d).frame < |vm.mem|
    ensures var vm' := Put(vm, Pde(vm, s, d).frame, i, w);
            Shape(vm') && Live(vm', s') && Pde(vm', s', d) == Pde(vm, s, d) && vm'.mem[Pde(vm', s', d).frame][i] == w
  {
    assert Pde(vm, s, d) == vm.mem[vm.kern][d];
    assert vm.kind[Pde(vm, s, d).frame] == KTable(d);
    assert vm.kind[vm.dir[s']] == Dir(s');
  }

  /** What page_insert does for such an address, as when a page is sent to a receiver that listens
      at UTOP: the kernel's own page that was mapped there goes on the free list, every environment
      sees the new page in its place, and the new page's count is no longer the number of its
      mappings, whatever the frames are taken to be used for. */
  lemma InsertAboveUtop(vm: Vm, s: nat, d: nat, i: nat, pp: nat, bits: Bits)
    requires Inv(vm) && Live(vm, s) && PDX_UTOP <= d < NPDENTRIES && d != PDX_UVPT && i < NPTENTRIES
    requires P in Pde(vm, s, d).bits
    requires Pde(vm, s, d).frame < |vm.mem| && pp < |vm.mem| && vm.kind[pp] == User
    requires var g := vm.mem[Pde(vm, s, d).frame][i].frame; g < |vm.mem| && vm.kind[g] == Fixed && vm.ref[g] == 1
    ensures var t := Pde(vm, s, d).frame;
            var g, vm1 := vm.mem[t][i].frame, Unlink(vm, t, i);
            && Shape(vm1)
            && var vm' := Link(vm1, t, i, pp, bits);
               && vm'.free == [g] + vm.free && Shape(vm') && (forall kind :: !Inv(vm'.(kind := kind)))
               && (forall s' | 0 <= s' < NENV && Live(vm, s') ::
                     Live(vm', s') && Pde(vm', s', d).frame == t && vm'.mem[t][i] == Word(pp, bits))
  {
    hide FreeOk;
    hide Counted;
    var t := Pde(vm, s, d).frame;
    var vm' := Link(Unlink(vm, t, i), t, i, pp, bits);
    assert Pde(vm, s, d) == vm.mem[vm.kern][d] && vm.kind[t] == KTable(d);
    forall s' | 0 <= s' < NENV && Live(vm, s') ensures Live(vm', s') && Pde(vm', s', d).frame == t {
      assert vm.kind[vm.dir[s']] == Dir(s');
    }
    forall kind ensures !Inv(vm'.(kind := kind)) { MiscountedAbove(vm, t, d, i, pp, bits, kind); }
  }

  /** Which frames are page tables follows from the directories. */
  lemma TablesFollow(vm: Vm, vm': Vm, f: nat)
    requires Shape(vm) && Owned(vm) && Shape(vm') && Owned(vm') && vm'.dir == vm.dir && |vm'.mem| == |vm.mem|
    requires f < |vm.mem|
    requires forall g | 0 <= g < |vm.mem| && vm.kind[g].Dir? :: vm'.mem[g] == vm.mem[g]
    ensures vm'.kind[f].Table? <==> vm.kind[f].Table?
  {
    if vm.kind[f].Table? {
      var s, d := vm.kind[f].slot, vm.kind[f].d;
      assert vm.kind[vm.dir[s]] == Dir(s);
      assert Pde(vm', s, d) == Pde(vm, s, d);
    }
    if vm'.kind[f].Table? {
      var s, d := vm'.kind[f].slot, vm'.kind[f].d;
      assert vm.kind[vm.dir[s]] == Dir(s);
      assert Pde(vm, s, d) == Pde(vm', s, d);
    }
  }

  lemma MiscountedAbove(vm: Vm, t: nat, d: nat, i: nat, pp: nat, bits: Bits, kind: seq<Kind>)
    requires Inv(vm) && t < |vm.mem| && vm.kind[t] == KTable(d) && i < NPTENTRIES && pp < |vm.mem|
    requires vm.kind[pp] == User
    requires var g := vm.mem[t][i].frame; g < |vm.mem| && vm.kind[g] == Fixed && vm.ref[g] == 1
    ensures Shape(Unlink(vm, t, i)) && !Inv(Link(Unlink(vm, t, i), t, i, pp, bits).(kind := kind))
  {
    hide Owned;
    hide KernelShared;
    hide FreeOk;
    var vm' := Link(Unlink(vm, t, i), t, i, pp, bits).(kind := kind);
    assert CountOk(vm, pp);
    if Shape(vm') && Owned(vm') {
      forall f: nat | f < |vm.mem| ensures vm'.kind[f].Table? <==> vm.kind[f].Table? { TablesFollow(vm, vm', f); }
      assert Refs(vm', pp) == Refs(vm, pp);
      var x :| x in Refs(vm, pp);
      assert IsPresent(vm', x) && (vm'.kind[pp] == User ==> !CountOk(vm', pp));
    }
  }
}
