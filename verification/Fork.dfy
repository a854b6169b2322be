/** lib/fork.c on top of the page system calls: copy-on-write fork, its page-fault handler, and
    runs that use them. */
module Fork {
  import opened Errors
  import opened Mmu
  import opened Sets
  import opened VmSpec
  import opened VmLemmas
  import opened VmTables
  import opened VmTheorems
  import opened EnvIds
  import opened Pmap
  import opened EnvStatus
  import opened Env
  import opened Cow

  /** Page numbers of UTEXT, USTACKTOP, the user exception stack and PFTEMP. */
  const UTEXT_PN := 0x0080_0000 / PGSIZE
  const USTACK_PN := 0xeebf_e000 / PGSIZE
  const UXSTACK_PN := UTOP / PGSIZE - 1
  const PFTEMP_PN := UTEXT_PN - 1

  function SpacesOf(vm: Vm): (sp: Spaces)
    requires Shape(vm)
    ensures |sp| == NENV && forall s | 0 <= s < NENV :: sp[s] == Space(vm, s)
  {
    seq(NENV, s requires 0 <= s < NENV => Space(vm, s))
  }

  lemma SameSpacesOf(vm: Vm, vm': Vm)
    requires Shape(vm) && Shape(vm') && forall s: nat :: Space(vm', s) == Space(vm, s)
    ensures SpacesOf(vm') == SpacesOf(vm)
  {
  }

  ghost function ViewOf(vm: Vm): View
    requires Shape(vm)
  {
    View(SpacesOf(vm), vm.mem)
  }

  /** The pages in use are the ones somebody maps. */
  lemma UserIffMapped(vm: Vm, f: nat)
    requires Inv(vm) && f < |vm.mem|
    ensures vm.kind[f] == User <==> InUse(SpacesOf(vm), f)
  {
    if vm.kind[f] == User {
      var s, v := UserPageIsMapped(vm, f);
      assert MapsTo(SpacesOf(vm), s, v, f);
    }
    if InUse(SpacesOf(vm), f) {
      var s, v :| MapsTo(SpacesOf(vm), s, v, f);
      MappedIsUser(vm, s, v);
    }
  }

  /** What one mapping system call does to the view. */
  lemma OnePageView(vm: Vm, vm': Vm, s: nat, v: nat, w: Word)
    requires Inv(vm) && Inv(vm') && s < NENV && OnePage(vm, vm', s, v, w)
    ensures SpacesOf(vm') == Update(SpacesOf(vm), s, v, w)
    ensures InUseKept(ViewOf(vm), ViewOf(vm'))
  {
    forall f | 0 <= f < |vm.mem| && InUse(SpacesOf(vm), f) ensures vm'.mem[f] == vm.mem[f] {
      UserIffMapped(vm, f);
    }
  }

  /** A frame on the free list is mapped by nobody. */
  lemma FreeIsUnshared(vm: Vm, f: nat)
    requires Inv(vm) && f < |vm.mem| && vm.kind[f] != User
    ensures Unshared(SpacesOf(vm), f)
  {
    forall s: nat, v: nat | s < NENV && v in SpacesOf(vm)[s] ensures SpacesOf(vm)[s][v].frame != f {
      MappedIsUser(vm, s, v);
    }
  }

  lemma MappedIsUser(vm: Vm, s: nat, v: nat)
    requires Inv(vm) && v in Space(vm, s)
    ensures Space(vm, s)[v].frame < |vm.mem| && vm.kind[Space(vm, s)[v].frame] == User
    ensures P in Space(vm, s)[v].bits && v < UTOP_PAGES && Live(vm, s)
  {
    var t := TableSlot(vm, s, v);
    assert IsPresent(vm, Slot(t, v % NPTENTRIES));
  }

  // ---------------------------------------------------------------- user memory

  /** A store to a user page reaches no page table, so it changes no address space. */
  lemma StoreInv(vm: Vm, f: nat, o: nat, w: Word)
    requires Inv(vm) && f < |vm.mem| && vm.kind[f] == User && o < NPTENTRIES
    ensures Inv(Put(vm, f, o, w))
    ensures forall s: nat :: Space(Put(vm, f, o, w), s) == Space(vm, s)
  {
    var vm' := Put(vm, f, o, w);
    assert SameTables(vm, vm');
    SameTablesOwned(vm, vm');
    SameRefs(vm, vm');
    forall g | 0 <= g < |vm'.mem| ensures CountOk(vm', g) {
      assert CountOk(vm, g);
      assert Refs(vm', g) == Refs(vm, g);
    }
    forall s: nat ensures Space(vm', s) == Space(vm, s) { SameSpace(vm, vm', s); }
  }

  /** A store instruction at word o of a page the environment may write. */
  method Store(k: Kernel, s: nat, v: nat, o: nat, w: Word)
    requires k.Valid() && o < NPTENTRIES
    requires v in Space(k.vm.S(), s) && W in Space(k.vm.S(), s)[v].bits
    modifies k.vm`mem
    ensures k.Valid() && old(Space(k.vm.S(), s)[v].frame) < |k.vm.mem| == |old(k.vm.mem)|
    ensures k.vm.S() == Put(old(k.vm.S()), old(Space(k.vm.S(), s)[v].frame), o, w)
    ensures forall s': nat :: Space(k.vm.S(), s') == old(Space(k.vm.S(), s'))
  {
    ghost var vm0 := k.vm.S();
    MappedIsUser(vm0, s, v);
    StoreInv(vm0, Space(vm0, s)[v].frame, o, w);
    var pp, x := k.vm.PageLookup(s, v);
    k.vm.SetEntry(pp, o, w);
  }

  /** memmove of one page to another page of the same environment. */
  method CopyPage(k: Kernel, s: nat, src: nat, dst: nat)
    requires k.Valid() && src in Space(k.vm.S(), s) && dst in Space(k.vm.S(), s)
    requires W in Space(k.vm.S(), s)[dst].bits
    modifies k.vm`mem
    ensures k.Valid()
    ensures forall s': nat :: Space(k.vm.S(), s') == old(Space(k.vm.S(), s'))
    ensures var f, g := old(Space(k.vm.S(), s)[dst].frame), old(Space(k.vm.S(), s)[src].frame);
            f < k.vm.npages && g < k.vm.npages && k.vm.mem == old(k.vm.mem)[f := old(k.vm.mem[g])]
  {
    hide Inv;
    ghost var vm0 := k.vm.S();
    MappedIsUser(vm0, s, src);
    MappedIsUser(vm0, s, dst);
    ghost var f, g := Space(vm0, s)[dst].frame, Space(vm0, s)[src].frame;
    ghost var buf := vm0.mem[f];
    for o := 0 to NPTENTRIES
      invariant k.Valid() && |buf| == NPTENTRIES
      invariant k.vm.S() == vm0.(mem := vm0.mem[f := buf])
      invariant forall s': nat :: Space(k.vm.S(), s') == Space(vm0, s')
      invariant Copied(buf, vm0.mem[g], vm0.mem[f], o)
    {
      var pp, w := k.vm.PageLookup(s, src);
      var x := k.vm.mem[pp][o];
      CopiedNext(vm0, f, g, buf, o, x);
      Store(k, s, dst, o, x);
      buf := buf[o := x];
    }
    assert buf == vm0.mem[g];
  }

  /** The first o words of buf are new's, the rest are old's. */
  predicate Copied(buf: Frame, new': Frame, old': Frame, o: nat) {
    && |buf| == |new'| == |old'| && o <= |buf|
    && forall j | 0 <= j < |buf| :: buf[j] == if j < o then new'[j] else old'[j]
  }

  lemma CopiedNext(vm: Vm, f: nat, g: nat, buf: Frame, o: nat, x: Word)
    requires Shape(vm) && f < |vm.mem| && g < |vm.mem| && o < NPTENTRIES
    requires Copied(buf, vm.mem[g], vm.mem[f], o)
    requires x == vm.mem[f := buf][g][o]
    ensures Copied(buf[o := x], vm.mem[g], vm.mem[f], o + 1)
    ensures vm.mem[f := buf][f := vm.mem[f := buf][f][o := x]] == vm.mem[f := buf[o := x]]
  {
  }

  // ---------------------------------------------------------------- the page-fault handler

  lemma SelfEnv(k: Kernel, cur: nat)
    requires k.Valid() && cur < NENV && k.status[cur] != FREE
    ensures k.Envid2Env(cur, k.id[cur], true) == cur && k.Envid2Env(cur, 0, true) == cur
  {
    IdClosedForm(cur, k.uses[cur]);
  }

  lemma SoleMappingRef(vm: Vm, s: nat, v: nat)
    requires Inv(vm) && s < NENV && v in Space(vm, s)
    requires forall s': nat, v': nat | MapsTo(SpacesOf(vm), s', v', Space(vm, s)[v].frame) :: (s', v') == (s, v)
    ensures Space(vm, s)[v].frame < |vm.ref| && vm.ref[Space(vm, s)[v].frame] == 1
  {
    var f := Space(vm, s)[v].frame;
    MappedIsUser(vm, s, v);
    forall x: Name | Names(vm, x, f) ensures x == PteName(s, v) {
      NameKind(vm, x, f);
      assert MapsTo(SpacesOf(vm), x.s, x.v, f);
    }
    assert NamesOf(vm, f) == {PteName(s, v)};
    RefCountsNames(vm, f);
  }

  /** There is no page for page v of slot s, or none for the page table that it would need. */
  ghost predicate NoPageFor(vm: Vm, s: nat, v: nat)
    requires Shape(vm)
  {
    vm.free == [] || (|vm.free| == 1 && !HasTable(vm, s, v / NPTENTRIES))
  }

  /** sys_page_alloc at PFTEMP, as seen by the handler. */
  lemma TempPage(vm0: Vm, vm1: Vm, s: nat)
    requires Inv(vm0) && Inv(vm1) && s < NENV && vm0.free != []
    requires OnePage(vm0, vm1, s, PFTEMP_PN, Word(vm0.free[0], {P} + RW_BITS))
    ensures vm0.free[0] < |vm0.mem| && Unshared(SpacesOf(vm0), vm0.free[0])
    ensures SpacesOf(vm1) == Update(SpacesOf(vm0), s, PFTEMP_PN, Word(vm0.free[0], RW_BITS))
    ensures InUseKept(ViewOf(vm0), ViewOf(vm1))
    ensures vm1.ref[vm0.free[0]] == 1
  {
    hide Inv;
    var f := vm0.free[0];
    HeadIsFree(vm0);
    assert {P} + RW_BITS == RW_BITS;
    FreeIsUnshared(vm0, f);
    OnePageView(vm0, vm1, s, PFTEMP_PN, Word(f, RW_BITS));
    SoleMappingRef(vm1, s, PFTEMP_PN);
  }

  /** The copy into the temporary page. */
  lemma TempFilled(vm0: Vm, vm1: Vm, vm2: Vm, s: nat, v: nat)
    requires Inv(vm0) && Shape(vm1) && Shape(vm2) && s < NENV && v in Space(vm0, s)
    requires vm0.free != [] && vm0.free[0] < |vm0.mem| == |vm1.mem| && Unshared(SpacesOf(vm0), vm0.free[0])
    requires SpacesOf(vm1) == Update(SpacesOf(vm0), s, PFTEMP_PN, Word(vm0.free[0], RW_BITS))
    requires InUseKept(ViewOf(vm0), ViewOf(vm1)) && SpacesOf(vm2) == SpacesOf(vm1)
    requires v in SpacesOf(vm1)[s] && SpacesOf(vm1)[s][v].frame < |vm1.mem|
    requires vm2.mem == vm1.mem[vm0.free[0] := vm1.mem[SpacesOf(vm1)[s][v].frame]]
    ensures TempMade(ViewOf(vm0), ViewOf(vm2), s, PFTEMP_PN, v, vm0.free[0])
    ensures InUseKept(ViewOf(vm0), ViewOf(vm2))
  {
    MappedIsUser(vm0, s, v);
    var f, g := vm0.free[0], Space(vm0, s)[v].frame;
    if v != PFTEMP_PN {
      assert MapsTo(SpacesOf(vm0), s, v, g) && MapsTo(SpacesOf(vm1), s, v, g);
    }
    assert !InUse(SpacesOf(vm0), f);
  }

  method AllocTemp(k: Kernel, cur: nat) returns (ok: bool)
    requires k.Valid() && cur < NENV && k.status[cur] != FREE
    modifies k.vm
    ensures k.Valid() && InUseKept(old(ViewOf(k.vm.S())), ViewOf(k.vm.S()))
    ensures ok <==> !old(NoPageFor(k.vm.S(), cur, PFTEMP_PN))
    ensures !ok ==> SpacesOf(k.vm.S()) == old(SpacesOf(k.vm.S()))
    ensures ok ==> old(k.vm.free) != [] && old(k.vm.free[0]) < |k.vm.mem| && k.vm.ref[old(k.vm.free[0])] == 1
    ensures ok ==> Unshared(old(SpacesOf(k.vm.S())), old(k.vm.free[0]))
    ensures ok ==>
              SpacesOf(k.vm.S()) == Update(old(SpacesOf(k.vm.S())), cur, PFTEMP_PN, Word(old(k.vm.free[0]), RW_BITS))
  {
    hide Inv;
    hide InUseKept;
    hide Unshared;
    hide Update;
    ghost var vm0 := k.vm.S();
    SelfEnv(k, cur);
    var r := k.SysPageAlloc(cur, k.id[cur], PFTEMP_PN * PGSIZE, RW_BITS);
    if r < 0 {
      UntouchedView(vm0, k.vm.S());
      return false;
    }
    TempPage(vm0, k.vm.S(), cur);
    ok := true;
  }

  lemma TempMapped(vm0: Vm, vm1: Vm, s: nat, v: nat, f: nat)
    requires Shape(vm0) && Shape(vm1) && s < NENV && v in Space(vm0, s)
    requires SpacesOf(vm1) == Update(SpacesOf(vm0), s, PFTEMP_PN, Word(f, RW_BITS))
    ensures v in Space(vm1, s) && PFTEMP_PN in Space(vm1, s) && Space(vm1, s)[PFTEMP_PN] == Word(f, RW_BITS)
  {
    assert SpacesOf(vm1)[s] == Space(vm1, s);
  }

  /** The handler's first half: a page at PFTEMP that holds what page v held. */
  method MakeTemp(k: Kernel, cur: nat, v: nat) returns (ok: bool)
    requires k.Valid() && cur < NENV && k.status[cur] != FREE && v in Space(k.vm.S(), cur)
    modifies k.vm
    ensures k.Valid() && InUseKept(old(ViewOf(k.vm.S())), ViewOf(k.vm.S()))
    ensures ok <==> !old(NoPageFor(k.vm.S(), cur, PFTEMP_PN))
    ensures !ok ==> SpacesOf(k.vm.S()) == old(SpacesOf(k.vm.S()))
    ensures ok ==> old(k.vm.free) != [] && k.vm.ref[old(k.vm.free[0])] == 1
    ensures ok ==> TempMade(old(ViewOf(k.vm.S())), ViewOf(k.vm.S()), cur, PFTEMP_PN, v, old(k.vm.free[0]))
  {
    hide Inv;
    hide InUseKept;
    hide TempMade;
    hide Unshared;
    hide Update;
    hide Space;
    ghost var vm0 := k.vm.S();
    ok := AllocTemp(k, cur);
    if !ok {
      return;
    }
    ghost var vm1 := k.vm.S();
    TempMapped(vm0, vm1, cur, v, vm0.free[0]);
    CopyPage(k, cur, v, PFTEMP_PN);
    SameSpacesOf(vm1, k.vm.S());
    TempFilled(vm0, vm1, k.vm.S(), cur, v);
  }

  lemma UntouchedView(vm: Vm, vm': Vm)
    requires Inv(vm) && Untouched(vm, vm')
    ensures SpacesOf(vm') == SpacesOf(vm) && InUseKept(ViewOf(vm), ViewOf(vm'))
  {
    SameSpacesOf(vm, vm');
    forall f | 0 <= f < |vm.mem| && InUse(SpacesOf(vm), f) ensures vm'.mem[f] == vm.mem[f] {
      UserIffMapped(vm, f);
    }
  }

  lemma UntouchedTables(vm: Vm, vm': Vm, s: nat, v: nat)
    requires Inv(vm) && Untouched(vm, vm') && s < NENV
    ensures NoPageFor(vm', s, v) == NoPageFor(vm, s, v) && Space(vm', s) == Space(vm, s)
  {
    if Live(vm, s) { assert vm.kind[vm.dir[s]] == Dir(s); }
  }

  /** The handler's second half: the private page moves from PFTEMP to v. */
  method MoveTemp(k: Kernel, cur: nat, v: nat)
    requires k.Valid() && cur < NENV && k.status[cur] != FREE && v in Space(k.vm.S(), cur)
    requires PFTEMP_PN in Space(k.vm.S(), cur) && Space(k.vm.S(), cur)[PFTEMP_PN].bits == RW_BITS
    requires RoomAt(k.vm.S(), cur, PFTEMP_PN)
    modifies k.vm
    ensures k.Valid() && InUseKept(old(ViewOf(k.vm.S())), ViewOf(k.vm.S()))
    ensures SpacesOf(k.vm.S()) == Move(old(SpacesOf(k.vm.S())), cur, PFTEMP_PN, v,
                                       Word(old(Space(k.vm.S(), cur)[PFTEMP_PN].frame), RW_BITS))
  {
    hide Inv;
    hide InUseKept;
    ghost var vm0 := k.vm.S();
    SelfEnv(k, cur);
    MappedIsUser(vm0, cur, v);
    ghost var w := Word(Space(vm0, cur)[PFTEMP_PN].frame, RW_BITS);
    assert {P} + RW_BITS == RW_BITS;
    assert (v * PGSIZE) / PGSIZE == v;
    var r := k.SysPageMap(cur, k.id[cur], PFTEMP_PN * PGSIZE, k.id[cur], v * PGSIZE, RW_BITS);
    assert r == 0;
    ghost var vm1 := k.vm.S();
    OnePageView(vm0, vm1, cur, v, w);
    r := k.SysPageUnmap(cur, k.id[cur], PFTEMP_PN * PGSIZE);
    OnePageView(vm1, k.vm.S(), cur, PFTEMP_PN, ZERO);
    UnmapKeeps(ViewOf(vm0), ViewOf(vm1), ViewOf(k.vm.S()), cur, PFTEMP_PN);
  }

  lemma TempInPlace(vm0: Vm, vm1: Vm, s: nat, v: nat, f: nat)
    requires Shape(vm0) && Shape(vm1) && TempMade(ViewOf(vm0), ViewOf(vm1), s, PFTEMP_PN, v, f) && vm1.ref[f] == 1
    ensures v in Space(vm1, s) && PFTEMP_PN in Space(vm1, s)
    ensures Space(vm1, s)[PFTEMP_PN] == Word(f, RW_BITS) && RoomAt(vm1, s, PFTEMP_PN)
  {
    assert SpacesOf(vm1)[s] == Space(vm0, s)[PFTEMP_PN := Word(f, RW_BITS)];
  }

  /** pgfault.  False is the panic: the page is not copy-on-write, or no page is left. */
  method PgFault(k: Kernel, cur: nat, v: nat) returns (ok: bool)
    requires k.Valid() && cur < NENV && k.status[cur] != FREE && v < UTOP_PAGES
    requires Isolated(SpacesOf(k.vm.S()))
    modifies k.vm
    ensures k.Valid() && Isolated(SpacesOf(k.vm.S()))
    ensures OthersKept(old(ViewOf(k.vm.S())), ViewOf(k.vm.S()), cur)
    ensures ok <==> old(v in Space(k.vm.S(), cur) && Cow in Space(k.vm.S(), cur)[v].bits)
                    && !old(NoPageFor(k.vm.S(), cur, PFTEMP_PN))
    ensures !ok ==> SpacesOf(k.vm.S()) == old(SpacesOf(k.vm.S()))
    ensures ok && v != PFTEMP_PN ==> PrivateCopy(old(ViewOf(k.vm.S())), ViewOf(k.vm.S()), cur, PFTEMP_PN, v)
    ensures ok && v != PFTEMP_PN ==> v in Space(k.vm.S(), cur) && Space(k.vm.S(), cur)[v].bits == {P, U, W}
  {
    hide Inv;
    hide Isolated;
    hide InUseKept;
    hide TempMade;
    hide PrivateCopy;
    hide NoPageFor;
    ghost var vm0 := k.vm.S();
    var pp, x := k.vm.PageLookup(cur, v);
    if pp < 0 || Cow !in x.bits {
      NothingHappened(ViewOf(vm0), cur);
      return false;
    }
    ok := MakeTemp(k, cur, v);
    if !ok {
      return;
    }
    ghost var vm1 := k.vm.S();
    TempInPlace(vm0, vm1, cur, v, vm0.free[0]);
    MoveTemp(k, cur, v);
    FaultHandled(ViewOf(vm0), ViewOf(vm1), ViewOf(k.vm.S()), cur, PFTEMP_PN, v, vm0.free[0]);
    if v != PFTEMP_PN { CopyBits(vm0, k.vm.S(), cur, v); }
  }

  lemma NothingHappened(a: View, s: nat)
    ensures OthersKept(a, a, s)
  {
  }

  lemma CopyBits(vm: Vm, vm': Vm, s: nat, v: nat)
    requires Shape(vm) && Shape(vm') && s < NENV && PrivateCopy(ViewOf(vm), ViewOf(vm'), s, PFTEMP_PN, v)
    ensures v in Space(vm', s) && Space(vm', s)[v].bits == {P, U, W}
  {
    assert SpacesOf(vm')[s] == Space(vm', s);
  }

  // ---------------------------------------------------------------- fork

  /** A page in use is named by mappings only. */
  lemma UserNamesAreMappings(vm: Vm, f: nat)
    requires Inv(vm) && f < |vm.mem| && vm.kind[f] == User
    ensures vm.ref[f] == |NamesOf(vm, f)|
    ensures forall x: Name :: x in NamesOf(vm, f) <==> x.PteName? && MapsTo(SpacesOf(vm), x.s, x.v, f)
  {
    RefCountsNames(vm, f);
    forall x: Name ensures x in NamesOf(vm, f) <==> x.PteName? && MapsTo(SpacesOf(vm), x.s, x.v, f) {
      if x in NamesOf(vm, f) { NameKind(vm, x, f); }
    }
  }

  /** fork at most doubles a page's reference count. */
  lemma ForkedRefs(vm: Vm, vm': Vm, parent: nat, child: nat, lo: nat, pn: nat, f: nat)
    requires Inv(vm) && Inv(vm') && |vm'.mem| == |vm.mem| && f < |vm.mem|
    requires ForkedTo(SpacesOf(vm), SpacesOf(vm'), parent, child, lo, pn) && SpacesOf(vm)[child] == map[]
    requires vm'.kind[f] == User
    ensures vm'.ref[f] <= 2 * vm.ref[f]
  {
    ForkedInUse(SpacesOf(vm), SpacesOf(vm'), parent, child, lo, pn, f);
    UserIffMapped(vm, f);
    UserIffMapped(vm', f);
    UserNamesAreMappings(vm, f);
    UserNamesAreMappings(vm', f);
    TwiceAsMany(SpacesOf(vm), SpacesOf(vm'), parent, child, lo, pn, f, NamesOf(vm, f), NamesOf(vm', f));
  }

  lemma TwiceAsMany(a: Spaces, b: Spaces, parent: nat, child: nat, lo: nat, pn: nat, f: nat, na: set<Name>,
                    nb: set<Name>)
    requires ForkedTo(a, b, parent, child, lo, pn) && a[child] == map[]
    requires forall x: Name :: x in na <==> x.PteName? && MapsTo(a, x.s, x.v, f)
    requires forall x: Name :: x in nb <==> x.PteName? && MapsTo(b, x.s, x.v, f)
    ensures |nb| <= 2 * |na|
  {
    var old' := set x | x in nb && x.s != child;
    var new' := set x | x in nb && x.s == child;
    assert nb == old' + new' && old' !! new';
    forall x | x in old' ensures x in na {
      assert MapsTo(b, x.s, x.v, f);
    }
    SubsetCount(old', na);
    var twin := (x: Name) => if x.PteName? then PteName(parent, x.v) else x;
    InjectiveImage(new', twin);
    forall y | y in Image(new', twin) ensures y in na {
      var x :| x in new' && y == twin(x);
      assert MapsTo(b, child, x.v, f) && MapsTo(a, parent, x.v, f);
    }
    SubsetCount(Image(new', twin), na);
  }

  lemma RepermKeeps(a: View, b: View, c: View, s: nat, v: nat, w: Word)
    requires s < |b.sp| && MapsTo(b.sp, s, v, w.frame) && P in w.bits
    requires InUseKept(a, b) && InUseKept(b, c) && c.sp == Update(b.sp, s, v, w)
    ensures InUseKept(a, c)
  {
    forall f | 0 <= f < |a.mem| && InUse(a.sp, f) && InUse(c.sp, f) ensures c.mem[f] == a.mem[f] {
      var s', v' :| MapsTo(c.sp, s', v', f);
      assert MapsTo(b.sp, s', v', f);
    }
  }

  /** sys_page_map of one's own page v into environment `dst` at the same address. */
  method MapSame(k: Kernel, cur: nat, dstid: int, v: nat, perm: Bits) returns (r: int)
    requires k.Valid() && cur < NENV && k.status[cur] != FREE
    requires v in Space(k.vm.S(), cur) && RoomAt(k.vm.S(), cur, v)
    requires k.Envid2Env(cur, dstid, true) >= 0
    requires P in perm && perm <= SYSCALL_BITS && (W in perm ==> W in Space(k.vm.S(), cur)[v].bits)
    modifies k.vm
    ensures k.Valid() && r in {0, -E_INVAL, -E_NO_MEM}
    ensures r == -E_INVAL <==> U !in perm
    ensures r == -E_NO_MEM <==>
              && U in perm && old(k.vm.free) == []
              && !old(HasTable(k.vm.S(), k.Envid2Env(cur, dstid, true), v / NPTENTRIES))
    ensures r < 0 ==> k.vm.S() == old(k.vm.S())
    ensures InUseKept(old(ViewOf(k.vm.S())), ViewOf(k.vm.S()))
    ensures r == 0 ==> SpacesOf(k.vm.S()) == Update(old(SpacesOf(k.vm.S())), k.Envid2Env(cur, dstid, true), v,
                                                    Word(old(Space(k.vm.S(), cur)[v].frame), perm))
  {
    hide Inv;
    ghost var vm0 := k.vm.S();
    SelfEnv(k, cur);
    MappedIsUser(vm0, cur, v);
    assert (v * PGSIZE) / PGSIZE == v;
    assert {P} + perm == perm;
    r := k.SysPageMap(cur, 0, v * PGSIZE, dstid, v * PGSIZE, perm);
    if r == 0 {
      OnePageView(vm0, k.vm.S(), k.Envid2Env(cur, dstid, true), v, Word(Space(vm0, cur)[v].frame, perm));
    }
  }

  /** One more mapping adds at most one to a page's count. */
  lemma OneMoreRef(vm: Vm, vm': Vm, s: nat, v: nat, w: Word, f: nat)
    requires Shape(vm) && Shape(vm') && Inv(vm) && Inv(vm') && |vm'.mem| == |vm.mem| && s < NENV && f < |vm.mem|
    requires SpacesOf(vm') == Update(SpacesOf(vm), s, v, w) && vm.kind[f] == User && vm'.kind[f] == User
    ensures vm'.ref[f] <= vm.ref[f] + 1
  {
    hide Inv;
    hide NamesOf;
    UserNamesAreMappings(vm, f);
    UserNamesAreMappings(vm', f);
    forall x | x in NamesOf(vm', f) ensures x in NamesOf(vm, f) + {PteName(s, v)} {
      assert MapsTo(SpacesOf(vm'), x.s, x.v, f);
    }
    SubsetCount(NamesOf(vm', f), NamesOf(vm, f) + {PteName(s, v)});
  }

  /** The page's count has room for two more mappings. */
  ghost predicate TwoMore(vm: Vm, s: nat, v: nat) {
    Shape(vm) && v in Space(vm, s) && Space(vm, s)[v].frame < |vm.ref| && vm.ref[Space(vm, s)[v].frame] + 1 < REF_MAX
  }

  ghost predicate Duplicated(vm: Vm, vm': Vm, cur: nat, child: int, v: nat) {
    && Shape(vm) && Shape(vm') && cur < NENV && 0 <= child < NENV && v in Space(vm, cur)
    && SpacesOf(vm') == Dup(SpacesOf(vm), cur, child, v)
  }

  /** duppage's middle branch: the child's copy-on-write mapping, then the parent's own. */
  method DupCowPage(k: Kernel, cur: nat, childId: int, v: nat) returns (r: int)
    requires k.Valid() && cur < NENV && k.status[cur] != FREE
    requires v in Space(k.vm.S(), cur) && k.Envid2Env(cur, childId, true) >= 0 && k.Envid2Env(cur, childId, true) != cur
    requires TwoMore(k.vm.S(), cur, v)
    requires var b := Space(k.vm.S(), cur)[v].bits; Share !in b && (W in b || Cow in b)
    modifies k.vm
    ensures k.Valid() && r in {0, -E_NO_MEM}
    ensures InUseKept(old(ViewOf(k.vm.S())), ViewOf(k.vm.S()))
    ensures r < 0 ==> k.vm.S() == old(k.vm.S())
    ensures r < 0 <==>
              old(k.vm.free) == [] && !old(HasTable(k.vm.S(), k.Envid2Env(cur, childId, true), v / NPTENTRIES))
    ensures r == 0 ==> Duplicated(old(k.vm.S()), k.vm.S(), cur, k.Envid2Env(cur, childId, true), v)
  {
    hide Inv;
    hide InUseKept;
    hide Duplicated;
    hide Update;
    hide Space;
    ghost var vm0 := k.vm.S();
    ghost var child := k.Envid2Env(cur, childId, true);
    ghost var w := Word(Space(vm0, cur)[v].frame, COW_BITS);
    r := MapSame(k, cur, childId, v, COW_BITS);
    if r < 0 {
      return;
    }
    ghost var vm1 := k.vm.S();
    StillOwn(vm0, vm1, cur, child, v, w);
    SelfEnv(k, cur);
    r := MapSame(k, cur, 0, v, COW_BITS);
    BothMarked(vm0, vm1, k.vm.S(), cur, child, v, w);
    RepermKeeps(ViewOf(vm0), ViewOf(vm1), ViewOf(k.vm.S()), cur, v, w);
  }

  lemma BothMarked(vm0: Vm, vm1: Vm, vm2: Vm, s: nat, child: nat, v: nat, w: Word)
    requires Shape(vm0) && Shape(vm1) && Shape(vm2) && s < NENV && child < NENV && child != s && v in Space(vm0, s)
    requires w == Word(Space(vm0, s)[v].frame, COW_BITS)
    requires var b := Space(vm0, s)[v].bits; Share !in b && (W in b || Cow in b)
    requires SpacesOf(vm1) == Update(SpacesOf(vm0), child, v, w) && SpacesOf(vm2) == Update(SpacesOf(vm1), s, v, w)
    ensures Duplicated(vm0, vm2, s, child, v)
  {
  }

  lemma StillOwn(vm0: Vm, vm1: Vm, s: nat, child: nat, v: nat, w: Word)
    requires Inv(vm0) && Inv(vm1) && |vm0.mem| == |vm1.mem| && s < NENV && child < NENV && child != s
    requires v in Space(vm0, s) && w.frame == Space(vm0, s)[v].frame < |vm0.ref|
    requires SpacesOf(vm1) == Update(SpacesOf(vm0), child, v, w) && vm0.ref[w.frame] + 1 < REF_MAX
    ensures v in Space(vm1, s) && Space(vm1, s)[v] == Space(vm0, s)[v] && RoomAt(vm1, s, v)
    ensures MapsTo(SpacesOf(vm1), s, v, w.frame) && HasTable(vm1, s, v / NPTENTRIES)
  {
    assert SpacesOf(vm1)[s] == Space(vm0, s);
    MappedIsUser(vm0, s, v);
    MappedIsUser(vm1, s, v);
    OneMoreRef(vm0, vm1, child, v, w, w.frame);
  }

  /** duppage: both sides end up with compatible mappings of the page, or nothing changed. */
  method Duppage(k: Kernel, cur: nat, childId: int, v: nat) returns (r: int)
    requires k.Valid() && cur < NENV && k.status[cur] != FREE && Isolated(SpacesOf(k.vm.S()))
    requires v in Space(k.vm.S(), cur) && k.Envid2Env(cur, childId, true) >= 0 && k.Envid2Env(cur, childId, true) != cur
    requires TwoMore(k.vm.S(), cur, v)
    modifies k.vm
    ensures k.Valid() && Isolated(SpacesOf(k.vm.S())) && r in {0, -E_INVAL, -E_NO_MEM}
    ensures InUseKept(old(ViewOf(k.vm.S())), ViewOf(k.vm.S()))
    ensures r < 0 ==> k.vm.S() == old(k.vm.S())
    ensures r == 0 ==> SpacesOf(k.vm.S()) == Dup(old(SpacesOf(k.vm.S())), cur, k.Envid2Env(cur, childId, true), v)
    ensures r == -E_INVAL <==> old(Share in Space(k.vm.S(), cur)[v].bits && U !in Space(k.vm.S(), cur)[v].bits)
    ensures r == -E_NO_MEM <==>
              && r != -E_INVAL && old(k.vm.free) == []
              && !old(HasTable(k.vm.S(), k.Envid2Env(cur, childId, true), v / NPTENTRIES))
  {
    hide Inv;
    hide Isolated;
    hide InUseKept;
    ghost var vm0 := k.vm.S();
    ghost var child := k.Envid2Env(cur, childId, true);
    MappedIsUser(vm0, cur, v);
    DupIsolated(SpacesOf(vm0), cur, child, v);
    var pp, w := k.vm.PageLookup(cur, v);
    if Share in w.bits {
      r := MapSame(k, cur, childId, v, w.bits * SYSCALL_BITS);
      if r == 0 { DupOneSided(SpacesOf(vm0), cur, child, v); }
    } else if W in w.bits || Cow in w.bits {
      r := DupCowPage(k, cur, childId, v);
    } else {
      r := MapSame(k, cur, childId, v, READ_BITS);
      if r == 0 { DupOneSided(SpacesOf(vm0), cur, child, v); }
    }
  }

  /** When the parent keeps its permissions, duppage is the child's mapping alone. */
  lemma DupOneSided(sp: Spaces, parent: nat, child: nat, v: nat)
    requires parent < |sp| && child < |sp| && parent != child && v in sp[parent]
    requires ParentBits(sp[parent][v].bits) == sp[parent][v].bits && P in ChildBits(sp[parent][v].bits)
    ensures Dup(sp, parent, child, v) == Update(sp, child, v, Word(sp[parent][v].frame, ChildBits(sp[parent][v].bits)))
  {
    assert sp[parent][v := sp[parent][v]] == sp[parent];
  }

  lemma ExoforkView(vm: Vm, vm': Vm, child: nat)
    requires Inv(vm) && Inv(vm') && |vm'.mem| == |vm.mem| && child < NENV && !Live(vm, child)
    requires DataKept(vm, vm') && Space(vm', child) == map[]
    requires forall s: nat | s != child :: Space(vm', s) == Space(vm, s)
    ensures SpacesOf(vm') == SpacesOf(vm) && SpacesOf(vm)[child] == map[] && InUseKept(ViewOf(vm), ViewOf(vm'))
  {
    assert Space(vm, child) == map[];
    forall f | 0 <= f < |vm.mem| && InUse(SpacesOf(vm), f) ensures vm'.mem[f] == vm.mem[f] {
      UserIffMapped(vm, f);
    }
  }

  /** Every page could be mapped twice as often without overflowing pp_ref. */
  ghost predicate HalfFull(vm: Vm) {
    forall f | 0 <= f < |vm.ref| :: 2 * vm.ref[f] + 1 < REF_MAX
  }

  lemma RoomToDup(vm: Vm, vm': Vm, parent: nat, child: nat, pn: nat)
    requires Inv(vm) && Inv(vm') && |vm'.mem| == |vm.mem| && HalfFull(vm)
    requires ForkedTo(SpacesOf(vm), SpacesOf(vm'), parent, child, UTEXT_PN, pn) && SpacesOf(vm)[child] == map[]
    requires parent < NENV && pn in Space(vm', parent)
    ensures Space(vm', parent)[pn].frame < |vm'.ref| && vm'.ref[Space(vm', parent)[pn].frame] + 1 < REF_MAX
  {
    MappedIsUser(vm', parent, pn);
    ForkedRefs(vm, vm', parent, child, UTEXT_PN, pn, Space(vm', parent)[pn].frame);
  }

  /** fork has got as far as page pn, having started from vm0. */
  ghost predicate Forking(vm0: Vm, vm: Vm, parent: nat, child: int, pn: nat) {
    && Inv(vm0) && Inv(vm) && Shape(vm0) && Shape(vm) && |vm0.mem| == |vm.mem| && 0 <= child < NENV
    && SpacesOf(vm0)[child] == map[]
    && HalfFull(vm0) && InUseKept(ViewOf(vm0), ViewOf(vm)) && Isolated(SpacesOf(vm))
    && ForkedTo(SpacesOf(vm0), SpacesOf(vm), parent, child, UTEXT_PN, pn)
  }

  /** Why fork cannot go on at page v, which the child does not have: the parent's page is marked
      PTE_SHARE but not PTE_U; or there is no page for the child's page table, or for its exception
      stack. */
  ghost predicate Stuck(vm: Vm, parent: nat, child: int, v: nat, r: int) {
    && Shape(vm) && parent < NENV && 0 <= child < NENV && v !in Space(vm, child)
    && (v != UXSTACK_PN ==> UTEXT_PN <= v < USTACK_PN && v in Space(vm, parent))
    && if r == -E_INVAL then
         v in Space(vm, parent) && Share in Space(vm, parent)[v].bits && U !in Space(vm, parent)[v].bits
       else
         && r == -E_NO_MEM
         && if v == UXSTACK_PN then NoPageFor(vm, child, v) else vm.free == [] && !HasTable(vm, child, v / NPTENTRIES)
  }

  /** One turn of fork's loop. */
  method DupOne(k: Kernel, cur: nat, childId: int, pn: nat, ghost vm0: Vm) returns (r: int)
    requires k.Valid() && cur < NENV && k.status[cur] != FREE && UTEXT_PN <= pn < USTACK_PN
    requires Forking(vm0, k.vm.S(), cur, k.Envid2Env(cur, childId, true), pn)
    modifies k.vm
    ensures k.Valid() && r <= 0
    ensures r < 0 ==> Stuck(k.vm.S(), cur, k.Envid2Env(cur, childId, true), pn, r)
    ensures Forking(vm0, k.vm.S(), cur, k.Envid2Env(cur, childId, true), if r == 0 then pn + 1 else pn)
  {
    hide Inv;
    hide Forking;
    hide Isolated;
    hide InUseKept;
    ghost var vm1 := k.vm.S();
    ghost var child := k.Envid2Env(cur, childId, true);
    BeforeDup(vm0, vm1, cur, child, pn);
    var pp, w := k.vm.PageLookup(cur, pn);
    r := 0;
    if pp >= 0 {
      r := Duppage(k, cur, childId, pn);
      AfterDup(vm0, vm1, k.vm.S(), cur, child, pn, r == 0);
      NotYetThere(vm0, vm1, cur, child, pn);
    }
  }

  lemma BeforeDup(vm0: Vm, vm1: Vm, parent: nat, child: int, pn: nat)
    requires Forking(vm0, vm1, parent, child, pn) && parent < NENV && UTEXT_PN <= pn
    ensures Isolated(SpacesOf(vm1)) && child >= 0 && parent != child
    ensures pn !in Space(vm1, parent) ==> Forking(vm0, vm1, parent, child, pn + 1)
    ensures pn in Space(vm1, parent) ==>
              TwoMore(vm1, parent, pn)
  {
    ForkedStep(SpacesOf(vm0), SpacesOf(vm1), parent, child, UTEXT_PN, pn);
    if pn in Space(vm1, parent) {
      RoomToDup(vm0, vm1, parent, child, pn);
    }
  }

  lemma AfterDup(vm0: Vm, vm1: Vm, vm2: Vm, parent: nat, child: int, pn: nat, done: bool)
    requires Forking(vm0, vm1, parent, child, pn) && parent < NENV && UTEXT_PN <= pn && pn in Space(vm1, parent)
    requires Inv(vm2) && Isolated(SpacesOf(vm2)) && InUseKept(ViewOf(vm1), ViewOf(vm2))
    requires SpacesOf(vm2) == if done then Dup(SpacesOf(vm1), parent, child, pn) else SpacesOf(vm1)
    ensures Forking(vm0, vm2, parent, child, if done then pn + 1 else pn)
  {
    ForkedStep(SpacesOf(vm0), SpacesOf(vm1), parent, child, UTEXT_PN, pn);
    ForkedKeeps(ViewOf(vm0), ViewOf(vm1), ViewOf(vm2), parent, child, UTEXT_PN, pn);
  }

  lemma NotYetThere(vm0: Vm, vm1: Vm, parent: nat, child: int, pn: nat)
    requires Forking(vm0, vm1, parent, child, pn)
    ensures Shape(vm1) && 0 <= child < NENV && pn !in Space(vm1, child)
    ensures pn == USTACK_PN ==> UXSTACK_PN !in Space(vm1, child)
  {
    assert SpacesOf(vm1)[child] == Space(vm1, child);
  }

  lemma ForkingOthers(vm0: Vm, vm: Vm, parent: nat, child: int, pn: nat)
    requires Forking(vm0, vm, parent, child, pn)
    ensures Isolated(SpacesOf(vm)) && InUseKept(ViewOf(vm0), ViewOf(vm))
    ensures forall s | 0 <= s < NENV && s != parent && s != child :: SpacesOf(vm)[s] == SpacesOf(vm0)[s]
  {
  }

  /** fork's loop over the parent's pages. */
  method DupAll(k: Kernel, cur: nat, childId: int, ghost vm0: Vm) returns (r: int, ghost pn: nat)
    requires k.Valid() && cur < NENV && k.status[cur] != FREE
    requires Forking(vm0, k.vm.S(), cur, k.Envid2Env(cur, childId, true), UTEXT_PN)
    modifies k.vm
    ensures k.Valid() && r <= 0 && (r == 0 ==> pn == USTACK_PN)
    ensures r < 0 ==> Stuck(k.vm.S(), cur, k.Envid2Env(cur, childId, true), pn, r)
    ensures Forking(vm0, k.vm.S(), cur, k.Envid2Env(cur, childId, true), pn)
  {
    hide Inv;
    hide Forking;
    hide Stuck;
    var v := UTEXT_PN;
    while v < USTACK_PN
      invariant UTEXT_PN <= v <= USTACK_PN && k.Valid()
      invariant Forking(vm0, k.vm.S(), cur, k.Envid2Env(cur, childId, true), v)
    {
      r := DupOne(k, cur, childId, v, vm0);
      if r < 0 {
        return r, v;
      }
      v := v + 1;
    }
    return 0, v;
  }

  /** The child's exception stack, on a page of its own. */
  lemma WithExceptionStack(vm0: Vm, vm1: Vm, vm2: Vm, parent: nat, child: nat, f: nat, w: Word)
    requires Forking(vm0, vm1, parent, child, USTACK_PN) && Inv(vm2) && w == Word(f, RW_BITS)
    requires f < |vm1.mem| && vm1.kind[f] != User && OnePage(vm1, vm2, child, UXSTACK_PN, w)
    ensures Isolated(SpacesOf(vm2)) && InUseKept(ViewOf(vm0), ViewOf(vm2))
    ensures Forked(ViewOf(vm0), ViewOf(vm2), parent, child, UTEXT_PN, USTACK_PN, UXSTACK_PN)
    ensures forall s | 0 <= s < NENV && s != parent && s != child :: SpacesOf(vm2)[s] == SpacesOf(vm0)[s]
  {
    hide Inv;
    FreeIsUnshared(vm1, f);
    OnePageView(vm1, vm2, child, UXSTACK_PN, w);
    FreshIsolated(SpacesOf(vm1), child, UXSTACK_PN, w);
    ForkedKeeps(ViewOf(vm0), ViewOf(vm1), ViewOf(vm2), parent, child, UTEXT_PN, USTACK_PN);
    ForkedWithStack(ViewOf(vm0), ViewOf(vm1), ViewOf(vm2), parent, child, UTEXT_PN, USTACK_PN, UXSTACK_PN, w);
  }

  /** No page for the child's exception stack. */
  lemma NoExceptionStack(vm0: Vm, vm1: Vm, vm2: Vm, parent: nat, child: nat)
    requires Forking(vm0, vm1, parent, child, USTACK_PN) && Inv(vm1) && Inv(vm2) && Untouched(vm1, vm2)
    requires Shape(vm0) && Shape(vm1) && Shape(vm2) && parent < NENV && NoPageFor(vm1, child, UXSTACK_PN)
    ensures Isolated(SpacesOf(vm2)) && InUseKept(ViewOf(vm0), ViewOf(vm2))
    ensures forall s | 0 <= s < NENV && s != parent && s != child :: SpacesOf(vm2)[s] == SpacesOf(vm0)[s]
    ensures Stuck(vm2, parent, child, UXSTACK_PN, -E_NO_MEM)
  {
    hide Inv;
    UntouchedView(vm1, vm2);
    UntouchedTables(vm1, vm2, child, UXSTACK_PN);
    NotYetThere(vm0, vm1, parent, child, USTACK_PN);
    ForkedKeeps(ViewOf(vm0), ViewOf(vm1), ViewOf(vm2), parent, child, UTEXT_PN, USTACK_PN);
  }

  /** fork.  On success the child is runnable and is the parent's copy-on-write twin; whatever
      happens, no private writable page gets a second mapping and nobody else is affected. */
  method Fork(k: Kernel, cur: nat) returns (r: int)
    requires k.Valid() && cur < NENV && k.status[cur] != FREE
    requires Isolated(SpacesOf(k.vm.S())) && HalfFull(k.vm.S())
    modifies k, k.vm
    ensures k.Valid() && Isolated(SpacesOf(k.vm.S())) && InUseKept(old(ViewOf(k.vm.S())), ViewOf(k.vm.S()))
    ensures forall s | 0 <= s < NENV && s != cur && old(k.status)[s] != FREE ::
              SpacesOf(k.vm.S())[s] == old(SpacesOf(k.vm.S()))[s]
    ensures forall s | 0 <= s < NENV && old(k.status)[s] != FREE :: k.status[s] == old(k.status)[s]
    ensures r < 0 ==>
              || (r == -E_NO_FREE_ENV && old(k.envList) == [])
              || (r == -E_NO_MEM && old(k.envList) != [] && old(k.vm.free) == [])
              || exists child: nat, v ::
                   child < NENV && old(k.status)[child] == FREE && Stuck(k.vm.S(), cur, child, v, r)
    ensures r >= 0 ==>
              var child := Envx(r);
              && old(k.status)[child] == FREE && k.status == old(k.status)[child := RUNNABLE] && k.id[child] == r
              && Forked(old(ViewOf(k.vm.S())), ViewOf(k.vm.S()), cur, child, UTEXT_PN, USTACK_PN, UXSTACK_PN)
  {
    hide Inv;
    hide Forking;
    hide Forked;
    hide Isolated;
    hide Stuck;
    ghost var vm0 := k.vm.S();
    var eid := StartChild(k, cur);
    if eid < 0 {
      return eid;
    }
    ghost var pn;
    r, pn := DupAll(k, cur, eid, vm0);
    if r < 0 {
      ForkingOthers(vm0, k.vm.S(), cur, Envx(eid), pn);
      return;
    }
    r := FinishChild(k, cur, eid, vm0);
    if r == 0 {
      r := eid;
    }
  }

  /** fork's sys_exofork. */
  method StartChild(k: Kernel, cur: nat) returns (r: int)
    requires k.Valid() && cur < NENV && k.status[cur] != FREE
    requires Isolated(SpacesOf(k.vm.S())) && HalfFull(k.vm.S())
    modifies k, k.vm
    ensures k.Valid()
    ensures r < 0 ==> k.vm.S() == old(k.vm.S()) && k.status == old(k.status)
    ensures r < 0 ==>
              if old(k.envList) == [] then r == -E_NO_FREE_ENV else r == -E_NO_MEM && old(k.vm.free) == []
    ensures r >= 0 ==>
              && k.Envid2Env(cur, r, true) == Envx(r) && k.id[Envx(r)] == r
              && old(k.status)[Envx(r)] == FREE && k.status == old(k.status)[Envx(r) := NOT_RUNNABLE]
              && Forking(old(k.vm.S()), k.vm.S(), cur, Envx(r), UTEXT_PN)
  {
    ghost var vm0 := k.vm.S();
    r := k.SysExofork(cur);
    if r >= 0 {
      ExoforkView(vm0, k.vm.S(), Envx(r));
      ForkStart(SpacesOf(vm0), cur, Envx(r));
    }
  }

  lemma ForkStart(sp: Spaces, parent: nat, child: nat)
    requires parent < |sp| && child < |sp| && parent != child && sp[child] == map[]
    ensures ForkedTo(sp, sp, parent, child, UTEXT_PN, UTEXT_PN)
  {
  }

  /** The rest of fork: the exception stack and the status. */
  method FinishChild(k: Kernel, cur: nat, eid: int, ghost vm0: Vm) returns (r: int)
    requires k.Valid() && cur < NENV && k.status[cur] != FREE && Shape(vm0)
    requires Forking(vm0, k.vm.S(), cur, k.Envid2Env(cur, eid, true), USTACK_PN)
    modifies k`status, k.vm
    ensures k.Valid() && r <= 0 && Isolated(SpacesOf(k.vm.S())) && InUseKept(ViewOf(vm0), ViewOf(k.vm.S()))
    ensures forall s | 0 <= s < NENV && s != cur && s != old(k.Envid2Env(cur, eid, true)) ::
              SpacesOf(k.vm.S())[s] == SpacesOf(vm0)[s]
    ensures r < 0 ==> k.status == old(k.status) && Stuck(k.vm.S(), cur, old(k.Envid2Env(cur, eid, true)), UXSTACK_PN, r)
    ensures r == 0 ==>
              && k.status == old(k.status)[old(k.Envid2Env(cur, eid, true)) := RUNNABLE]
              && Forked(ViewOf(vm0), ViewOf(k.vm.S()), cur, old(k.Envid2Env(cur, eid, true)),
                        UTEXT_PN, USTACK_PN, UXSTACK_PN)
  {
    hide Inv;
    hide Forking;
    hide Forked;
    hide Isolated;
    hide InUseKept;
    hide Stuck;
    hide HasTable;
    hide OnePage;
    hide Untouched;
    hide Space;
    ghost var vm1 := k.vm.S();
    ghost var child := k.Envid2Env(cur, eid, true);
    NotYetThere(vm0, vm1, cur, child, USTACK_PN);
    assert {P} + RW_BITS == RW_BITS;
    r := k.SysPageAlloc(cur, eid, UXSTACK_PN * PGSIZE, RW_BITS);
    if r < 0 {
      NoExceptionStack(vm0, vm1, k.vm.S(), cur, child);
      return;
    }
    HeadIsFree(vm1);
    WithExceptionStack(vm0, vm1, k.vm.S(), cur, child, vm1.free[0], Word(vm1.free[0], RW_BITS));
    r := k.SysEnvSetStatus(cur, eid, RUNNABLE);
  }

  lemma HeadIsFree(vm: Vm)
    requires Inv(vm) && vm.free != []
    ensures vm.free[0] < |vm.mem| && vm.kind[vm.free[0]] != User
  {
  }
}
