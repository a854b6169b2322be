/** Runs of copy-on-write processes: allocate, fork, write, unmap and exit in any order. */
module CowRuns {
  import opened Mmu
  import opened EnvIds
  import opened VmSpec
  import opened Pmap
  import opened EnvStatus
  import opened Env
  import opened Cow
  import opened Fork

  /** Environment s keeps its address space, and what it reads on every page it does not share. */
  ghost predicate Undisturbed(a: View, b: View, s: nat) {
    && s < |a.sp| == |b.sp| && |a.mem| == |b.mem| && b.sp[s] == a.sp[s]
    && forall v | v in a.sp[s] && Share !in a.sp[s][v].bits && a.sp[s][v].frame < |a.mem| ::
         b.mem[a.sp[s][v].frame] == a.mem[a.sp[s][v].frame]
  }

  lemma KeptIsUndisturbed(a: View, b: View, s: nat)
    requires s < |a.sp| == |b.sp| && InUseKept(a, b) && b.sp[s] == a.sp[s]
    ensures Undisturbed(a, b, s)
  {
    forall v | v in a.sp[s] && a.sp[s][v].frame < |a.mem|
      ensures b.mem[a.sp[s][v].frame] == a.mem[a.sp[s][v].frame] {
      assert MapsTo(a.sp, s, v, a.sp[s][v].frame) && MapsTo(b.sp, s, v, a.sp[s][v].frame);
    }
  }

  /** The view after a store. */
  function Stored(a: View, f: nat, o: nat, w: Word): View
    requires f < |a.mem| && o < |a.mem[f]|
  {
    a.(mem := a.mem[f := a.mem[f][o := w]])
  }

  /** A store through a writable mapping disturbs nobody else. */
  lemma StoreUndisturbed(a: View, s: nat, v: nat, o: nat, w: Word, s': nat)
    requires Isolated(a.sp) && s < |a.sp| && v in a.sp[s] && W in a.sp[s][v].bits && s' < |a.sp| && s' != s
    requires a.sp[s][v].frame < |a.mem| && o < |a.mem[a.sp[s][v].frame]|
    ensures Undisturbed(a, Stored(a, a.sp[s][v].frame, o, w), s')
  {
    forall v' | v' in a.sp[s'] && Share !in a.sp[s'][v'].bits ensures a.sp[s'][v'].frame != a.sp[s][v].frame {
      assert SamePage(a.sp, s, v, s', v') ==> Compatible(a.sp, s, v, s', v');
    }
  }

  /** Every mapped frame exists and is a whole page. */
  ghost predicate WholePages(a: View) {
    forall s, v | 0 <= s < |a.sp| && v in a.sp[s] ::
      a.sp[s][v].frame < |a.mem| && |a.mem[a.sp[s][v].frame]| == NPTENTRIES
  }

  /** Does a store by s to page v show at page v' of s'? */
  predicate Shows(sp: Spaces, s: nat, v: nat, s': nat, v': nat) {
    (s', v') == (s, v)
    || (SamePage(sp, s, v, s', v') && W in sp[s][v].bits && Share in sp[s][v].bits && Share in sp[s'][v'].bits)
  }

  /** What a store by s to word o of page v does to every environment's memory.  Only the page
      PFTEMP of s itself may disappear. */
  ghost predicate Written(a: View, b: View, s: nat, v: nat, o: nat, w: Word)
    requires WholePages(a) && WholePages(b) && o < NPTENTRIES
  {
    && s < |a.sp| == |b.sp|
    && forall s', v', o': nat | 0 <= s' < |a.sp| && v' in a.sp[s'] && o' < NPTENTRIES && (s', v') != (s, PFTEMP_PN) ::
         && v' in b.sp[s']
         && Read(b, s', v', o') == if o' == o && Shows(a.sp, s, v, s', v') then w else Read(a, s', v', o')
  }

  lemma AllWhole(vm: Vm)
    requires Inv(vm)
    ensures WholePages(ViewOf(vm))
  {
    forall s, v | 0 <= s < NENV && v in Space(vm, s) ensures Space(vm, s)[v].frame < |vm.mem| {
      MappedIsUser(vm, s, v);
    }
  }

  /** A store to a writable page. */
  lemma DirectWrite(a: View, s: nat, v: nat, o: nat, w: Word)
    requires Isolated(a.sp) && WholePages(a) && s < |a.sp| && v in a.sp[s] && W in a.sp[s][v].bits && o < NPTENTRIES
    ensures WholePages(Stored(a, a.sp[s][v].frame, o, w))
    ensures Written(a, Stored(a, a.sp[s][v].frame, o, w), s, v, o, w)
  {
    forall s', v', o': nat | 0 <= s' < |a.sp| && v' in a.sp[s'] && o' < NPTENTRIES
      ensures Read(Stored(a, a.sp[s][v].frame, o, w), s', v', o') ==
              if o' == o && Shows(a.sp, s, v, s', v') then w else Read(a, s', v', o') {
      StoreIsPrivate(a, s, v, o, w, s', v', o');
    }
  }

  /** The fault handler changes nothing anybody reads. */
  lemma FaultReads(a: View, b: View, s: nat, v: nat, s': nat, v': nat, o': nat)
    requires WholePages(a) && WholePages(b) && v != PFTEMP_PN && PrivateCopy(a, b, s, PFTEMP_PN, v)
    requires OthersKept(a, b, s)
    requires s' < |a.sp| && v' in a.sp[s'] && o' < NPTENTRIES && (s', v') != (s, PFTEMP_PN)
    ensures v' in b.sp[s'] && Read(b, s', v', o') == Read(a, s', v', o')
    ensures (s', v') != (s, v) ==> b.sp[s'][v'] == a.sp[s'][v']
  {
    if (s', v') != (s, v) {
      assert MapsTo(a.sp, s', v', a.sp[s'][v'].frame) && MapsTo(b.sp, s', v', a.sp[s'][v'].frame);
    }
  }

  /** A store to a copy-on-write page: fault, private copy, store. */
  lemma CopiedWrite(a: View, b: View, s: nat, v: nat, o: nat, w: Word)
    requires WholePages(a) && WholePages(b) && v != PFTEMP_PN && PrivateCopy(a, b, s, PFTEMP_PN, v)
    requires OthersKept(a, b, s)
    requires Isolated(b.sp) && o < NPTENTRIES && W !in a.sp[s][v].bits
    ensures WholePages(Stored(b, b.sp[s][v].frame, o, w))
    ensures Written(a, Stored(b, b.sp[s][v].frame, o, w), s, v, o, w)
  {
    DirectWrite(b, s, v, o, w);
    forall s', v', o': nat | 0 <= s' < |a.sp| && v' in a.sp[s'] && o' < NPTENTRIES && (s', v') != (s, PFTEMP_PN)
      ensures v' in b.sp[s'] && Read(Stored(b, b.sp[s][v].frame, o, w), s', v', o') ==
              if o' == o && Shows(a.sp, s, v, s', v') then w else Read(a, s', v', o') {
      FaultReads(a, b, s, v, s', v', o');
      assert Shows(b.sp, s, v, s', v') <==> (s', v') == (s, v);
    }
  }

  /** fork, then a store by the child: the parent still reads what it read before the fork,
      except at the stored word when the page is a writable PTE_SHARE one. */
  lemma ChildWriteSeenByParent(a: View, b: View, c: View, parent: nat, child: nat, v: nat, o: nat, w: Word, v': nat,
                               o': nat)
    requires WholePages(a) && WholePages(b) && WholePages(c) && o < NPTENTRIES && o' < NPTENTRIES
    requires Forked(a, b, parent, child, UTEXT_PN, USTACK_PN, UXSTACK_PN) && Written(b, c, child, v, o, w)
    requires parent != child
    requires UTEXT_PN <= v < USTACK_PN && v in a.sp[parent] && UTEXT_PN <= v' < USTACK_PN && v' in a.sp[parent]
    ensures v' in c.sp[parent]
    ensures Read(c, parent, v', o') ==
            var x, y := a.sp[parent][v], a.sp[parent][v'];
            if o' == o && x.frame == y.frame && {Share, W} <= x.bits && Share in y.bits then w
            else Read(a, parent, v', o')
  {
    ForkReadsAlike(a, b, parent, child, UTEXT_PN, USTACK_PN, UXSTACK_PN, v, o);
    ForkReadsAlike(a, b, parent, child, UTEXT_PN, USTACK_PN, UXSTACK_PN, v', o');
  }

  /** What a step by environment cur leaves alone. */
  ghost predicate Private(a: View, b: View, cur: nat) {
    && |a.sp| == |b.sp|
    && forall s | 0 <= s < |a.sp| && s != cur :: Undisturbed(a, b, s)
  }

  lemma KeptIsPrivate(a: View, b: View, cur: nat)
    requires OthersKept(a, b, cur)
    ensures Private(a, b, cur)
  {
    forall s | 0 <= s < |a.sp| && s != cur ensures Undisturbed(a, b, s) {
      KeptIsUndisturbed(a, b, s);
    }
  }

  /** The store itself, on a page that is writable by now. */
  method StoreNow(k: Kernel, cur: nat, v: nat, o: nat, w: Word)
    requires k.Valid() && cur < NENV && o < NPTENTRIES && Isolated(SpacesOf(k.vm.S()))
    requires v in Space(k.vm.S(), cur) && W in Space(k.vm.S(), cur)[v].bits
    modifies k.vm`mem
    ensures k.Valid() && Isolated(SpacesOf(k.vm.S())) && Private(old(ViewOf(k.vm.S())), ViewOf(k.vm.S()), cur)
    ensures old(SpacesOf(k.vm.S())[cur][v].frame < |k.vm.mem|)
    ensures ViewOf(k.vm.S()) == Stored(old(ViewOf(k.vm.S())), old(SpacesOf(k.vm.S())[cur][v].frame), o, w)
  {
    ghost var vm0 := k.vm.S();
    AllWhole(vm0);
    hide Inv;
    Store(k, cur, v, o, w);
    SameSpacesOf(vm0, k.vm.S());
    forall s | 0 <= s < NENV && s != cur ensures Undisturbed(ViewOf(vm0), ViewOf(k.vm.S()), s) {
      StoreUndisturbed(ViewOf(vm0), cur, v, o, w, s);
    }
  }

  lemma PrivateTwice(a: View, b: View, c: View, cur: nat)
    requires Private(a, b, cur) && Private(b, c, cur)
    ensures Private(a, c, cur)
  {
    forall s | 0 <= s < |a.sp| && s != cur ensures Undisturbed(a, c, s) {
      assert Undisturbed(a, b, s) && Undisturbed(b, c, s);
    }
  }

  /** A store instruction by a user environment, with the page fault it may take.  False is the
      handler's panic. */
  method UserWrite(k: Kernel, cur: nat, v: nat, o: nat, w: Word) returns (ok: bool)
    requires k.Valid() && cur < NENV && k.status[cur] != FREE && v < UTOP_PAGES && v != PFTEMP_PN && o < NPTENTRIES
    requires Isolated(SpacesOf(k.vm.S()))
    modifies k.vm
    ensures k.Valid() && Isolated(SpacesOf(k.vm.S())) && Private(old(ViewOf(k.vm.S())), ViewOf(k.vm.S()), cur)
    ensures WholePages(old(ViewOf(k.vm.S()))) && WholePages(ViewOf(k.vm.S()))
    ensures ok ==> Written(old(ViewOf(k.vm.S())), ViewOf(k.vm.S()), cur, v, o, w)
    ensures !ok ==> SpacesOf(k.vm.S()) == old(SpacesOf(k.vm.S()))
    ensures ok <==>
              && old(MayStore(Space(k.vm.S(), cur), v))
              && (old(W in Space(k.vm.S(), cur)[v].bits) || !old(NoPageFor(k.vm.S(), cur, PFTEMP_PN)))
  {
    hide Inv;
    hide Isolated;
    hide Private;
    ghost var vm0 := k.vm.S();
    AllWhole(vm0);
    var pp, x := k.vm.PageLookup(cur, v);
    if pp >= 0 && W in x.bits {
      DirectWrite(ViewOf(vm0), cur, v, o, w);
      StoreNow(k, cur, v, o, w);
      return true;
    }
    ok := PgFault(k, cur, v);
    ghost var vm1 := k.vm.S();
    AllWhole(vm1);
    KeptIsPrivate(ViewOf(vm0), ViewOf(vm1), cur);
    if ok {
      CopiedWrite(ViewOf(vm0), ViewOf(vm1), cur, v, o, w);
      StoreNow(k, cur, v, o, w);
      PrivateTwice(ViewOf(vm0), ViewOf(vm1), ViewOf(k.vm.S()), cur);
    }
  }

  /** fork, then a store by the parent or the child to a page that could be stored to before: it
      succeeds, if two pages are left for the copy and a page table. */
  method StoreAfterFork(k: Kernel, cur: nat, v: nat, o: nat, w: Word, byChild: bool)
      returns (r: int, ok: bool, ghost left: nat)
    requires k.Valid() && cur < NENV && k.status[cur] != FREE && UTEXT_PN <= v < USTACK_PN && o < NPTENTRIES
    requires Isolated(SpacesOf(k.vm.S())) && HalfFull(k.vm.S()) && MayStore(Space(k.vm.S(), cur), v)
    modifies k, k.vm
    ensures k.Valid() && Isolated(SpacesOf(k.vm.S()))
    ensures r >= 0 && left >= 2 ==> ok
    ensures r >= 0 && ok ==>
              var s := if byChild then Envx(r) else cur;
              && v in Space(k.vm.S(), s) && Space(k.vm.S(), s)[v].frame < |k.vm.mem|
              && |k.vm.mem[Space(k.vm.S(), s)[v].frame]| == NPTENTRIES
              && k.vm.mem[Space(k.vm.S(), s)[v].frame][o] == w
  {
    hide Inv;
    hide Isolated;
    hide Private;
    hide Forked;
    hide Written;
    hide WholePages;
    hide InUseKept;
    hide HalfFull;
    hide Stuck;
    hide NoPageFor;
    ghost var a := ViewOf(k.vm.S());
    ok, left := false, 0;
    r := Fork.Fork(k, cur);
    if r < 0 {
      return;
    }
    ForkKeepsStores(a, ViewOf(k.vm.S()), cur, Envx(r), UTEXT_PN, USTACK_PN, UXSTACK_PN, v);
    var s := if byChild then Envx(r) else cur;
    left := |k.vm.free|;
    if left >= 2 { TwoAreEnough(k.vm.S(), s); }
    ghost var b := ViewOf(k.vm.S());
    ok := UserWrite(k, s, v, o, w);
    if ok { OwnStoreRead(b, ViewOf(k.vm.S()), s, v, o, w); }
  }

  lemma TwoAreEnough(vm: Vm, s: nat)
    requires Shape(vm) && |vm.free| >= 2
    ensures !NoPageFor(vm, s, PFTEMP_PN)
  {
  }

  lemma OwnStoreRead(a: View, b: View, s: nat, v: nat, o: nat, w: Word)
    requires WholePages(a) && WholePages(b) && o < NPTENTRIES && Written(a, b, s, v, o, w) && v != PFTEMP_PN
    requires s < |a.sp| && v in a.sp[s]
    ensures s < |b.sp| && v in b.sp[s] && b.sp[s][v].frame < |b.mem| && |b.mem[b.sp[s][v].frame]| == NPTENTRIES
    ensures b.mem[b.sp[s][v].frame][o] == w
  {
    var before := Read(a, s, v, o);
    assert Read(b, s, v, o) == w;
  }

  // ---------------------------------------------------------------- runs

  datatype Act =
    | Create
    | Alloc(cur: nat, va: nat, perm: Bits)
    | ForkChild(cur: nat)
    | Write(cur: nat, v: nat, o: nat, w: Word)
    | Unmap(cur: nat, va: nat)
    | Exit(cur: nat)

  /** May the act be made?  The actor exists, and fork does not overflow a reference count. */
  ghost predicate Possible(k: Kernel, act: Act)
    reads k, k.vm
    requires k.Valid()
  {
    && (act.Create? || (act.cur < NENV && k.status[act.cur] != FREE))
    && (act.ForkChild? ==> HalfFull(k.vm.S()))
    && (act.Write? ==> act.v < UTOP_PAGES && act.v != PFTEMP_PN && act.o < NPTENTRIES)
  }

  method IsPossible(k: Kernel, act: Act) returns (ok: bool)
    requires k.Valid()
    ensures ok <==> Possible(k, act)
  {
    if !act.Create? && (act.cur >= NENV || k.status[act.cur] == FREE) {
      return false;
    }
    if act.ForkChild? {
      for f := 0 to |k.vm.ref|
        invariant forall g | 0 <= g < f :: 2 * k.vm.ref[g] + 1 < REF_MAX
      {
        if 2 * k.vm.ref[f] + 1 >= REF_MAX {
          return false;
        }
      }
    }
    return act.Write? ==> act.v < UTOP_PAGES && act.v != PFTEMP_PN && act.o < NPTENTRIES;
  }

  /** Every other environment is left alone. */
  ghost predicate LeavesOthers(a: View, b: View, status: seq<Status>, act: Act) {
    && |a.sp| == |b.sp| == |status|
    && forall s | 0 <= s < |a.sp| && status[s] != FREE && !(!act.Create? && s == act.cur) :: Undisturbed(a, b, s)
  }

  method MapOrUnmap(k: Kernel, act: Act)
    requires k.Valid() && Possible(k, act) && (act.Alloc? || act.Unmap?) && Isolated(SpacesOf(k.vm.S()))
    modifies k.vm
    ensures k.Valid() && Isolated(SpacesOf(k.vm.S()))
    ensures Private(old(ViewOf(k.vm.S())), ViewOf(k.vm.S()), act.cur)
  {
    hide Inv;
    ghost var vm0 := k.vm.S();
    SelfEnv(k, act.cur);
    match act {
      case Alloc(cur, va, perm) =>
        var r := k.SysPageAlloc(cur, 0, va, perm);
        if r < 0 {
          UntouchedView(vm0, k.vm.S());
        } else {
          FreshPage(vm0, k.vm.S(), cur, va / PGSIZE, Word(vm0.free[0], {P} + perm));
        }
      case Unmap(cur, va) =>
        var r := k.SysPageUnmap(cur, 0, va);
        if r == 0 {
          OnePageView(vm0, k.vm.S(), cur, va / PGSIZE, ZERO);
          UnmapIsolated(SpacesOf(vm0), cur, va / PGSIZE);
        }
    }
    KeptIsPrivate(ViewOf(vm0), ViewOf(k.vm.S()), act.cur);
  }

  lemma FreshPage(vm: Vm, vm': Vm, s: nat, v: nat, w: Word)
    requires Inv(vm) && Inv(vm') && s < NENV && OnePage(vm, vm', s, v, w) && vm.free != [] && w.frame == vm.free[0]
    requires P in w.bits
    requires Isolated(SpacesOf(vm))
    ensures SpacesOf(vm') == Update(SpacesOf(vm), s, v, w) && InUseKept(ViewOf(vm), ViewOf(vm'))
    ensures Isolated(SpacesOf(vm'))
  {
    HeadIsFree(vm);
    FreeIsUnshared(vm, w.frame);
    OnePageView(vm, vm', s, v, w);
    FreshIsolated(SpacesOf(vm), s, v, w);
  }

  /** An exit takes mappings away and nothing else. */
  lemma ExitView(vm: Vm, vm': Vm, s: nat)
    requires Inv(vm) && Inv(vm') && s < NENV && Released(vm, vm', s) && !Live(vm', s) && Isolated(SpacesOf(vm))
    ensures Isolated(SpacesOf(vm')) && OthersKept(ViewOf(vm), ViewOf(vm'), s)
  {
    assert Space(vm', s) == map[];
    var sp, sp' := SpacesOf(vm), SpacesOf(vm');
    forall s1: nat, v1: nat, s2: nat, v2: nat | SamePage(sp', s1, v1, s2, v2)
      ensures Compatible(sp', s1, v1, s2, v2) {
      assert SamePage(sp, s1, v1, s2, v2);
    }
    forall f | 0 <= f < |vm.mem| && InUse(sp, f) ensures vm'.mem[f] == vm.mem[f] {
      UserIffMapped(vm, f);
    }
  }

  method CreateEnv(k: Kernel)
    requires k.Valid() && Isolated(SpacesOf(k.vm.S()))
    modifies k, k.vm
    ensures k.Valid() && Isolated(SpacesOf(k.vm.S()))
    ensures LeavesOthers(old(ViewOf(k.vm.S())), ViewOf(k.vm.S()), old(k.status), Create)
    ensures forall s | 0 <= s < NENV && old(k.status)[s] != FREE :: k.status[s] != FREE
  {
    ghost var vm0, status0 := k.vm.S(), k.status;
    var r, e := k.EnvAlloc(0);
    hide Inv;
    if r == 0 {
      ExoforkView(vm0, k.vm.S(), e);
    }
    forall s | 0 <= s < NENV && status0[s] != FREE ensures Undisturbed(ViewOf(vm0), ViewOf(k.vm.S()), s) {
      KeptIsUndisturbed(ViewOf(vm0), ViewOf(k.vm.S()), s);
    }
  }

  method ExitEnv(k: Kernel, cur: nat)
    requires k.Valid() && cur < NENV && k.status[cur] != FREE && Isolated(SpacesOf(k.vm.S()))
    modifies k, k.vm
    ensures k.Valid() && Isolated(SpacesOf(k.vm.S()))
    ensures Private(old(ViewOf(k.vm.S())), ViewOf(k.vm.S()), cur)
    ensures forall s | 0 <= s < NENV && s != cur && old(k.status)[s] != FREE :: k.status[s] != FREE
  {
    ghost var vm0 := k.vm.S();
    var curenv := k.EnvDestroy(cur, cur);
    ExitView(vm0, k.vm.S(), cur);
    KeptIsPrivate(ViewOf(vm0), ViewOf(k.vm.S()), cur);
  }

  method ForkEnv(k: Kernel, cur: nat)
    requires k.Valid() && Possible(k, ForkChild(cur)) && Isolated(SpacesOf(k.vm.S()))
    modifies k, k.vm
    ensures k.Valid() && Isolated(SpacesOf(k.vm.S()))
    ensures LeavesOthers(old(ViewOf(k.vm.S())), ViewOf(k.vm.S()), old(k.status), ForkChild(cur))
    ensures forall s | 0 <= s < NENV && old(k.status)[s] != FREE :: k.status[s] != FREE
  {
    hide Inv;
    hide Isolated;
    ghost var vm0, status0 := k.vm.S(), k.status;
    var r := Fork.Fork(k, cur);
    forall s | 0 <= s < NENV && status0[s] != FREE && s != cur ensures Undisturbed(ViewOf(vm0), ViewOf(k.vm.S()), s) {
      KeptIsUndisturbed(ViewOf(vm0), ViewOf(k.vm.S()), s);
    }
  }

  /** One act: isolation is kept, and no other environment can tell that it happened. */
  method Perform(k: Kernel, act: Act)
    requires k.Valid() && Possible(k, act) && Isolated(SpacesOf(k.vm.S()))
    modifies k, k.vm
    ensures k.Valid() && Isolated(SpacesOf(k.vm.S()))
    ensures LeavesOthers(old(ViewOf(k.vm.S())), ViewOf(k.vm.S()), old(k.status), act)
    ensures forall s | 0 <= s < NENV && old(k.status)[s] != FREE && !(act.Exit? && s == act.cur) :: k.status[s] != FREE
  {
    hide Inv;
    hide Isolated;
    hide Undisturbed;
    match act {
      case Create => CreateEnv(k);
      case ForkChild(cur) => ForkEnv(k, cur);
      case Exit(cur) => ExitEnv(k, cur);
      case Write(cur, v, o, w) => var ok := UserWrite(k, cur, v, o, w);
      case _ => MapOrUnmap(k, act);
    }
  }

  /** Does environment s stay out of the run? */
  predicate Bystander(acts: seq<Act>, s: nat) {
    forall i | 0 <= i < |acts| :: !acts[i].Create? ==> acts[i].cur != s
  }

  /** Isolation over whole runs: no private writable page ever has a second mapping, and an
      environment that does nothing keeps its address space and all its private memory,
      whatever its parent, its children and everyone else do. */
  method RunAll(k: Kernel, acts: seq<Act>)
    requires k.Valid() && Isolated(SpacesOf(k.vm.S()))
    modifies k, k.vm
    ensures k.Valid() && Isolated(SpacesOf(k.vm.S()))
    ensures forall s | 0 <= s < NENV && old(k.status)[s] != FREE && Bystander(acts, s) ::
              k.status[s] != FREE && Undisturbed(old(ViewOf(k.vm.S())), ViewOf(k.vm.S()), s)
  {
    hide Inv;
    hide Isolated;
    ghost var a, status0 := ViewOf(k.vm.S()), k.status;
    for i := 0 to |acts|
      invariant k.Valid() && Isolated(SpacesOf(k.vm.S()))
      invariant forall s | 0 <= s < NENV && status0[s] != FREE && Bystander(acts, s) ::
                  k.status[s] != FREE && Undisturbed(a, ViewOf(k.vm.S()), s)
    {
      var ok := IsPossible(k, acts[i]);
      if ok {
        ghost var b, status1 := ViewOf(k.vm.S()), k.status;
        Perform(k, acts[i]);
        forall s | 0 <= s < NENV && status0[s] != FREE && Bystander(acts, s)
          ensures k.status[s] != FREE && Undisturbed(a, ViewOf(k.vm.S()), s) {
          assert Undisturbed(a, b, s) && Undisturbed(b, ViewOf(k.vm.S()), s);
        }
      }
    }
  }
}
