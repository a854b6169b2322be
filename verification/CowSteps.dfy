/** Copy-on-write with the calls of every fork interleaved with the acts of all environments: who
    sees whose stores, over every run. */
module CowSteps {
  import opened Mmu
  import opened Cow
  import Fork

  /** What duppage made of the page when it looked. */
  datatype Found = Shared(bits: Bits) | Private | ReadOnly

  /** Where an environment is: outside fork; made by one that has not finished; in fork between two
      pages; having looked at a page; between duppage's two calls for a page. */
  datatype Pc = Idle | Embryo | Forking(child: nat) | Looked(child: nat, v: nat, found: Found) | Mid(child: nat, v: nat)

  datatype State = State(sp: Spaces, mem: seq<Frame>, pc: seq<Pc>)

  datatype Act =
    | Alloc(s: nat, v: nat, w: Word)        // sys_page_alloc
    | Unmap(s: nat, v: nat)                 // sys_page_unmap
    | Exit(s: nat)                          // env_destroy
    | Store(s: nat, v: nat, o: nat, x: Word)
    | Fault(s: nat, v: nat, f: nat)         // pgfault, with the new frame f
    | Begin(s: nat, c: nat)                 // sys_exofork
    | Look(s: nat, v: nat)                  // duppage reads uvpt
    | MapChildPage(s: nat)                  // duppage's call for the child
    | MarkOwnPage(s: nat)                   // and its call for the parent
    | Finish(s: nat, f: nat)                // the exception stack, and the child may run

  function Finding(b: Bits): Found {
    if Share in b then Shared(b) else if W in b || Cow in b then Private else ReadOnly
  }

  function Given(found: Found): Bits {
    match found
    case Shared(bits) => bits * SYSCALL_BITS
    case Private => COW_BITS
    case ReadOnly => READ_BITS
  }

  ghost predicate Fresh(st: State, f: nat) {
    f < |st.mem| && forall s: nat, v: nat :: !MapsTo(st.sp, s, v, f)
  }

  /** A shared page is not copy-on-write as well. */
  predicate Sane(b: Bits) {
    !(Share in b && Cow in b)
  }

  /** An environment that is being made does nothing, and one in fork does nothing but fork, store
      and fault. */
  ghost predicate Enabled(st: State, a: Act) {
    && |st.pc| == |st.sp| && a.s < |st.sp| && !st.pc[a.s].Embryo?
    && match a
       case Alloc(s, v, w) => st.pc[s].Idle? && P in w.bits && Sane(w.bits) && Fresh(st, w.frame)
       case Unmap(s, v) => st.pc[s].Idle?
       case Exit(s) => true
       case Store(s, v, o, x) =>
         && v in st.sp[s] && W in st.sp[s][v].bits && st.sp[s][v].frame < |st.mem|
         && o < |st.mem[st.sp[s][v].frame]|
       case Fault(s, v, f) =>
         && v in st.sp[s] && Cow in st.sp[s][v].bits && v != Fork.PFTEMP_PN && st.sp[s][v].frame < |st.mem|
         && Fresh(st, f)
       case Begin(s, c) => st.pc[s].Idle? && c < |st.sp| && c != s && st.pc[c].Idle? && st.sp[c] == map[]
       case Look(s, v) => st.pc[s].Forking? && Fork.UTEXT_PN <= v < Fork.USTACK_PN && v in st.sp[s]
       case MapChildPage(s) => st.pc[s].Looked? && st.pc[s].child < |st.sp| && st.pc[s].v in st.sp[s]
       case MarkOwnPage(s) => st.pc[s].Mid? && st.pc[s].v in st.sp[s]
       case Finish(s, f) => st.pc[s].Forking? && st.pc[s].child < |st.sp| && Fresh(st, f)
  }

  function Set(sp: Spaces, s: nat, v: nat, w: Word): Spaces
    requires s < |sp|
  {
    var m: map<nat, Word> := sp[s][v := w];
    sp[s := m]
  }

  /** Page v of s becomes the new frame f with the given contents. */
  function Mapped(st: State, s: nat, v: nat, w: Word, x: Frame): State
    requires s < |st.sp| && w.frame < |st.mem|
  {
    st.(sp := Set(st.sp, s, v, w), mem := st.mem[w.frame := x])
  }

  ghost function Next(st: State, a: Act): State
    requires Enabled(st, a)
  {
    match a
    case Alloc(s, v, w) => Mapped(st, s, v, w, ZeroFrame())
    case Unmap(s, v) => st.(sp := st.sp[s := st.sp[s] - {v}])
    case Exit(s) => st.(sp := st.sp[s := map[]], pc := st.pc[s := Idle])
    case Store(s, v, o, x) =>
      var f := st.sp[s][v].frame;
      st.(mem := st.mem[f := st.mem[f][o := x]])
    case Fault(s, v, f) =>
      var st1 := Mapped(st, s, v, Word(f, RW_BITS), st.mem[st.sp[s][v].frame]);
      st1.(sp := st1.sp[s := st1.sp[s] - {Fork.PFTEMP_PN}])
    case Begin(s, c) => st.(pc := st.pc[s := Forking(c)][c := Embryo])
    case Look(s, v) => st.(pc := st.pc[s := Looked(st.pc[s].child, v, Finding(st.sp[s][v].bits))])
    case MapChildPage(s) =>
      var c, v, found := st.pc[s].child, st.pc[s].v, st.pc[s].found;
      st.(sp := Set(st.sp, c, v, Word(st.sp[s][v].frame, Given(found))),
          pc := st.pc[s := if found.Private? then Mid(c, v) else Forking(c)])
    case MarkOwnPage(s) => st.(sp := MarkOwn(st.sp, s, st.pc[s].v), pc := st.pc[s := Forking(st.pc[s].child)])
    case Finish(s, f) =>
      var c := st.pc[s].child;
      var st1 := Mapped(st, c, Fork.UXSTACK_PN, Word(f, RW_BITS), ZeroFrame());
      st1.(pc := st.pc[s := Idle][c := Idle])
  }

  // ---------------------------------------------------------------- the invariant

  /** The child that the environment is making. */
  predicate Makes(pc: seq<Pc>, s: nat, c: nat) {
    s < |pc| && (pc[s].Forking? || pc[s].Looked? || pc[s].Mid?) && pc[s].child == c
  }

  /** Two mappings of one page agree on PTE_SHARE; and a private page with a second mapping is
      writable only between duppage's two calls for it, the other mapping being the child's. */
  predicate Pair(st: State, s1: nat, v1: nat, s2: nat, v2: nat)
    requires SamePage(st.sp, s1, v1, s2, v2) && |st.pc| == |st.sp|
  {
    var b1, b2 := st.sp[s1][v1].bits, st.sp[s2][v2].bits;
    && (Share in b1 <==> Share in b2)
    && (Share !in b1 && W in b1 && (s1, v1) != (s2, v2) ==> st.pc[s1] == Mid(s2, v1) && v2 == v1)
  }

  ghost predicate Paired(st: State)
    requires |st.pc| == |st.sp|
  {
    forall s1: nat, v1: nat, s2: nat, v2: nat | SamePage(st.sp, s1, v1, s2, v2) :: Pair(st, s1, v1, s2, v2)
  }

  predicate StillTrue(b: Bits, found: Found) {
    match found
    case Shared(bits) => b == bits && Share in b
    case Private => Share !in b
    case ReadOnly => Share !in b && W !in b && Cow !in b
  }

  /** What the environment has found out about its page is still true enough. */
  predicate PcOk(sp: Spaces, s: nat, pc: Pc)
    requires s < |sp|
  {
    match pc
    case Idle => true
    case Embryo => true
    case Forking(c) => true
    case Looked(c, v, found) =>
      v != Fork.PFTEMP_PN && v in sp[s] && StillTrue(sp[s][v].bits, found)
    case Mid(c, v) => v != Fork.PFTEMP_PN && v in sp[s] && Share !in sp[s][v].bits
  }

  /** Who makes whom. */
  ghost predicate Family(pc: seq<Pc>) {
    && (forall s: nat, c: nat | Makes(pc, s, c) :: c < |pc| && pc[c].Embryo?)
    && (forall s: nat, t: nat, c: nat | Makes(pc, s, c) && Makes(pc, t, c) :: s == t)
  }

  predicate WordOk(st: State, w: Word) {
    w.frame < |st.mem| && Sane(w.bits)
  }

  ghost predicate Inv(st: State) {
    && |st.pc| == |st.sp| && Family(st.pc) && Paired(st)
    && (forall s: nat | s < |st.sp| :: PcOk(st.sp, s, st.pc[s]))
    && (forall s: nat, v: nat | s < |st.sp| && v in st.sp[s] :: WordOk(st, st.sp[s][v]))
  }

  // ---------------------------------------------------------------- every act keeps it

  lemma FreshPaired(st: State, st': State, s: nat, v: nat, f: nat)
    requires |st.pc| == |st.sp| == |st'.pc| == |st'.sp| && Paired(st) && Fresh(st, f) && s < |st.sp|
    requires forall t: nat | t < |st.pc| && st.pc[t].Mid? :: st'.pc[t] == st.pc[t]
    requires forall t: nat, u: nat | t < |st.sp| && u in st'.sp[t] ::
               (t, u) == (s, v) || (u in st.sp[t] && st'.sp[t][u] == st.sp[t][u])
    requires v in st'.sp[s] ==> st'.sp[s][v].frame == f
    ensures Paired(st')
  {
    forall s1: nat, v1: nat, s2: nat, v2: nat | SamePage(st'.sp, s1, v1, s2, v2) ensures Pair(st', s1, v1, s2, v2) {
      if (s1, v1) != (s, v) && (s2, v2) != (s, v) {
        assert Pair(st, s1, v1, s2, v2);
      } else if (s1, v1) != (s, v) {
        assert MapsTo(st.sp, s1, v1, f);
      } else if (s2, v2) != (s, v) {
        assert MapsTo(st.sp, s2, v2, f);
      }
    }
  }

  /** Mappings only go away, and nobody leaves the middle of duppage but who loses them all. */
  lemma FewerPaired(st: State, st': State)
    requires |st.pc| == |st.sp| == |st'.pc| == |st'.sp| && Paired(st)
    requires forall t: nat, u: nat | t < |st.sp| && u in st'.sp[t] :: u in st.sp[t] && st'.sp[t][u] == st.sp[t][u]
    requires forall t: nat | t < |st.pc| && st.pc[t].Mid? :: st'.pc[t] == st.pc[t] || st'.sp[t] == map[]
    ensures Paired(st')
  {
    forall s1: nat, v1: nat, s2: nat, v2: nat | SamePage(st'.sp, s1, v1, s2, v2) ensures Pair(st', s1, v1, s2, v2) {
      assert Pair(st, s1, v1, s2, v2);
    }
  }

  /** Nobody else writes a private page of an environment that runs. */
  lemma OnlyMidWrites(st: State, s: nat, v: nat, s1: nat, v1: nat)
    requires Inv(st) && SamePage(st.sp, s, v, s1, v1) && (s1, v1) != (s, v) && !st.pc[s].Embryo?
    requires Share !in st.sp[s][v].bits
    ensures W !in st.sp[s1][v1].bits
  {
    assert Pair(st, s1, v1, s, v);
    assert st.pc[s1] == Mid(s, v1) ==> Makes(st.pc, s1, s);
  }

  lemma MapPaired(st: State, s: nat)
    requires Inv(st) && Enabled(st, MapChildPage(s))
    ensures Paired(Next(st, MapChildPage(s)))
  {
    var st', c, v, found := Next(st, MapChildPage(s)), st.pc[s].child, st.pc[s].v, st.pc[s].found;
    assert Makes(st.pc, s, c);
    forall s1: nat, v1: nat, s2: nat, v2: nat | SamePage(st'.sp, s1, v1, s2, v2) ensures Pair(st', s1, v1, s2, v2) {
      var (t1, u1) := Origin(s, c, v, s1, v1);
      var (t2, u2) := Origin(s, c, v, s2, v2);
      assert Pair(st, t1, u1, t2, u2);
      if (s2, v2) == (c, v) && (t1, u1) != (s, v) && found != Shared(st.sp[s][v].bits) {
        OnlyMidWrites(st, s, v, t1, u1);
      }
    }
  }

  lemma MarkPaired(st: State, s: nat)
    requires Inv(st) && Enabled(st, MarkOwnPage(s))
    ensures Paired(Next(st, MarkOwnPage(s)))
  {
    var st' := Next(st, MarkOwnPage(s));
    forall s1: nat, v1: nat, s2: nat, v2: nat | SamePage(st'.sp, s1, v1, s2, v2) ensures Pair(st', s1, v1, s2, v2) {
      assert Pair(st, s1, v1, s2, v2);
    }
  }

  lemma MadeIsEmbryo(pc: seq<Pc>, s: nat)
    requires Family(pc) && s < |pc| && (pc[s].Forking? || pc[s].Looked? || pc[s].Mid?)
    ensures pc[s].child < |pc| && pc[pc[s].child].Embryo?
  {
    assert Makes(pc, s, pc[s].child);
  }

  lemma StepPaired(st: State, a: Act)
    requires Inv(st) && Enabled(st, a)
    ensures Paired(Next(st, a))
  {
    hide Family;
    hide Paired;
    match a
    case Alloc(s, v, w) => FreshPaired(st, Next(st, a), s, v, w.frame);
    case Fault(s, v, f) => FreshPaired(st, Next(st, a), s, v, f);
    case Finish(s, f) =>
      MadeIsEmbryo(st.pc, s);
      FreshPaired(st, Next(st, a), st.pc[s].child, Fork.UXSTACK_PN, f);
    case MapChildPage(s) => MapPaired(st, s);
    case MarkOwnPage(s) => MarkPaired(st, s);
    case _ => FewerPaired(st, Next(st, a));
  }

  lemma StepFamily(st: State, a: Act)
    requires Inv(st) && Enabled(st, a)
    ensures Family(Next(st, a).pc)
  {
    hide Paired;
    hide PcOk;
    var pc, pc' := st.pc, Next(st, a).pc;
    if a.Finish? { MadeIsEmbryo(pc, a.s); }
    forall s: nat, c: nat | Makes(pc', s, c)
      ensures c < |pc| && pc'[c].Embryo? && (Makes(pc, s, c) || (a.Begin? && s == a.s && c == a.c))
    {
      assert Makes(pc, s, c) || (a.Begin? && s == a.s && c == a.c);
      if a.Finish? { assert Makes(pc, a.s, pc[a.s].child); }
    }
  }

  lemma StepPcOk(st: State, a: Act, s: nat)
    requires Inv(st) && Enabled(st, a) && s < |st.sp|
    ensures var st' := Next(st, a); PcOk(st'.sp, s, st'.pc[s])
  {
    hide Paired;
    assert PcOk(st.sp, s, st.pc[s]);
    if s != a.s && (a.MapChildPage? || a.Finish?) {
      assert Makes(st.pc, a.s, st.pc[a.s].child);
    }
  }

  lemma StepWordOk(st: State, a: Act, s: nat, v: nat)
    requires Inv(st) && Enabled(st, a) && s < |st.sp| && v in Next(st, a).sp[s]
    ensures WordOk(Next(st, a), Next(st, a).sp[s][v])
  {
    hide Paired;
    hide Family;
    if v in st.sp[s] { assert WordOk(st, st.sp[s][v]); }
    if a.MapChildPage? { assert PcOk(st.sp, a.s, st.pc[a.s]) && WordOk(st, st.sp[a.s][st.pc[a.s].v]); }
    if a.MarkOwnPage? { assert WordOk(st, st.sp[a.s][st.pc[a.s].v]); }
  }

  lemma StepInv(st: State, a: Act)
    requires Inv(st) && Enabled(st, a)
    ensures Inv(Next(st, a))
  {
    hide Paired;
    hide Family;
    hide PcOk;
    hide WordOk;
    StepPaired(st, a);
    StepFamily(st, a);
    forall s: nat | s < |st.sp| ensures PcOk(Next(st, a).sp, s, Next(st, a).pc[s]) { StepPcOk(st, a, s); }
    forall s: nat, v: nat | s < |st.sp| && v in Next(st, a).sp[s] ensures WordOk(Next(st, a), Next(st, a).sp[s][v]) {
      StepWordOk(st, a, s, v);
    }
  }

  // ---------------------------------------------------------------- runs

  ghost predicate Possible(st: State, acts: seq<Act>)
    decreases |acts|
  {
    acts == [] || (Enabled(st, acts[0]) && Possible(Next(st, acts[0]), acts[1..]))
  }

  ghost function After(st: State, acts: seq<Act>): State
    requires Possible(st, acts)
    decreases |acts|
  {
    if acts == [] then st else After(Next(st, acts[0]), acts[1..])
  }

  lemma {:induction false} RunInv(st: State, acts: seq<Act>)
    requires Inv(st) && Possible(st, acts)
    ensures Inv(After(st, acts))
    decreases |acts|
  {
    if acts != [] {
      StepInv(st, acts[0]);
      RunInv(Next(st, acts[0]), acts[1..]);
    }
  }

  predicate NobodyMid(st: State) {
    forall s | 0 <= s < |st.pc| :: !st.pc[s].Mid?
  }

  /** However the calls of all forks, the faults and the other acts are interleaved, no private
      writable page has a second mapping whenever no environment is between duppage's two calls. */
  lemma IsolatedOverRuns(st: State, acts: seq<Act>)
    requires Inv(st) && Possible(st, acts) && NobodyMid(After(st, acts))
    ensures Isolated(After(st, acts).sp)
  {
    RunInv(st, acts);
    var st' := After(st, acts);
    forall s1: nat, v1: nat, s2: nat, v2: nat | SamePage(st'.sp, s1, v1, s2, v2)
      ensures Compatible(st'.sp, s1, v1, s2, v2)
    {
      assert Pair(st', s1, v1, s2, v2) && Pair(st', s2, v2, s1, v1);
    }
  }

  /** Isolated spaces with nobody in fork are where a run may start. */
  lemma StartInv(st: State)
    requires |st.pc| == |st.sp| && Isolated(st.sp) && forall s: nat | s < |st.pc| :: st.pc[s].Idle?
    requires forall s: nat, v: nat | s < |st.sp| && v in st.sp[s] :: WordOk(st, st.sp[s][v])
    ensures Inv(st)
  {
    forall s1: nat, v1: nat, s2: nat, v2: nat | SamePage(st.sp, s1, v1, s2, v2) ensures Pair(st, s1, v1, s2, v2) {
      assert Compatible(st.sp, s1, v1, s2, v2);
    }
  }

  /** duppage's calls without anything between them are one step. */
  lemma UninterruptedDup(st: State, s: nat, v: nat)
    requires Inv(st) && Enabled(st, Look(s, v))
    ensures var st1 := Next(st, Look(s, v));
            && Enabled(st1, MapChildPage(s))
            && var st2 := Next(st1, MapChildPage(s));
               && (st2.pc[s].Mid? ==> Enabled(st2, MarkOwnPage(s)))
               && (if st2.pc[s].Mid? then Next(st2, MarkOwnPage(s)).sp else st2.sp) == Dup(st.sp, s, st.pc[s].child, v)
  {
    hide Paired;
    MadeIsEmbryo(st.pc, s);
    var c, w := st.pc[s].child, st.sp[s][v];
    var sp1 := st.sp[c := st.sp[c][v := Word(w.frame, ChildBits(w.bits))]];
    assert Dup(st.sp, s, c, v) == sp1[s := sp1[s][v := Word(w.frame, ParentBits(w.bits))]];
    assert ParentBits(w.bits) == w.bits ==> sp1[s][v := w] == sp1[s];
  }

  /** Who sees a store: every mapping of the page reads the new word, and a mapping other than the
      one stored through is either shared, like that one, or that of the child for which the
      environment is just between duppage's two calls. */
  lemma StoreSeenBy(st: State, s: nat, v: nat, o: nat, x: Word, s': nat, v': nat, o': nat)
    requires Inv(st) && Enabled(st, Store(s, v, o, x))
    requires s' < |st.sp| && v' in st.sp[s'] && st.sp[s'][v'].frame < |st.mem| && o' < |st.mem[st.sp[s'][v'].frame]|
    ensures var f := st.sp[s'][v'].frame;
            Next(st, Store(s, v, o, x)).mem[f][o'] ==
            if o' == o && SamePage(st.sp, s, v, s', v') then x else st.mem[f][o']
    ensures SamePage(st.sp, s, v, s', v') && (s', v') != (s, v) ==>
              (Share in st.sp[s][v].bits && Share in st.sp[s'][v'].bits) || (st.pc[s] == Mid(s', v) && v' == v)
  {
    if SamePage(st.sp, s, v, s', v') {
      assert Pair(st, s, v, s', v');
    }
  }

  /** What an environment's own acts do to its space: an allocated page reads as zeros with the
      permissions asked for, an unmapped one is gone, and an exit leaves nothing. */
  lemma OwnActs(st: State, a: Act, v: nat)
    requires Inv(st) && Enabled(st, a)
    ensures var sp, st' := st.sp[a.s], Next(st, a);
            var sp' := st'.sp[a.s];
            && (a.Alloc? && v == a.v ==> v in sp' && sp'[v] == a.w && st'.mem[a.w.frame] == ZeroFrame())
            && (a.Unmap? && v == a.v ==> v !in sp')
            && (a.Exit? ==> v !in sp' && st'.pc[a.s] == Idle)
            && ((a.Alloc? || a.Unmap?) && v != a.v ==> (v in sp' <==> v in sp) && (v in sp ==> sp'[v] == sp[v]))
            && (a.Begin? || a.Look? || a.MapChildPage? || a.Finish? || a.Store? ==> sp' == sp)
            && (a.Begin? ==> st'.pc[a.s] == Forking(a.c) && st'.pc[a.c] == Embryo)
  {
    if a.MapChildPage? || a.Finish? { MadeIsEmbryo(st.pc, a.s); }
  }

  /** The end of fork: the child has, besides what it was given, a private zeroed exception stack, and
      both run. */
  lemma FinishGivesStack(st: State, s: nat, f: nat)
    requires Inv(st) && Enabled(st, Finish(s, f))
    ensures var st', c := Next(st, Finish(s, f)), st.pc[s].child;
            && c < |st'.sp| && st'.pc[s] == Idle && st'.pc[c] == Idle
            && st'.sp[c].Keys == st.sp[c].Keys + {Fork.UXSTACK_PN} && f < |st'.mem| && st'.mem[f] == ZeroFrame()
            && st'.sp[c][Fork.UXSTACK_PN] == Word(f, {P, U, W})
            && (forall v | v in st.sp[c] && v != Fork.UXSTACK_PN :: st'.sp[c][v] == st.sp[c][v])
  {
    MadeIsEmbryo(st.pc, s);
  }

  /** What the faulting environment itself sees of its fault: the page can be stored to and reads as
      it did, and so do all its other pages but PFTEMP. */
  lemma FaultUnseen(st: State, s: nat, v: nat, f: nat, u: nat)
    requires Inv(st) && Enabled(st, Fault(s, v, f)) && u in st.sp[s] && u != Fork.PFTEMP_PN
    ensures var st' := Next(st, Fault(s, v, f));
            && u in st'.sp[s] && st.sp[s][u].frame < |st.mem| == |st'.mem| && st'.sp[s][u].frame < |st'.mem|
            && st'.mem[st'.sp[s][u].frame] == st.mem[st.sp[s][u].frame]
            && (if u == v then st'.sp[s][u].bits == {P, U, W} else st'.sp[s][u] == st.sp[s][u])
            && (forall o, x | 0 <= o < |st.mem[st.sp[s][v].frame]| :: Enabled(st', Store(s, v, o, x)))
  {
    assert WordOk(st, st.sp[s][u]) && MapsTo(st.sp, s, u, st.sp[s][u].frame);
  }

  /** What another environment's act may do to page v of s: only while s is being made. */
  predicate Touches(st: State, a: Act, s: nat, v: nat)
    requires a.s < |st.pc|
  {
    || (a.MapChildPage? && st.pc[a.s].Looked? && st.pc[a.s].child == s && st.pc[a.s].v == v)
    || (a.Finish? && st.pc[a.s].Forking? && st.pc[a.s].child == s && v == Fork.UXSTACK_PN)
    || (a.Store? && st.pc[a.s] == Mid(s, v) && a.v == v)
  }

  /** Everything else that another environment does leaves a private page as it is. */
  lemma StepPrivate(st: State, a: Act, s: nat, v: nat)
    requires Inv(st) && Enabled(st, a) && a.s != s && s < |st.sp| && v in st.sp[s] && Share !in st.sp[s][v].bits
    requires !Touches(st, a, s, v)
    ensures var st', f := Next(st, a), st.sp[s][v].frame;
            v in st'.sp[s] && st'.sp[s][v] == st.sp[s][v] && f < |st'.mem| == |st.mem| && st'.mem[f] == st.mem[f]
  {
    assert MapsTo(st.sp, s, v, st.sp[s][v].frame);
    assert WordOk(st, st.sp[s][v]);
    assert a.Store? && SamePage(st.sp, a.s, a.v, s, v) ==> Pair(st, a.s, a.v, s, v);
  }

  ghost predicate Untouched(st: State, acts: seq<Act>, s: nat, v: nat)
    requires Possible(st, acts)
    decreases |acts|
  {
    acts == [] || (acts[0].s != s && !Touches(st, acts[0], s, v) && Untouched(Next(st, acts[0]), acts[1..], s, v))
  }

  lemma {:induction false} PrivateOverRuns(st: State, acts: seq<Act>, s: nat, v: nat)
    requires Inv(st) && Possible(st, acts) && Untouched(st, acts, s, v)
    requires s < |st.sp| && v in st.sp[s] && Share !in st.sp[s][v].bits
    ensures var st', f := After(st, acts), st.sp[s][v].frame;
            && s < |st'.sp| && v in st'.sp[s] && st'.sp[s][v] == st.sp[s][v]
            && f < |st'.mem| == |st.mem| && st'.mem[f] == st.mem[f]
    decreases |acts|
  {
    if acts != [] {
      StepInv(st, acts[0]);
      StepPrivate(st, acts[0], s, v);
      PrivateOverRuns(Next(st, acts[0]), acts[1..], s, v);
    } else {
      assert WordOk(st, st.sp[s][v]);
    }
  }

  lemma {:induction false} RunsUntouched(st: State, acts: seq<Act>, s: nat, v: nat)
    requires Inv(st) && Possible(st, acts) && s < |st.sp| && v in st.sp[s] && Share !in st.sp[s][v].bits
    requires !st.pc[s].Embryo?
    requires forall k | 0 <= k < |acts| :: acts[k].s != s
    ensures Untouched(st, acts, s, v)
    decreases |acts|
  {
    if acts != [] {
      NotMade(st, acts[0], s, v);
      StepInv(st, acts[0]);
      StepPrivate(st, acts[0], s, v);
      RunsUntouched(Next(st, acts[0]), acts[1..], s, v);
    }
  }

  /** An environment that runs is nobody's child in the making, and stays so. */
  lemma NotMade(st: State, a: Act, s: nat, v: nat)
    requires Inv(st) && Enabled(st, a) && a.s != s && s < |st.sp| && v in st.sp[s] && !st.pc[s].Embryo?
    ensures !Touches(st, a, s, v) && Next(st, a).pc[s] == st.pc[s]
  {
    assert !Makes(st.pc, a.s, s);
  }

  /** Isolation over whole runs: while an environment that runs does nothing itself, nothing that
      the others do, in whatever order their stores, faults and calls of fork come, changes a page
      that it does not share. */
  lemma UndisturbedOverRuns(st: State, acts: seq<Act>, s: nat, v: nat)
    requires Inv(st) && Possible(st, acts) && s < |st.sp| && v in st.sp[s] && Share !in st.sp[s][v].bits
    requires !st.pc[s].Embryo?
    requires forall k | 0 <= k < |acts| :: acts[k].s != s
    ensures var st', f := After(st, acts), st.sp[s][v].frame;
            && s < |st'.sp| && v in st'.sp[s] && st'.sp[s][v] == st.sp[s][v]
            && f < |st'.mem| == |st.mem| && st'.mem[f] == st.mem[f]
  {
    RunsUntouched(st, acts, s, v);
    PrivateOverRuns(st, acts, s, v);
  }

  /** A child gets the page as it is when the parent marks its own: whatever comes after that, up to
      the child's first act, but duplicating the same page again, leaves what the child reads. */
  lemma ChildGetsMarkedPage(st: State, s: nat, acts: seq<Act>)
    requires Inv(st) && Enabled(st, MarkOwnPage(s)) && st.pc[s].child < |st.sp|
    requires var st1, c, v := Next(st, MarkOwnPage(s)), st.pc[s].child, st.pc[s].v;
             && SamePage(st.sp, s, v, c, v) && Possible(st1, acts) && Untouched(st1, acts, c, v)
    ensures var st', c, v := After(Next(st, MarkOwnPage(s)), acts), st.pc[s].child, st.pc[s].v;
            && c < |st'.sp| && v in st'.sp[c] && W !in st'.sp[c][v].bits
            && st'.sp[c][v].frame == st.sp[s][v].frame < |st'.mem| == |st.mem|
            && st'.mem[st.sp[s][v].frame] == st.mem[st.sp[s][v].frame]
  {
    var st1, c, v := Next(st, MarkOwnPage(s)), st.pc[s].child, st.pc[s].v;
    assert Pair(st, s, v, c, v) && Pair(st, c, v, s, v) && PcOk(st.sp, s, st.pc[s]);
    MadeIsEmbryo(st.pc, s);
    StepInv(st, MarkOwnPage(s));
    PrivateOverRuns(st1, acts, c, v);
  }
}
