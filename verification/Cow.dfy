/** Copy-on-write on abstract address spaces: who may write a page that others also map. */
module Cow {
  import opened Mmu

  /** The address space of every environment slot. */
  type Spaces = seq<map<nat, Word>>

  predicate MapsTo(sp: Spaces, s: nat, v: nat, f: nat) {
    s < |sp| && v in sp[s] && sp[s][v].frame == f
  }

  predicate SamePage(sp: Spaces, s: nat, v: nat, s': nat, v': nat) {
    s < |sp| && v in sp[s] && s' < |sp| && v' in sp[s'] && sp[s][v].frame == sp[s'][v'].frame
  }

  /** Two different mappings of one page agree on PTE_SHARE, and without it neither of them
      is writable. */
  predicate Compatible(sp: Spaces, s: nat, v: nat, s': nat, v': nat)
    requires s < |sp| && v in sp[s] && s' < |sp| && v' in sp[s']
  {
    && (Share in sp[s][v].bits <==> Share in sp[s'][v'].bits)
    && (Share !in sp[s][v].bits && (s, v) != (s', v') ==> W !in sp[s][v].bits && W !in sp[s'][v'].bits)
  }

  /** No private writable page has a second mapping. */
  ghost predicate Isolated(sp: Spaces) {
    forall s: nat, v: nat, s': nat, v': nat | SamePage(sp, s, v, s', v') :: Compatible(sp, s, v, s', v')
  }

  function Update(sp: Spaces, s: nat, v: nat, w: Word): Spaces
    requires s < |sp|
  {
    sp[s := if P in w.bits then sp[s][v := w] else sp[s] - {v}]
  }

  /** The page is mapped nowhere but, possibly, at the page that is about to be replaced. */
  ghost predicate Unshared(sp: Spaces, f: nat) {
    forall s: nat, v: nat | s < |sp| && v in sp[s] :: sp[s][v].frame != f
  }

  lemma UnmapIsolated(sp: Spaces, s: nat, v: nat)
    requires Isolated(sp) && s < |sp|
    ensures Isolated(Update(sp, s, v, ZERO))
  {
    var sp' := Update(sp, s, v, ZERO);
    forall s1: nat, v1: nat, s2: nat, v2: nat | SamePage(sp', s1, v1, s2, v2)
      ensures Compatible(sp', s1, v1, s2, v2) {
      assert Compatible(sp, s1, v1, s2, v2);
    }
  }

  /** A fresh page may be mapped with any permissions. */
  lemma FreshIsolated(sp: Spaces, s: nat, v: nat, w: Word)
    requires Isolated(sp) && s < |sp| && P in w.bits && Unshared(sp, w.frame)
    ensures Isolated(Update(sp, s, v, w))
  {
    var sp' := Update(sp, s, v, w);
    forall s1: nat, v1: nat, s2: nat, v2: nat | SamePage(sp', s1, v1, s2, v2)
      ensures Compatible(sp', s1, v1, s2, v2) {
      if (s1, v1) != (s, v) && (s2, v2) != (s, v) {
        assert Compatible(sp, s1, v1, s2, v2);
      }
    }
  }

  // ---------------------------------------------------------------- duppage

  const COW_BITS: Bits := {P, U, Cow}
  const READ_BITS: Bits := {P, U}

  /** The permissions duppage gives the child, and leaves the parent with. */
  function ChildBits(b: Bits): Bits {
    if Share in b then b * SYSCALL_BITS else if W in b || Cow in b then COW_BITS else READ_BITS
  }

  function ParentBits(b: Bits): Bits {
    if Share !in b && (W in b || Cow in b) then COW_BITS else b
  }

  /** duppage as one step. */
  function Dup(sp: Spaces, parent: nat, child: nat, v: nat): Spaces
    requires parent < |sp| && child < |sp| && v in sp[parent]
  {
    var w := sp[parent][v];
    var sp1 := sp[child := sp[child][v := Word(w.frame, ChildBits(w.bits))]];
    sp1[parent := sp1[parent][v := Word(w.frame, ParentBits(w.bits))]]
  }

  /** After duppage the page's mappings are compatible again, whatever they were: shared pages
      stay shared and every other one loses write access on both sides. */
  lemma DupIsolated(sp: Spaces, parent: nat, child: nat, v: nat)
    requires Isolated(sp) && parent < |sp| && child < |sp| && parent != child && v in sp[parent]
    requires P in sp[parent][v].bits
    ensures Isolated(Dup(sp, parent, child, v))
  {
    var sp' := Dup(sp, parent, child, v);
    var w := sp[parent][v];
    forall s1: nat, v1: nat, s2: nat, v2: nat | SamePage(sp', s1, v1, s2, v2)
      ensures Compatible(sp', s1, v1, s2, v2) {
      DupPair(sp, parent, child, v, s1, v1, s2, v2);
    }
  }

  /** The mapping of the old state that a mapping of the new state descends from. */
  function Origin(parent: nat, child: nat, v: nat, s1: nat, v1: nat): (nat, nat) {
    if (s1, v1) == (child, v) then (parent, v) else (s1, v1)
  }

  lemma DupPair(sp: Spaces, parent: nat, child: nat, v: nat, s1: nat, v1: nat, s2: nat, v2: nat)
    requires Isolated(sp) && parent < |sp| && child < |sp| && parent != child && v in sp[parent]
    requires SamePage(Dup(sp, parent, child, v), s1, v1, s2, v2)
    ensures Compatible(Dup(sp, parent, child, v), s1, v1, s2, v2)
  {
    var (t1, u1) := Origin(parent, child, v, s1, v1);
    var (t2, u2) := Origin(parent, child, v, s2, v2);
    assert Compatible(sp, t1, u1, t2, u2);
    assert Compatible(sp, t1, u1, parent, v) || sp[t1][u1].frame != sp[parent][v].frame;
  }

  // ---------------------------------------------------------------- faults while duppage runs

  /** The parent stores to one of its copy-on-write pages, perhaps its stack, and the handler puts a
      private writable copy in its place. */
  ghost predicate OwnFault(sp: Spaces, sp': Spaces, s: nat, tmp: nat) {
    s < |sp| && exists u, f ::
      u in sp[s] && u != tmp && Unshared(sp, f) && sp' == sp[s := sp[s][u := Word(f, RW_BITS)] - {tmp}]
  }

  ghost predicate OwnFaults(run: seq<Spaces>, s: nat, tmp: nat) {
    run != [] && forall k | 0 < k < |run| :: OwnFault(run[k - 1], run[k], s, tmp)
  }

  /** duppage's first call, for a page that it found writable or copy-on-write, ... */
  function MapChild(sp: Spaces, parent: nat, child: nat, v: nat): Spaces
    requires parent < |sp| && child < |sp| && v in sp[parent]
  {
    sp[child := sp[child][v := Word(sp[parent][v].frame, COW_BITS)]]
  }

  /** ... and its second. */
  function MarkOwn(sp: Spaces, parent: nat, v: nat): Spaces
    requires parent < |sp| && v in sp[parent]
  {
    sp[parent := sp[parent][v := Word(sp[parent][v].frame, COW_BITS)]]
  }

  /** Isolated, but that the private page v of s may be writable although it has other mappings. */
  ghost predicate IsolatedBut(sp: Spaces, s: nat, v: nat) {
    && s < |sp| && v in sp[s] && Share !in sp[s][v].bits
    && forall s1: nat, v1: nat, s2: nat, v2: nat | SamePage(sp, s1, v1, s2, v2) ::
         CompatibleBut(sp, s1, v1, s2, v2, s, v)
  }

  predicate CompatibleBut(sp: Spaces, s1: nat, v1: nat, s2: nat, v2: nat, s: nat, v: nat)
    requires s1 < |sp| && v1 in sp[s1] && s2 < |sp| && v2 in sp[s2]
  {
    && (Share in sp[s1][v1].bits <==> Share in sp[s2][v2].bits)
    && (Share !in sp[s1][v1].bits && (s1, v1) != (s2, v2) ==>
          ((s1, v1) != (s, v) ==> W !in sp[s1][v1].bits) && ((s2, v2) != (s, v) ==> W !in sp[s2][v2].bits))
  }

  lemma MapChildBut(sp: Spaces, parent: nat, child: nat, v: nat)
    requires Isolated(sp) && parent < |sp| && child < |sp| && parent != child && v in sp[parent]
    requires Share !in sp[parent][v].bits
    ensures IsolatedBut(MapChild(sp, parent, child, v), parent, v)
  {
    var sp' := MapChild(sp, parent, child, v);
    forall s1: nat, v1: nat, s2: nat, v2: nat | SamePage(sp', s1, v1, s2, v2)
      ensures CompatibleBut(sp', s1, v1, s2, v2, parent, v)
    {
      var (t1, u1) := Origin(parent, child, v, s1, v1);
      var (t2, u2) := Origin(parent, child, v, s2, v2);
      assert Compatible(sp, t1, u1, t2, u2);
    }
  }

  lemma OwnFaultBut(sp: Spaces, sp': Spaces, s: nat, v: nat, tmp: nat)
    requires IsolatedBut(sp, s, v) && OwnFault(sp, sp', s, tmp) && v != tmp
    ensures IsolatedBut(sp', s, v)
  {
    var u, f :| u in sp[s] && u != tmp && Unshared(sp, f) && sp' == sp[s := sp[s][u := Word(f, RW_BITS)] - {tmp}];
    forall s1: nat, v1: nat, s2: nat, v2: nat | SamePage(sp', s1, v1, s2, v2)
      ensures CompatibleBut(sp', s1, v1, s2, v2, s, v)
    {
      if (s1, v1) != (s, u) && (s2, v2) != (s, u) { assert CompatibleBut(sp, s1, v1, s2, v2, s, v); }
    }
  }

  lemma OwnFaultIsolated(sp: Spaces, sp': Spaces, s: nat, v: nat, tmp: nat)
    requires Isolated(sp) && OwnFault(sp, sp', s, tmp) && v != tmp && v in sp[s] && Share !in sp[s][v].bits
    ensures Isolated(sp') && |sp'| == |sp| && v in sp'[s] && Share !in sp'[s][v].bits
  {
    var u, f :| u in sp[s] && u != tmp && Unshared(sp, f) && sp' == sp[s := sp[s][u := Word(f, RW_BITS)] - {tmp}];
    forall s1: nat, v1: nat, s2: nat, v2: nat | SamePage(sp', s1, v1, s2, v2) ensures Compatible(sp', s1, v1, s2, v2) {
      if (s1, v1) != (s, u) && (s2, v2) != (s, u) { assert Compatible(sp, s1, v1, s2, v2); }
    }
  }

  lemma MarkOwnIsolated(sp: Spaces, parent: nat, v: nat)
    requires IsolatedBut(sp, parent, v)
    ensures Isolated(MarkOwn(sp, parent, v))
  {
    var sp' := MarkOwn(sp, parent, v);
    forall s1: nat, v1: nat, s2: nat, v2: nat | SamePage(sp', s1, v1, s2, v2) ensures Compatible(sp', s1, v1, s2, v2) {
      assert CompatibleBut(sp, s1, v1, s2, v2, parent, v);
    }
  }

  lemma {:induction false} FaultsBefore(run: seq<Spaces>, s: nat, v: nat, tmp: nat)
    requires OwnFaults(run, s, tmp) && Isolated(run[0]) && v != tmp && s < |run[0]| && v in run[0][s]
    requires Share !in run[0][s][v].bits
    ensures var sp := run[|run| - 1]; Isolated(sp) && |sp| == |run[0]| && v in sp[s] && Share !in sp[s][v].bits
    decreases |run|
  {
    if |run| > 1 {
      var rest := run[1..];
      assert OwnFault(run[0], run[1], s, tmp);
      OwnFaultIsolated(run[0], run[1], s, v, tmp);
      forall k | 0 < k < |rest|
        ensures OwnFault(rest[k - 1], rest[k], s, tmp)
      {
        assert OwnFault(run[k], run[k + 1], s, tmp);
      }
      FaultsBefore(rest, s, v, tmp);
    }
  }

  lemma {:induction false} FaultsBetween(run: seq<Spaces>, s: nat, v: nat, tmp: nat)
    requires OwnFaults(run, s, tmp) && IsolatedBut(run[0], s, v) && v != tmp
    ensures IsolatedBut(run[|run| - 1], s, v)
    decreases |run|
  {
    if |run| > 1 {
      var rest := run[1..];
      assert OwnFault(run[0], run[1], s, tmp);
      OwnFaultBut(run[0], run[1], s, v, tmp);
      forall k | 0 < k < |rest|
        ensures OwnFault(rest[k - 1], rest[k], s, tmp)
      {
        assert OwnFault(run[k], run[k + 1], s, tmp);
      }
      FaultsBetween(rest, s, v, tmp);
    }
  }

  /** However many faults of the parent come after duppage has looked at its page and between its
      two calls, no private writable page has a second mapping once the second is done. */
  lemma DupInterleaved(before: seq<Spaces>, between: seq<Spaces>, parent: nat, child: nat, v: nat, tmp: nat)
    requires OwnFaults(before, parent, tmp) && OwnFaults(between, parent, tmp) && v != tmp && parent != child
    requires Isolated(before[0]) && parent < |before[0]| && child < |before[0]| && v in before[0][parent]
    requires Share !in before[0][parent][v].bits
    requires var sp := before[|before| - 1];
             parent < |sp| && child < |sp| && v in sp[parent] && between[0] == MapChild(sp, parent, child, v)
    ensures var sp := between[|between| - 1]; parent < |sp| && v in sp[parent] && Isolated(MarkOwn(sp, parent, v))
  {
    FaultsBefore(before, parent, v, tmp);
    MapChildBut(before[|before| - 1], parent, child, v);
    FaultsBetween(between, parent, v, tmp);
    MarkOwnIsolated(between[|between| - 1], parent, v);
  }

  /** The faults that the handler deals with are such. */
  lemma HandledIsOwnFault(a: View, b: View, s: nat, tmp: nat, v: nat)
    requires PrivateCopy(a, b, s, tmp, v) && v != tmp
    ensures OwnFault(a.sp, b.sp, s, tmp)
  {
  }

  /** Why a page that was copy-on-write already is marked again: if the parent has stored to it
      since duppage looked, the child's mapping alone leaves the parent a writable page that the
      child maps too. */
  lemma MarkingIsNeeded(sp: Spaces, parent: nat, child: nat, v: nat, tmp: nat, f: nat)
    requires Isolated(sp) && parent < |sp| && child < |sp| && parent != child && v in sp[parent] && v != tmp
    requires Unshared(sp, f)
    ensures var sp' := sp[parent := sp[parent][v := Word(f, RW_BITS)] - {tmp}];
            OwnFault(sp, sp', parent, tmp) && !Isolated(MapChild(sp', parent, child, v))
  {
    var sp' := sp[parent := sp[parent][v := Word(f, RW_BITS)] - {tmp}];
    var sp'' := MapChild(sp', parent, child, v);
    assert SamePage(sp'', parent, v, child, v) && !Compatible(sp'', parent, v, child, v);
  }

  // ---------------------------------------------------------------- moving a private copy into place

  /** The fault handler's last two calls: the page mapped at `tmp`, which has no other mapping,
      is mapped writable at v and then unmapped from `tmp`. */
  function Move(sp: Spaces, s: nat, tmp: nat, v: nat, w: Word): Spaces
    requires s < |sp|
  {
    Update(Update(sp, s, v, w), s, tmp, ZERO)
  }

  lemma MoveIsolated(sp: Spaces, s: nat, tmp: nat, v: nat, w: Word)
    requires Isolated(sp) && s < |sp| && tmp in sp[s] && w.frame == sp[s][tmp].frame && P in w.bits
    requires forall s': nat, v': nat | MapsTo(sp, s', v', w.frame) :: (s', v') == (s, tmp)
    ensures Isolated(Move(sp, s, tmp, v, w))
  {
    var sp' := Move(sp, s, tmp, v, w);
    forall s1: nat, v1: nat, s2: nat, v2: nat | SamePage(sp', s1, v1, s2, v2)
      ensures Compatible(sp', s1, v1, s2, v2) {
      if (s1, v1) != (s, v) && (s2, v2) != (s, v) {
        assert Compatible(sp, s1, v1, s2, v2);
      } else {
        assert MapsTo(sp, s1, v1, w.frame) || (s1, v1) == (s, v);
        assert MapsTo(sp, s2, v2, w.frame) || (s2, v2) == (s, v);
      }
    }
  }

  // ---------------------------------------------------------------- contents

  /** What environments can observe: their mappings and the contents of the mapped pages. */
  datatype View = View(sp: Spaces, mem: seq<Frame>)

  ghost predicate InUse(sp: Spaces, f: nat) {
    exists s: nat, v: nat :: MapsTo(sp, s, v, f)
  }

  /** A page in use before and after holds what it held. */
  ghost predicate InUseKept(a: View, b: View) {
    && |a.sp| == |b.sp| && |a.mem| == |b.mem|
    && forall f | 0 <= f < |a.mem| && InUse(a.sp, f) && InUse(b.sp, f) :: b.mem[f] == a.mem[f]
  }

  /** Nothing but environment s's own mappings, and pages only it had, changed. */
  ghost predicate OthersKept(a: View, b: View, s: nat) {
    && InUseKept(a, b)
    && forall s' | 0 <= s' < |a.sp| && s' != s :: b.sp[s'] == a.sp[s']
  }

  lemma UnmapKeeps(a: View, b: View, c: View, s: nat, v: nat)
    requires s < |b.sp| && InUseKept(a, b) && InUseKept(b, c) && c.sp == Update(b.sp, s, v, ZERO)
    ensures InUseKept(a, c)
  {
    forall f | 0 <= f < |a.mem| && InUse(a.sp, f) && InUse(c.sp, f) ensures c.mem[f] == a.mem[f] {
      var s', v' :| MapsTo(c.sp, s', v', f);
      assert MapsTo(b.sp, s', v', f);
    }
  }

  // ---------------------------------------------------------------- the page-fault handler

  const RW_BITS: Bits := {P, W, U}

  /** The handler's first half: the fresh page f is mapped at tmp and holds what page v held. */
  ghost predicate TempMade(a: View, b: View, s: nat, tmp: nat, v: nat, f: nat) {
    && s < |a.sp| && v in a.sp[s] && a.sp[s][v].frame < |a.mem| && f < |a.mem| == |b.mem|
    && Unshared(a.sp, f) && b.sp == Update(a.sp, s, tmp, Word(f, RW_BITS))
    && (v != tmp ==> b.mem[f] == a.mem[a.sp[s][v].frame])
  }

  /** Page v of s has become a private writable copy of the page it was, tmp is unmapped, and
      nothing else changed. */
  ghost predicate PrivateCopy(a: View, b: View, s: nat, tmp: nat, v: nat) {
    && s < |a.sp| == |b.sp| && v in a.sp[s] && a.sp[s][v].frame < |a.mem|
    && v in b.sp[s] && b.sp[s][v].bits == RW_BITS
    && var f := b.sp[s][v].frame;
       && f < |b.mem| && Unshared(a.sp, f) && b.mem[f] == a.mem[a.sp[s][v].frame]
       && b.sp == a.sp[s := a.sp[s][v := Word(f, RW_BITS)] - {tmp}]
       && InUseKept(a, b)
  }

  lemma FaultKeeps(a: View, b: View, c: View, s: nat, tmp: nat, v: nat, f: nat)
    requires TempMade(a, b, s, tmp, v, f) && InUseKept(a, b) && InUseKept(b, c)
    requires c.sp == Move(b.sp, s, tmp, v, Word(f, RW_BITS))
    ensures OthersKept(a, c, s)
  {
    forall g | 0 <= g < |a.mem| && InUse(a.sp, g) && InUse(c.sp, g) ensures c.mem[g] == a.mem[g] {
      var s', v' :| MapsTo(c.sp, s', v', g);
      assert g != f by {
        var s0, v0 :| MapsTo(a.sp, s0, v0, g);
      }
      assert MapsTo(b.sp, s', v', g);
    }
  }

  /** Both halves of the handler. */
  lemma FaultHandled(a: View, b: View, c: View, s: nat, tmp: nat, v: nat, f: nat)
    requires Isolated(a.sp) && TempMade(a, b, s, tmp, v, f) && InUseKept(a, b) && InUseKept(b, c)
    requires c.sp == Move(b.sp, s, tmp, v, Word(f, RW_BITS))
    ensures Isolated(c.sp) && OthersKept(a, c, s)
    ensures v != tmp ==> PrivateCopy(a, c, s, tmp, v)
  {
    var w := Word(f, RW_BITS);
    FreshIsolated(a.sp, s, tmp, w);
    MoveIsolated(b.sp, s, tmp, v, w);
    FaultKeeps(a, b, c, s, tmp, v, f);
    if v != tmp {
      assert c.sp[s] == a.sp[s][tmp := w][v := w] - {tmp};
      assert a.sp[s][tmp := w][v := w] - {tmp} == a.sp[s][v := w] - {tmp};
      assert MapsTo(b.sp, s, tmp, f) && MapsTo(c.sp, s, v, f);
    }
  }

  // ---------------------------------------------------------------- stores

  /** What environment s reads at word o of page v. */
  function Read(a: View, s: nat, v: nat, o: nat): Word
    requires s < |a.sp| && v in a.sp[s] && a.sp[s][v].frame < |a.mem| && o < |a.mem[a.sp[s][v].frame]|
  {
    a.mem[a.sp[s][v].frame][o]
  }

  /** Isolation: a store through one mapping is seen through another only when both are
      PTE_SHARE mappings of the same page. */
  lemma StoreIsPrivate(a: View, s: nat, v: nat, o: nat, w: Word, s': nat, v': nat, o': nat)
    requires Isolated(a.sp) && s < |a.sp| && v in a.sp[s] && W in a.sp[s][v].bits
    requires a.sp[s][v].frame < |a.mem| && o < |a.mem[a.sp[s][v].frame]|
    requires s' < |a.sp| && v' in a.sp[s'] && a.sp[s'][v'].frame < |a.mem| && o' < |a.mem[a.sp[s'][v'].frame]|
    ensures var f := a.sp[s][v].frame;
            var b := a.(mem := a.mem[f := a.mem[f][o := w]]);
            Read(b, s', v', o') ==
            if (s', v', o') == (s, v, o) then w
            else if o' == o && SamePage(a.sp, s, v, s', v')
                    && Share in a.sp[s][v].bits && Share in a.sp[s'][v'].bits then w
            else Read(a, s', v', o')
  {
    if SamePage(a.sp, s, v, s', v') {
      assert Compatible(a.sp, s, v, s', v');
    }
  }

  // ---------------------------------------------------------------- fork

  /** fork has duplicated the pages lo <= v < pn of the parent into the child, which had none. */
  ghost predicate ForkedTo(a: Spaces, b: Spaces, parent: nat, child: nat, lo: nat, pn: nat) {
    && |a| == |b| && parent < |a| && child < |a| && parent != child
    && (forall s | 0 <= s < |a| && s != parent && s != child :: b[s] == a[s])
    && b[parent].Keys == a[parent].Keys
    && (forall v | v in a[parent] :: b[parent][v] ==
          Word(a[parent][v].frame, if lo <= v < pn then ParentBits(a[parent][v].bits) else a[parent][v].bits))
    && (forall v: nat :: v in b[child] <==> lo <= v < pn && v in a[parent])
    && (forall v | v in b[child] :: b[child][v] == Word(a[parent][v].frame, ChildBits(a[parent][v].bits)))
  }

  lemma ForkedStep(a: Spaces, b: Spaces, parent: nat, child: nat, lo: nat, pn: nat)
    requires ForkedTo(a, b, parent, child, lo, pn) && lo <= pn
    ensures parent != child && parent < |a| && |a| == |b| && (pn in a[parent] <==> pn in b[parent])
    ensures pn !in a[parent] ==> ForkedTo(a, b, parent, child, lo, pn + 1)
    ensures pn in a[parent] ==> pn in b[parent] && b[parent][pn] == a[parent][pn]
    ensures pn in a[parent] ==> ForkedTo(a, Dup(b, parent, child, pn), parent, child, lo, pn + 1)
  {
  }

  /** fork brings no page into use and takes none out of use. */
  lemma ForkedInUse(a: Spaces, b: Spaces, parent: nat, child: nat, lo: nat, pn: nat, f: nat)
    requires ForkedTo(a, b, parent, child, lo, pn) && a[child] == map[]
    ensures InUse(b, f) <==> InUse(a, f)
  {
    if InUse(a, f) {
      var s, v :| MapsTo(a, s, v, f);
      assert MapsTo(b, s, v, f);
    }
    if InUse(b, f) {
      var s, v :| MapsTo(b, s, v, f);
      assert MapsTo(a, if s == child then parent else s, v, f);
    }
  }

  lemma ForkedKeeps(a: View, b: View, c: View, parent: nat, child: nat, lo: nat, pn: nat)
    requires ForkedTo(a.sp, b.sp, parent, child, lo, pn) && a.sp[child] == map[] && InUseKept(a, b) && InUseKept(b, c)
    ensures InUseKept(a, c)
  {
    forall f | 0 <= f < |a.mem| && InUse(a.sp, f) && InUse(c.sp, f) ensures c.mem[f] == a.mem[f] {
      ForkedInUse(a.sp, b.sp, parent, child, lo, pn, f);
    }
  }

  /** What fork promises when it returns the child: the parent's pages in the copied range are
      the child's, page for page the same frames; the child also has a fresh exception stack;
      nobody else, and no page contents, changed. */
  ghost predicate Forked(a: View, b: View, parent: nat, child: nat, lo: nat, hi: nat, xstack: nat) {
    && parent < |a.sp| == |b.sp| && child < |a.sp| && InUseKept(a, b)
    && xstack in b.sp[child] && b.sp[child][xstack].bits == RW_BITS
    && Unshared(a.sp, b.sp[child][xstack].frame)
    && ForkedTo(a.sp, b.sp[child := b.sp[child] - {xstack}], parent, child, lo, hi)
  }

  lemma ForkedWithStack(a: View, b: View, c: View, parent: nat, child: nat, lo: nat, hi: nat, xstack: nat, w: Word)
    requires ForkedTo(a.sp, b.sp, parent, child, lo, hi) && a.sp[child] == map[] && !(lo <= xstack < hi)
    requires w.bits == RW_BITS && Unshared(b.sp, w.frame) && c.sp == Update(b.sp, child, xstack, w) && InUseKept(a, c)
    ensures Forked(a, c, parent, child, lo, hi, xstack)
  {
    assert c.sp[child] - {xstack} == b.sp[child];
    assert c.sp[child := c.sp[child] - {xstack}] == b.sp;
    forall s: nat, v: nat | s < |a.sp| && v in a.sp[s] ensures a.sp[s][v].frame != w.frame {
      assert MapsTo(a.sp, s, v, a.sp[s][v].frame);
      ForkedInUse(a.sp, b.sp, parent, child, lo, hi, a.sp[s][v].frame);
    }
  }

  /** Can a store to the page succeed, perhaps after a fault? */
  predicate MayStore(space: map<nat, Word>, v: nat) {
    v in space && (W in space[v].bits || Cow in space[v].bits)
  }

  /** A page that could be stored to before fork can be stored to by both sides afterwards, and
      no other one can. */
  lemma ForkKeepsStores(a: View, b: View, parent: nat, child: nat, lo: nat, hi: nat, xstack: nat, v: nat)
    requires Forked(a, b, parent, child, lo, hi, xstack) && !(lo <= xstack < hi) && lo <= v < hi
    ensures parent < |b.sp| && child < |b.sp|
    ensures MayStore(b.sp[parent], v) <==> MayStore(a.sp[parent], v)
    ensures MayStore(b.sp[child], v) <==> MayStore(a.sp[parent], v)
    ensures v in b.sp[child] <==> v in a.sp[parent]
  {
    assert v in b.sp[child] <==> v in b.sp[child] - {xstack};
  }

  /** Immediately after fork, parent and child read what the parent read before it, and pages
      marked PTE_SHARE are mapped alike in both, so that they stay common. */
  lemma ForkReadsAlike(a: View, b: View, parent: nat, child: nat, lo: nat, hi: nat, xstack: nat, v: nat, o: nat)
    requires Forked(a, b, parent, child, lo, hi, xstack) && !(lo <= xstack < hi) && lo <= v < hi
    requires v in a.sp[parent] && a.sp[parent][v].frame < |a.mem| && o < |a.mem[a.sp[parent][v].frame]|
    ensures v in b.sp[parent] && v in b.sp[child]
    ensures b.sp[child][v].frame == b.sp[parent][v].frame == a.sp[parent][v].frame < |b.mem|
    ensures b.mem[a.sp[parent][v].frame] == a.mem[a.sp[parent][v].frame]
    ensures Read(b, child, v, o) == Read(b, parent, v, o) == Read(a, parent, v, o)
    ensures Share in a.sp[parent][v].bits ==>
              b.sp[parent][v] == a.sp[parent][v] && b.sp[child][v].bits == a.sp[parent][v].bits * SYSCALL_BITS
    ensures Share !in a.sp[parent][v].bits ==> W !in b.sp[parent][v].bits && W !in b.sp[child][v].bits
  {
    var f := a.sp[parent][v].frame;
    assert v in b.sp[child] - {xstack};
    assert MapsTo(a.sp, parent, v, f) && MapsTo(b.sp, parent, v, f);
  }
}
