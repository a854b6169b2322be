/** Physical pages, reference counts and two-level page tables as one value, and the facts
    about it that the page-map and environment code rely on.  Page tables live in the same
    frames they map, so every step is justified by who owns each frame. */
module VmSpec {
  import opened Mmu

  /** What a frame is used for.  `Held` is a page that page_alloc has returned and nobody
      maps yet; `Fixed` is a page that page_init never put on the free list. */
  datatype Kind =
    | Free
    | Held
    | Fixed
    | KTable(d: nat)
    | Dir(slot: nat)
    | Table(slot: nat, d: nat)
    | User

  /** The kernel's memory state: pp_ref per frame, frame use, frame contents, env_pgdir per
      environment slot (-1 is NULL), the free list in order, and the frame of kern_pgdir. */
  datatype Vm = Vm(ref: seq<nat>, kind: seq<Kind>, mem: seq<Frame>, dir: seq<int>, free: seq<nat>, kern: nat)

  predicate Shape(vm: Vm) {
    && |vm.ref| == |vm.kind| == |vm.mem|
    && |vm.dir| == NENV
    && vm.kern < |vm.mem|
    && (forall f | 0 <= f < |vm.mem| :: |vm.mem[f]| == NPTENTRIES)
    && (forall s | 0 <= s < NENV :: -1 <= vm.dir[s] < |vm.mem|)
  }

  predicate Live(vm: Vm, s: nat)
    requires Shape(vm)
  {
    s < NENV && vm.dir[s] >= 0
  }

  /** Page-directory entry d of environment slot s. */
  function Pde(vm: Vm, s: nat, d: nat): Word
    requires Shape(vm) && Live(vm, s) && d < NPDENTRIES
  {
    vm.mem[vm.dir[s]][d]
  }

  predicate HasTable(vm: Vm, s: nat, d: nat)
    requires Shape(vm)
  {
    && Live(vm, s) && d < PDX_UTOP
    && P in Pde(vm, s, d).bits
    && Pde(vm, s, d).frame < |vm.mem|
  }

  /** Every page directory and page table has exactly one owner, which names it; a directory entry
      leaves the permissions to the page table. */
  predicate Owned(vm: Vm)
    requires Shape(vm)
  {
    && (forall s | 0 <= s < NENV && Live(vm, s) :: vm.kind[vm.dir[s]] == Dir(s))
    && (forall f | 0 <= f < |vm.kind| && vm.kind[f].Dir? ::
          Live(vm, vm.kind[f].slot) && vm.dir[vm.kind[f].slot] == f)
    && (forall s, d | 0 <= s < NENV && Live(vm, s) && 0 <= d < PDX_UTOP && P in Pde(vm, s, d).bits ::
          && Pde(vm, s, d).frame < |vm.mem| && vm.kind[Pde(vm, s, d).frame] == Table(s, d)
          && {U, W} <= Pde(vm, s, d).bits)
    && (forall f | 0 <= f < |vm.kind| && vm.kind[f].Table? ::
          HasTable(vm, vm.kind[f].slot, vm.kind[f].d) && Pde(vm, vm.kind[f].slot, vm.kind[f].d).frame == f)
  }

  /** The kernel directory owns its tables, and every environment has the kernel's entries
      above UTOP, except that UVPT maps the environment's own directory. */
  predicate KernelShared(vm: Vm)
    requires Shape(vm)
  {
    && vm.kind[vm.kern] == Fixed
    && (forall d | 0 <= d < NPDENTRIES && d != PDX_UVPT && P in vm.mem[vm.kern][d].bits ::
          && d >= PDX_UTOP && vm.mem[vm.kern][d].frame < |vm.mem|
          && vm.kind[vm.mem[vm.kern][d].frame] == KTable(d))
    && (forall s, d | 0 <= s < NENV && Live(vm, s) && PDX_UTOP <= d < NPDENTRIES ::
          Pde(vm, s, d) == if d == PDX_UVPT then Word(vm.dir[s], {P, U}) else vm.mem[vm.kern][d])
  }

  /** One page-table word. */
  datatype Slot = Slot(t: nat, i: nat)

  function AllSlots(n: nat): (r: set<Slot>)
    ensures forall x: Slot :: x in r <==> x.t < n && x.i < NPTENTRIES
  {
    set t, i | 0 <= t < n && 0 <= i < NPTENTRIES :: Slot(t, i)
  }

  predicate IsPresent(vm: Vm, x: Slot)
    requires Shape(vm)
  {
    && x.t < |vm.mem| && x.i < NPTENTRIES
    && vm.kind[x.t].Table? && P in vm.mem[x.t][x.i].bits
  }

  /** The present user page-table words that name frame f. */
  function Refs(vm: Vm, f: nat): (r: set<Slot>)
    requires Shape(vm)
    ensures forall x: Slot :: x in r <==> IsPresent(vm, x) && vm.mem[x.t][x.i].frame == f
  {
    set x | x in AllSlots(|vm.mem|) && IsPresent(vm, x) && vm.mem[x.t][x.i].frame == f
  }

  /** Mapped frames are user pages, and pp_ref counts what names the frame. */
  ghost predicate Counted(vm: Vm)
    requires Shape(vm)
  {
    && (forall x: Slot | IsPresent(vm, x) ::
          vm.mem[x.t][x.i].frame < |vm.mem| && vm.kind[vm.mem[x.t][x.i].frame] == User)
    && (forall f | 0 <= f < |vm.mem| :: CountOk(vm, f))
  }

  predicate CountOk(vm: Vm, f: nat)
    requires Shape(vm) && f < |vm.mem|
  {
    match vm.kind[f]
    case Free => vm.ref[f] == 0
    case Held => vm.ref[f] == 0
    case Fixed => vm.ref[f] >= 1
    case KTable(_) => vm.ref[f] == 1
    case Dir(_) => vm.ref[f] == 1
    case Table(_, _) => vm.ref[f] == 1
    case User => vm.ref[f] == |Refs(vm, f)| && vm.ref[f] >= 1
  }

  predicate NoDup(s: seq<nat>) {
    forall i, j | 0 <= i < j < |s| :: s[i] != s[j]
  }

  predicate FreeOk(vm: Vm)
    requires Shape(vm)
  {
    && NoDup(vm.free)
    && (forall i | 0 <= i < |vm.free| :: vm.free[i] < |vm.mem| && vm.kind[vm.free[i]] == Free)
    && (forall f | 0 <= f < |vm.mem| && vm.kind[f] == Free :: f in vm.free)
  }

  ghost predicate Inv(vm: Vm) {
    Shape(vm) && Owned(vm) && KernelShared(vm) && Counted(vm) && FreeOk(vm)
  }

  // ---------------------------------------------------------------- the abstract address space

  predicate Mapped(vm: Vm, s: nat, v: nat)
    requires Shape(vm)
  {
    && v < UTOP_PAGES
    && HasTable(vm, s, v / NPTENTRIES)
    && P in vm.mem[Pde(vm, s, v / NPTENTRIES).frame][v % NPTENTRIES].bits
  }

  function Entry(vm: Vm, s: nat, v: nat): Word
    requires Shape(vm) && Mapped(vm, s, v)
  {
    vm.mem[Pde(vm, s, v / NPTENTRIES).frame][v % NPTENTRIES]
  }

  /** The finite map from virtual page to page-table word that slot s's tables stand for. */
  function Space(vm: Vm, s: nat): (m: map<nat, Word>)
    requires Shape(vm)
    ensures forall v :: v in m <==> Mapped(vm, s, v)
    ensures forall v | v in m :: m[v] == Entry(vm, s, v)
  {
    map v | 0 <= v < UTOP_PAGES && Mapped(vm, s, v) :: Entry(vm, s, v)
  }

  // ---------------------------------------------------------------- single steps

  function Put(vm: Vm, t: nat, i: nat, w: Word): Vm
    requires Shape(vm) && t < |vm.mem| && i < NPTENTRIES
  {
    vm.(mem := vm.mem[t := vm.mem[t][i := w]])
  }

  /** Frame pp becomes mapped by word i of table t. */
  function Link(vm: Vm, t: nat, i: nat, pp: nat, bits: Bits): Vm
    requires Shape(vm) && t < |vm.mem| && i < NPTENTRIES && pp < |vm.mem|
  {
    Put(vm, t, i, Word(pp, bits)).(ref := vm.ref[pp := vm.ref[pp] + 1], kind := vm.kind[pp := User])
  }

  /** Word i of table t stops naming its frame, which is freed with its last reference. */
  function Unlink(vm: Vm, t: nat, i: nat): Vm
    requires Shape(vm) && t < |vm.mem| && i < NPTENTRIES
    requires vm.mem[t][i].frame < |vm.mem| && vm.ref[vm.mem[t][i].frame] >= 1
  {
    Drop(Put(vm, t, i, ZERO), vm.mem[t][i].frame)
  }

  /** page_decref. */
  function Drop(vm: Vm, f: nat): Vm
    requires Shape(vm) && f < |vm.mem| && vm.ref[f] >= 1
  {
    var vm1 := vm.(ref := vm.ref[f := vm.ref[f] - 1]);
    if vm.ref[f] == 1 then vm1.(kind := vm.kind[f := Free], free := [f] + vm.free) else vm1
  }

  /** page_alloc took the head of the free list. */
  function Take(vm: Vm, zero: bool): Vm
    requires Shape(vm) && vm.free != [] && vm.free[0] < |vm.mem|
  {
    vm.(kind := vm.kind[vm.free[0] := Held], free := vm.free[1..],
        mem := if zero then vm.mem[vm.free[0] := ZeroFrame()] else vm.mem)
  }
}
