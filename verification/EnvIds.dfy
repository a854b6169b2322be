/** Environment identifiers (kern/env.c:env_alloc, inc/env.h): 31 bits, the low ten of which
    are the slot.  The arithmetic is on a signed 32-bit integer. */
module EnvIds {
  import opened Mmu

  const INT_LIMIT := 0x8000_0000

  /** 1 << ENVGENSHIFT. */
  const GEN_STEP := 4096

  /** Number of generations before the identifiers of a slot repeat. */
  const PERIOD := 524287

  function Envx(id: int): (s: nat)
    ensures s < NENV
  {
    id % NENV
  }

  /** Two's-complement wrap-around of a 32-bit sum. */
  function Wrap32(x: int): int {
    (x + INT_LIMIT) % (2 * INT_LIMIT) - INT_LIMIT
  }

  /** The identifier env_alloc gives slot s when its previous identifier was `last`. */
  function NextId(last: int, s: nat): int
    requires s < NENV
  {
    var sum := Wrap32(last + GEN_STEP);
    var generation := sum - sum % NENV;
    (if generation <= 0 then GEN_STEP else generation) + s
  }

  /** The identifier of slot s after k allocations of it; env_init starts at 0. */
  function IdAfter(s: nat, k: nat): int
    requires s < NENV
  {
    if k == 0 then 0 else NextId(IdAfter(s, k - 1), s)
  }

  /** One allocation moves to the next generation, and from the last one to the first. */
  lemma NextGeneration(g: nat, s: nat)
    requires s < NENV && 1 <= g <= PERIOD
    ensures NextId(GEN_STEP * g + s, s) == GEN_STEP * (if g < PERIOD then g + 1 else 1) + s
  {
    var x := GEN_STEP * (g + 1) + s;
    if g < PERIOD {
      assert Wrap32(x) == x;
      assert x % NENV == s;
    } else {
      assert Wrap32(x) == -INT_LIMIT + s;
    }
  }

  /** Identifiers are positive, fit in 31 bits, carry their slot, and walk through all 524287
      generations in order before starting again. */
  lemma {:induction false} IdClosedForm(s: nat, k: nat)
    requires s < NENV && k >= 1
    ensures IdAfter(s, k) == GEN_STEP * ((k - 1) % PERIOD + 1) + s
    ensures 0 < IdAfter(s, k) < INT_LIMIT && Envx(IdAfter(s, k)) == s
  {
    if k == 1 {
      assert NextId(0, s) == GEN_STEP + s;
      IdShape(1, s);
    } else {
      IdClosedForm(s, k - 1);
      var g := (k - 2) % PERIOD + 1;
      NextGeneration(g, s);
      NextPhase(k);
      IdShape((k - 1) % PERIOD + 1, s);
    }
  }

  lemma IdShape(g: nat, s: nat)
    requires s < NENV && 1 <= g <= PERIOD
    ensures 0 < GEN_STEP * g + s < INT_LIMIT && Envx(GEN_STEP * g + s) == s
  {
    var x, q := GEN_STEP * g + s, 4 * g;
    assert NENV * (x / NENV - q) == s - x % NENV;
  }

  lemma NextPhase(k: nat)
    requires k >= 2
    ensures (k - 1) % PERIOD == if (k - 2) % PERIOD + 1 < PERIOD then (k - 2) % PERIOD + 1 else 0
  {
  }

  /** A stale identifier names a later occupant only after a multiple of 524287 allocations
      of the slot, and identifiers of different slots never collide. */
  lemma IdsRepeatOnlyAfterPeriod(s: nat, j: nat, t: nat, k: nat)
    requires s < NENV && t < NENV && 1 <= j && 1 <= k
    ensures IdAfter(s, j) == IdAfter(t, k) <==> s == t && j % PERIOD == k % PERIOD
  {
    IdClosedForm(s, j);
    IdClosedForm(t, k);
    SamePhase(j, k);
  }

  lemma SamePhase(j: nat, k: nat)
    requires 1 <= j && 1 <= k
    ensures (j - 1) % PERIOD == (k - 1) % PERIOD <==> j % PERIOD == k % PERIOD
  {
  }
}
