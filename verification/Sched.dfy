/** kern/sched.c: the round-robin scan of sched_yield. */
module Sched {
  import opened Mmu
  import opened EnvStatus

  /** The slot that the scan looks at after j others, when `cur` is current (-1 is NULL).  The
      first index is not reduced modulo NENV. */
  function Scanned(cur: int, j: nat): (i: nat)
    requires -1 <= cur < NENV
    ensures i <= NENV
  {
    if j == 0 then cur + 1 else (cur + 1 + j) % NENV
  }

  lemma ScannedFirst(cur: int)
    requires -1 <= cur < NENV
    ensures Scanned(cur, 0) == cur + 1
  {
  }

  lemma ScannedNext(cur: int, j: nat)
    requires -1 <= cur < NENV
    ensures Scanned(cur, j + 1) == (Scanned(cur, j) + 1) % NENV < NENV
  {
  }

  /** What the scan reads at index i: beyond the table it reads whatever is stored there. */
  predicate Runnable(status: seq<Status>, beyond: bool, i: nat)
    requires |status| == NENV && i <= NENV
  {
    if i == NENV then beyond else status[i] == RUNNABLE
  }

  /** sched_yield's loop: the first runnable slot in scan order, or -1. */
  method Scan(status: seq<Status>, beyond: bool, cur: int) returns (p: int)
    requires |status| == NENV && -1 <= cur < NENV
    ensures -1 <= p <= NENV
    ensures p == -1 <==> forall j | 0 <= j < NENV :: !Runnable(status, beyond, Scanned(cur, j))
    ensures p >= 0 ==> IsFirst(status, beyond, cur, p)
  {
    hide Scanned;
    ScannedFirst(cur);
    var i := if cur != -1 then cur + 1 else 0;
    var j := 0;
    while j != NENV
      invariant 0 <= j <= NENV && i == Scanned(cur, j) <= NENV
      invariant forall k | 0 <= k < j :: !Runnable(status, beyond, Scanned(cur, k))
    {
      ScannedNext(cur, j);
      if (if i == NENV then beyond else status[i] == RUNNABLE) {
        return i;
      }
      j, i := j + 1, (i + 1) % NENV;
    }
    p := -1;
  }

  /** Slot p is runnable and no slot scanned before it is. */
  ghost predicate IsFirst(status: seq<Status>, beyond: bool, cur: int, p: int)
    requires |status| == NENV && -1 <= cur < NENV
  {
    exists j | 0 <= j < NENV ::
      && p == Scanned(cur, j) && Runnable(status, beyond, Scanned(cur, j))
      && forall k | 0 <= k < j :: !Runnable(status, beyond, Scanned(cur, k))
  }

  // ---------------------------------------------------------------- one CPU over many yields

  /** What sched_yield finds on one CPU: the table, the current slot, and whether the word behind
      the table reads as runnable. */
  datatype Config = Config(status: seq<Status>, cur: int, beyond: bool)

  predicate ConfigOk(x: Config) {
    |x.status| == NENV && -1 <= x.cur < NENV
  }

  /** The next environment on the CPU: the first in scan order, else the current one if it may go
      on, else none. */
  ghost predicate Yields(x: Config, next: int)
    requires ConfigOk(x)
  {
    if forall j | 0 <= j < NENV :: !Runnable(x.status, x.beyond, Scanned(x.cur, j))
    then next == if x.cur >= 0 && x.status[x.cur] == RUNNING then x.cur else -1
    else IsFirst(x.status, x.beyond, x.cur, next)
  }

  /** sched_yield: the environment it runs next, or -1 when it halts the CPU. */
  method SchedYield(x: Config) returns (next: int)
    requires ConfigOk(x)
    ensures Yields(x, next)
    ensures next == -1 <==>
              && (forall j | 0 <= j < NENV :: !Runnable(x.status, x.beyond, Scanned(x.cur, j)))
              && !(x.cur >= 0 && x.status[x.cur] == RUNNING)
    ensures (forall j | 0 <= j < NENV :: !Runnable(x.status, x.beyond, Scanned(x.cur, j))) && next != -1 ==>
              next == x.cur
    ensures 0 <= next < NENV ==> x.status[next] == RUNNABLE || (next == x.cur && x.status[next] == RUNNING)
  {
    next := Scan(x.status, x.beyond, x.cur);
    if next == -1 && x.cur >= 0 && x.status[x.cur] == RUNNING {
      next := x.cur;
    }
  }

  /** How many slots the scan passes before it reaches t. */
  function Distance(cur: int, t: nat): nat
    requires -1 <= cur < NENV && t < NENV
  {
    (t - cur - 1 + NENV) % NENV
  }

  lemma ScannedAt(cur: int, t: nat)
    requires -1 <= cur < NENV && t < NENV && (cur == NENV - 1 ==> t > 0)
    ensures Scanned(cur, Distance(cur, t)) == t
  {
    var d := t - cur - 1;
    if d >= 0 {
      assert (d + NENV) % NENV == d;
    } else {
      assert (d + NENV) % NENV == d + NENV;
      assert (t + NENV) % NENV == t;
    }
  }

  /** A yield that passes over t gets strictly closer to it. */
  lemma Closer(x: Config, t: nat, next: int)
    requires ConfigOk(x) && t < NENV && t != x.cur && x.status[t] == RUNNABLE && Yields(x, next)
    requires x.cur == NENV - 1 ==> t > 0 && !x.beyond
    ensures 0 <= next < NENV && (next == t || Distance(next, t) < Distance(x.cur, t))
  {
    ScannedAt(x.cur, t);
    var d := Distance(x.cur, t);
    assert Runnable(x.status, x.beyond, Scanned(x.cur, d));
    var j :| 0 <= j < NENV && next == Scanned(x.cur, j) && Runnable(x.status, x.beyond, Scanned(x.cur, j))
      && forall k | 0 <= k < j :: !Runnable(x.status, x.beyond, Scanned(x.cur, k));
    assert j <= d;
    DistanceShrinks(x.cur, t, j);
  }

  lemma DistanceShrinks(cur: int, t: nat, j: nat)
    requires -1 <= cur < NENV && t < NENV && j <= Distance(cur, t) && (cur == NENV - 1 ==> j > 0)
    ensures Scanned(cur, j) < NENV
    ensures Scanned(cur, j) == t || Distance(Scanned(cur, j), t) == Distance(cur, t) - j - 1
  {
    ScannedAt(cur, t);
    var n, d := Scanned(cur, j), Distance(cur, t);
    if cur + 1 + j < NENV {
      assert n == cur + 1 + j;
    } else {
      assert n == cur + 1 + j - NENV;
    }
  }

  /** The states at consecutive yields of one CPU: the environment chosen at one is current at
      the next, and is not destroyed in between. */
  ghost predicate IsRun(run: seq<Config>) {
    && (forall k | 0 <= k < |run| :: ConfigOk(run[k]))
    && (forall k | 0 <= k < |run| - 1 :: Yields(run[k], run[k + 1].cur))
  }

  /** Round robin: an environment that stays runnable is chosen within NENV - 1 yields, or NENV if
      the CPU had no environment at first; the one in slot 0, provided that the last slot is never
      current; and any other, provided that the word behind the table does not read as runnable when
      the last slot is current. */
  lemma {:induction false} ChosenSoon(run: seq<Config>, t: nat) returns (k: nat)
    requires IsRun(run) && t < NENV && run != [] && run[0].cur != t && |run| > Distance(run[0].cur, t) + 1
    requires forall i | 0 <= i < |run| - 1 && run[i].cur != t :: run[i].status[t] == RUNNABLE
    requires forall i | 0 <= i < |run| - 1 && run[i].cur == NENV - 1 :: t > 0 && !run[i].beyond
    ensures 0 < k <= Distance(run[0].cur, t) + 1 <= NENV && run[k].cur == t
    ensures run[0].cur >= 0 ==> k <= NENV - 1
    decreases |run|
  {
    assert Yields(run[0], run[1].cur);
    Closer(run[0], t, run[1].cur);
    assert run[0].cur >= 0 ==> Distance(run[0].cur, t) <= NENV - 2;
    if run[1].cur == t {
      k := 1;
    } else {
      var rest := run[1..];
      assert forall i | 0 <= i < |rest| :: rest[i] == run[i + 1];
      forall i | 0 <= i < |rest| - 1 ensures Yields(rest[i], rest[i + 1].cur) {
        assert Yields(run[i + 1], run[i + 2].cur);
      }
      var m := ChosenSoon(rest, t);
      k := m + 1;
    }
  }

  /** With the last slot current and the word behind the table reading as runnable, the scan ends
      there, outside the table, whatever is runnable. */
  lemma BeyondChosen(x: Config, next: int)
    requires ConfigOk(x) && x.cur == NENV - 1 && x.beyond
    ensures Yields(x, next) <==> next == NENV
  {
    assert Runnable(x.status, x.beyond, Scanned(x.cur, 0));
  }

  /** With the last slot current the scan never looks at slot 0, ... */
  lemma SlotZeroSkipped(j: nat)
    requires j < NENV
    ensures Scanned(NENV - 1, j) != 0
  {
    if j > 0 {
      assert (NENV + j) % NENV == j;
    }
  }

  /** ... so a runnable slot 0 can be passed over any number of times. */
  lemma Starved(n: nat) returns (run: seq<Config>)
    ensures IsRun(run) && |run| == n
    ensures forall k | 0 <= k < n :: run[k].status[0] == RUNNABLE && run[k].cur == NENV - 1
  {
    var status := seq(NENV, i => if i == 0 then RUNNABLE else if i == NENV - 1 then RUNNING else FREE);
    var x := Config(status, NENV - 1, false);
    forall j | 0 <= j < NENV ensures !Runnable(x.status, x.beyond, Scanned(x.cur, j)) {
      SlotZeroSkipped(j);
    }
    run := seq(n, _ => x);
  }
}
