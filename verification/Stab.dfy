/** kern/kdebug.c: binary search over a table in which entries of several types are interleaved
    and only those of one type need be sorted. */
module Stab {
  const TWO32 := 0x1_0000_0000

  datatype Entry = Entry(ntype: int, value: nat)

  /** The last entry of the wanted type in l..m, or l - 1. */
  function Last(stabs: seq<Entry>, ntype: int, l: nat, m: int): (k: int)
    requires -1 <= m < |stabs| && l <= m + 1
    ensures l - 1 <= k <= m
    ensures k >= l ==> stabs[k].ntype == ntype
    ensures forall i | k < i <= m :: stabs[i].ntype != ntype
    decreases m + 1 - l
  {
    if m < l || stabs[m].ntype == ntype then m else Last(stabs, ntype, l, m - 1)
  }

  /** The state of the search: the bounds still open, *region_left, *region_right, the address,
      which an exact match moves on by one, and whether any entry of the type was seen. */
  datatype Search = Search(l: nat, r: int, left: int, right: int, addr: nat, any: bool)

  predicate Ok(stabs: seq<Entry>, s: Search) {
    -1 <= s.r < |stabs| && s.l <= s.r + 1 && 0 <= s.left && -1 <= s.right < |stabs|
  }

  /** The entry that the next turn compares with, or l - 1. */
  function Probe(stabs: seq<Entry>, ntype: int, s: Search): int
    requires Ok(stabs, s) && s.l <= s.r
  {
    Last(stabs, ntype, s.l, (s.l + s.r) / 2)
  }

  function Turn(stabs: seq<Entry>, ntype: int, s: Search): (t: Search)
    requires Ok(stabs, s) && s.l <= s.r
    ensures Ok(stabs, t)
  {
    var mid, m := (s.l + s.r) / 2, Probe(stabs, ntype, s);
    if m < s.l then s.(l := mid + 1)
    else if stabs[m].value < s.addr then s.(l := mid + 1, left := m, any := true)
    else if stabs[m].value > s.addr then s.(r := m - 1, right := m - 1, any := true)
    else s.(l := m, left := m, addr := (s.addr + 1) % TWO32, any := true)
  }

  /** Is the next turn an exact match? */
  predicate Matches(stabs: seq<Entry>, ntype: int, s: Search)
    requires Ok(stabs, s)
  {
    s.l <= s.r && var m := Probe(stabs, ntype, s); m >= s.l && stabs[m].value == s.addr
  }

  /** The open interval shrinks, except that an exact match at its left end leaves it as it is;
      but then the next turn is no match. */
  function Measure(stabs: seq<Entry>, ntype: int, s: Search): nat
    requires Ok(stabs, s)
  {
    2 * (s.r + 1 - s.l) + if Matches(stabs, ntype, s) then 1 else 0
  }

  lemma TurnShrinks(stabs: seq<Entry>, ntype: int, s: Search)
    requires Ok(stabs, s) && s.l <= s.r && s.addr < TWO32
    ensures Measure(stabs, ntype, Turn(stabs, ntype, s)) < Measure(stabs, ntype, s)
    ensures Turn(stabs, ntype, s).addr < TWO32
  {
    var t, m := Turn(stabs, ntype, s), Probe(stabs, ntype, s);
    if Matches(stabs, ntype, s) && m == s.l {
      assert Probe(stabs, ntype, t) == m;
    }
  }

  /** The whole search, one turn after the other. */
  function Outcome(stabs: seq<Entry>, ntype: int, s: Search): (t: Search)
    requires Ok(stabs, s) && s.addr < TWO32
    ensures Ok(stabs, t) && t.l == t.r + 1
    decreases Measure(stabs, ntype, s)
  {
    if s.l > s.r then s else
      TurnShrinks(stabs, ntype, s);
      Outcome(stabs, ntype, Turn(stabs, ntype, s))
  }

  lemma OutcomeTurn(stabs: seq<Entry>, ntype: int, s: Search)
    requires Ok(stabs, s) && s.addr < TWO32 && s.l <= s.r
    ensures Turn(stabs, ntype, s).addr < TWO32
    ensures Measure(stabs, ntype, Turn(stabs, ntype, s)) < Measure(stabs, ntype, s)
    ensures Outcome(stabs, ntype, s) == Outcome(stabs, ntype, Turn(stabs, ntype, s))
  {
    TurnShrinks(stabs, ntype, s);
  }

  /** The inner loops: back to the last entry of the type. */
  method FindLast(stabs: seq<Entry>, ntype: int, l: nat, mid: int) returns (m: int)
    requires -1 <= mid < |stabs| && l <= mid + 1
    ensures m == Last(stabs, ntype, l, mid)
  {
    m := mid;
    while m >= l && stabs[m].ntype != ntype
      invariant l - 1 <= m <= mid && Last(stabs, ntype, l, m) == Last(stabs, ntype, l, mid)
    {
      m := m - 1;
    }
  }

  /** stab_binsearch. */
  method StabBinsearch(stabs: seq<Entry>, left0: nat, right0: int, ntype: int, addr0: nat)
      returns (left: int, right: int)
    requires left0 <= right0 + 1 && -1 <= right0 < |stabs| && addr0 < TWO32
    ensures var t := Outcome(stabs, ntype, Search(left0, right0, left0, right0, addr0, false));
            && right == (if t.any then t.right else left0 - 1)
            && left == (if !t.any then left0 else if t.right <= t.left then t.right else FinalLeft(stabs, ntype, t))
  {
    hide Outcome;
    hide Measure;
    hide Last;
    var l: nat, r: int, addr: nat, any := left0, right0, addr0, false;
    left, right := left0, right0;
    ghost var s0 := Search(left0, right0, left0, right0, addr0, false);
    while l <= r
      invariant Ok(stabs, Search(l, r, left, right, addr, any)) && addr < TWO32
      invariant Outcome(stabs, ntype, Search(l, r, left, right, addr, any)) == Outcome(stabs, ntype, s0)
      invariant !any ==> left == left0
      decreases Measure(stabs, ntype, Search(l, r, left, right, addr, any))
    {
      ghost var s := Search(l, r, left, right, addr, any);
      OutcomeTurn(stabs, ntype, s);
      var mid := (l + r) / 2;
      var m := FindLast(stabs, ntype, l, mid);
      if m < l {
        l := mid + 1;
      } else {
        any := true;
        if stabs[m].value < addr {
          left := m;
          l := mid + 1;
        } else if stabs[m].value > addr {
          right := m - 1;
          r := m - 1;
        } else {
          left := m;
          l := m;
          addr := (addr + 1) % TWO32;
        }
      }
      assert Search(l, r, left, right, addr, any) == Turn(stabs, ntype, s);
    }
    AtTheEnd(stabs, ntype, Search(l, r, left, right, addr, any));
    if !any {
      right := left - 1;
    } else if right <= left {
      left := right;
    } else {
      left := FindLast(stabs, ntype, left + 1, right);
    }
  }

  lemma AtTheEnd(stabs: seq<Entry>, ntype: int, s: Search)
    requires Ok(stabs, s) && s.addr < TWO32 && s.l > s.r
    ensures Outcome(stabs, ntype, s) == s
  {
  }

  /** Where the last loop stops: the last entry of the type after left, or left itself. */
  function FinalLeft(stabs: seq<Entry>, ntype: int, t: Search): int
    requires 0 <= t.left < t.right < |stabs|
  {
    Last(stabs, ntype, t.left + 1, t.right)
  }

  // ---------------------------------------------------------------- what the search finds

  predicate Wanted(stabs: seq<Entry>, ntype: int, lo: nat, hi: int, i: int) {
    lo <= i <= hi < |stabs| && stabs[i].ntype == ntype
  }

  ghost predicate Sorted(stabs: seq<Entry>, ntype: int, lo: nat, hi: int) {
    forall i, j | Wanted(stabs, ntype, lo, hi, i) && Wanted(stabs, ntype, lo, hi, j) && i < j ::
      stabs[i].value <= stabs[j].value
  }

  ghost predicate Present(stabs: seq<Entry>, ntype: int, lo: nat, hi: int, v: nat) {
    exists i | Wanted(stabs, ntype, lo, hi, i) :: stabs[i].value == v
  }

  /** What the search knows after some turns, a being the address asked for. */
  ghost predicate Knows(stabs: seq<Entry>, ntype: int, lo: nat, hi: int, a: nat, s: Search) {
    && Ok(stabs, s) && lo <= s.l && s.r <= hi < |stabs| && s.right == s.r
    && (s.addr == a || (s.addr == a + 1 && Present(stabs, ntype, lo, hi, a)))
    && (forall i | Wanted(stabs, ntype, lo, hi, i) && i < s.l :: stabs[i].value <= a)
    && (forall i | Wanted(stabs, ntype, lo, hi, i) && i > s.r :: stabs[i].value > a)
    && (s.r == hi || Wanted(stabs, ntype, lo, hi, s.r + 1))
    && (s.left == lo || (Wanted(stabs, ntype, lo, hi, s.left) && stabs[s.left].value <= a))
    && (!s.any ==> s.left == lo && s.r == hi && forall i | Wanted(stabs, ntype, lo, hi, i) :: i >= s.l)
    && (s.any ==> exists i :: Wanted(stabs, ntype, lo, hi, i))
  }

  lemma TurnKnows(stabs: seq<Entry>, ntype: int, lo: nat, hi: int, a: nat, s: Search)
    requires Knows(stabs, ntype, lo, hi, a, s) && s.l <= s.r && a + 1 < TWO32 && Sorted(stabs, ntype, lo, hi)
    requires !(Present(stabs, ntype, lo, hi, a) && Present(stabs, ntype, lo, hi, a + 1))
    ensures Knows(stabs, ntype, lo, hi, a, Turn(stabs, ntype, s))
  {
    hide Last;
    hide Present;
    var m := Probe(stabs, ntype, s);
    if m >= s.l {
      IsPresent(stabs, ntype, lo, hi, m);
      HitKnows(stabs, ntype, lo, hi, a, s, m);
    } else {
      var t := Turn(stabs, ntype, s);
      forall i | Wanted(stabs, ntype, lo, hi, i) && i < t.l ensures i < s.l {}
    }
  }

  lemma IsPresent(stabs: seq<Entry>, ntype: int, lo: nat, hi: int, m: int)
    requires Wanted(stabs, ntype, lo, hi, m)
    ensures Present(stabs, ntype, lo, hi, stabs[m].value)
  {
  }

  /** A turn that compares with an entry above the address. */
  lemma AboveKnows(stabs: seq<Entry>, ntype: int, lo: nat, hi: int, a: nat, s: Search, m: int)
    requires Knows(stabs, ntype, lo, hi, a, s) && s.l <= s.r && Sorted(stabs, ntype, lo, hi)
    requires s.l <= m <= s.r && Wanted(stabs, ntype, lo, hi, m) && stabs[m].value > s.addr
    ensures Knows(stabs, ntype, lo, hi, a, s.(r := m - 1, right := m - 1, any := true))
  {
    hide Present;
    forall i | Wanted(stabs, ntype, lo, hi, i) && i > m - 1 ensures stabs[i].value > a {}
  }

  /** A turn that compares with an entry at or below the address. */
  lemma BelowKnows(stabs: seq<Entry>, ntype: int, lo: nat, hi: int, a: nat, s: Search, m: int, l: nat, addr: nat)
    requires Knows(stabs, ntype, lo, hi, a, s) && s.l <= s.r && Sorted(stabs, ntype, lo, hi)
    requires s.l <= m <= s.r && Wanted(stabs, ntype, lo, hi, m) && stabs[m].value <= a
    requires m <= l <= s.r + 1 && forall i | m < i < l :: stabs[i].ntype != ntype
    requires addr == a || (addr == a + 1 && Present(stabs, ntype, lo, hi, a))
    ensures Knows(stabs, ntype, lo, hi, a, s.(l := l, left := m, addr := addr, any := true))
  {
    hide Present;
    forall i | Wanted(stabs, ntype, lo, hi, i) && i < l ensures stabs[i].value <= a {}
  }

  /** A turn that compares with an entry. */
  lemma HitKnows(stabs: seq<Entry>, ntype: int, lo: nat, hi: int, a: nat, s: Search, m: int)
    requires Knows(stabs, ntype, lo, hi, a, s) && s.l <= s.r && a + 1 < TWO32 && Sorted(stabs, ntype, lo, hi)
    requires m == Probe(stabs, ntype, s) >= s.l && Present(stabs, ntype, lo, hi, stabs[m].value)
    requires !(Present(stabs, ntype, lo, hi, a) && Present(stabs, ntype, lo, hi, a + 1))
    ensures Knows(stabs, ntype, lo, hi, a, Turn(stabs, ntype, s))
  {
    hide Last;
    hide Present;
    hide Sorted;
    var t := Turn(stabs, ntype, s);
    if stabs[m].value > s.addr {
      AboveKnows(stabs, ntype, lo, hi, a, s, m);
    } else {
      assert stabs[m].value <= a;
      BelowKnows(stabs, ntype, lo, hi, a, s, m, t.l, t.addr);
    }
  }

  lemma {:induction false} OutcomeKnows(stabs: seq<Entry>, ntype: int, lo: nat, hi: int, a: nat, s: Search)
    requires Knows(stabs, ntype, lo, hi, a, s) && a + 1 < TWO32 && Sorted(stabs, ntype, lo, hi) && s.addr < TWO32
    requires !(Present(stabs, ntype, lo, hi, a) && Present(stabs, ntype, lo, hi, a + 1))
    ensures Knows(stabs, ntype, lo, hi, a, Outcome(stabs, ntype, s))
    decreases Measure(stabs, ntype, s)
  {
    if s.l <= s.r {
      TurnKnows(stabs, ntype, lo, hi, a, s);
      OutcomeTurn(stabs, ntype, s);
      OutcomeKnows(stabs, ntype, lo, hi, a, Turn(stabs, ntype, s));
    }
  }

  /** left is the last entry of the type at or below the address, and right the index just before
      the next entry of the type, or the old right bound. */
  ghost predicate IsAnswer(stabs: seq<Entry>, ntype: int, lo: nat, hi: int, a: nat, left: int, right: int) {
    && Wanted(stabs, ntype, lo, hi, left) && stabs[left].value <= a && left <= right <= hi
    && (forall i | Wanted(stabs, ntype, lo, hi, i) && i > left :: stabs[i].value > a && i > right)
    && (right == hi || Wanted(stabs, ntype, lo, hi, right + 1))
  }

  /** The search finds what it promises, when the entries of the type are sorted, one of them is
      at or below the address, and the address and its successor do not both occur. */
  lemma FindsTheEntry(stabs: seq<Entry>, ntype: int, lo: nat, hi: int, a: nat, t: Search)
    requires lo <= hi < |stabs| && a + 1 < TWO32 && Sorted(stabs, ntype, lo, hi)
    requires !(Present(stabs, ntype, lo, hi, a) && Present(stabs, ntype, lo, hi, a + 1))
    requires exists i | Wanted(stabs, ntype, lo, hi, i) :: stabs[i].value <= a
    requires t == Outcome(stabs, ntype, Search(lo, hi, lo, hi, a, false))
    ensures t.any
    ensures IsAnswer(stabs, ntype, lo, hi, a,
                     if t.right <= t.left then t.right else FinalLeft(stabs, ntype, t), t.right)
  {
    OutcomeKnows(stabs, ntype, lo, hi, a, Search(lo, hi, lo, hi, a, false));
    var g :| Wanted(stabs, ntype, lo, hi, g) && stabs[g].value <= a;
    hide Outcome;
    hide Sorted;
    AnswerKnown(stabs, ntype, lo, hi, a, t, g);
  }

  lemma AnswerKnown(stabs: seq<Entry>, ntype: int, lo: nat, hi: int, a: nat, t: Search, g: int)
    requires Knows(stabs, ntype, lo, hi, a, t) && t.l == t.r + 1 && Wanted(stabs, ntype, lo, hi, g)
    requires stabs[g].value <= a
    ensures t.any && (t.left < t.right ==> 0 <= t.left < t.right < |stabs|)
    ensures IsAnswer(stabs, ntype, lo, hi, a,
                     if t.right <= t.left then t.right else FinalLeft(stabs, ntype, t), t.right)
  {
    hide Last;
    hide Present;
    assert g <= t.r && t.any && t.left <= t.r;
    if t.left < t.right {
      var k := FinalLeft(stabs, ntype, t);
      assert k >= g;
      assert Wanted(stabs, ntype, lo, hi, k);
    } else {
      assert t.left == t.r;
      assert g <= t.left;
    }
  }

  /** Without an entry of the type, and only then, the bounds come back crossed.  An address below
      all entries of the type is not reported that way. */
  lemma CrossedIff(stabs: seq<Entry>, ntype: int, lo: nat, hi: int, a: nat, t: Search)
    requires lo <= hi < |stabs| && a + 1 < TWO32 && Sorted(stabs, ntype, lo, hi)
    requires !(Present(stabs, ntype, lo, hi, a) && Present(stabs, ntype, lo, hi, a + 1))
    requires t == Outcome(stabs, ntype, Search(lo, hi, lo, hi, a, false))
    ensures var right := if t.any then t.right else lo - 1;
            var left := if !t.any then lo else if t.right <= t.left then t.right else FinalLeft(stabs, ntype, t);
            left > right <==> forall i :: !Wanted(stabs, ntype, lo, hi, i)
  {
    OutcomeKnows(stabs, ntype, lo, hi, a, Search(lo, hi, lo, hi, a, false));
  }

  /** If both occur the search can overshoot: asked for 5 in a table of 5 and 6, it answers 6. */
  lemma Overshoots()
    ensures var stabs, t0 := [Entry(1, 5), Entry(1, 6)], Search(0, 1, 0, 1, 5, false);
            var t := Outcome(stabs, 1, t0);
            t.any && t.right == t.left == 1
  {
    hide Outcome;
    hide Turn;
    var stabs := [Entry(1, 5), Entry(1, 6)];
    var s0, s1, s2 := Search(0, 1, 0, 1, 5, false), Search(0, 1, 0, 1, 6, true), Search(1, 1, 0, 1, 6, true);
    var s3, s4 := Search(1, 1, 1, 1, 7, true), Search(2, 1, 1, 1, 7, true);
    TurnAtMid(stabs, 1, s0);
    TurnAtMid(stabs, 1, s1);
    TurnAtMid(stabs, 1, s2);
    TurnAtMid(stabs, 1, s3);
    AtTheEnd(stabs, 1, s4);
  }

  /** A turn whose middle entry is of the wanted type. */
  lemma TurnAtMid(stabs: seq<Entry>, ntype: int, s: Search)
    requires Ok(stabs, s) && s.l <= s.r && s.addr + 1 < TWO32 && stabs[(s.l + s.r) / 2].ntype == ntype
    ensures var m := (s.l + s.r) / 2;
            var t := if stabs[m].value < s.addr then s.(l := m + 1, left := m, any := true)
                     else if stabs[m].value > s.addr then s.(r := m - 1, right := m - 1, any := true)
                     else s.(l := m, left := m, addr := s.addr + 1, any := true);
            Ok(stabs, t) && t.addr < TWO32 && Outcome(stabs, ntype, s) == Outcome(stabs, ntype, t)
  {
    hide Outcome;
    OutcomeTurn(stabs, ntype, s);
  }
}
