/** lib/malloc.c as a value: the allocator's pages, its bump pointer and the live chunks.
    Addresses count 4-byte words from mbegin: malloc rounds every size up to whole words. */
module HeapSpec {
  import opened Sets

  /** Words per page, pages from mbegin to mend, and MAXMALLOC in words. */
  const PGWORDS := 1024
  const NPAGES := 0x8000
  const SPAN := NPAGES * PGWORDS
  const MAXWORDS := 262144

  /** A page of the area: unmapped, or mapped with PTE_CONTINUED or with a reference count in its
      last word. */
  datatype Page = Hole | Continued | Counted(ref: nat)

  /** A chunk that malloc has returned and nobody has freed. */
  datatype Chunk = Chunk(id: nat, v: nat, n: nat)

  /** `leaked` counts, per page, the references that nothing will ever drop. */
  datatype Heap = Heap(mptr: nat, pages: seq<Page>, live: set<Chunk>, leaked: seq<nat>)

  function FirstPage(c: Chunk): nat {
    c.v / PGWORDS
  }

  /** The page that holds the chunk's reference count. */
  function EndPage(c: Chunk): nat {
    (c.v + c.n) / PGWORDS
  }

  /** The live chunks that end in page p. */
  function Ending(h: Heap, p: nat): set<Chunk> {
    set c | c in h.live && EndPage(c) == p
  }

  /** Does the bump pointer hold a reference to page p? */
  predicate MptrIn(h: Heap, p: nat) {
    h.mptr % PGWORDS != 0 && h.mptr / PGWORDS == p
  }

  /** A chunk lies in mapped pages below the reference count; one that needs several starts at a
      page. */
  predicate ChunkOk(h: Heap, c: Chunk) {
    && c.n < MAXWORDS && FirstPage(c) <= EndPage(c) < |h.pages|
    && (FirstPage(c) < EndPage(c) ==> c.v % PGWORDS == 0)
    && (forall p | FirstPage(c) <= p < EndPage(c) :: h.pages[p] == Continued)
    && h.pages[EndPage(c)].Counted?
  }

  predicate Apart(c: Chunk, d: Chunk) {
    c.v + c.n <= d.v || d.v + d.n <= c.v
  }

  predicate Covers(c: Chunk, p: nat) {
    FirstPage(c) <= p < EndPage(c)
  }

  /** A count is the number of live chunks that end in the page, plus one for the bump pointer,
      plus what has been leaked; every other mapped page belongs to a live chunk. */
  ghost predicate PageOk(h: Heap, p: nat)
    requires p < |h.pages| == |h.leaked|
  {
    match h.pages[p]
    case Hole => h.leaked[p] == 0
    case Continued => h.leaked[p] == 0 && exists c :: c in h.live && Covers(c, p)
    case Counted(ref) => ref > 0 && ref == |Ending(h, p)| + (if MptrIn(h, p) then 1 else 0) + h.leaked[p]
  }

  ghost predicate Inv(h: Heap) {
    && |h.pages| == |h.leaked| == NPAGES
    && (forall c | c in h.live :: ChunkOk(h, c))
    && (forall c, d | c in h.live && d in h.live && c != d :: Apart(c, d) && c.id != d.id)
    && (forall p | 0 <= p < NPAGES :: PageOk(h, p))
    && h.mptr < SPAN
    && (h.mptr % PGWORDS != 0 ==> h.pages[h.mptr / PGWORDS].Counted?)
    && (h.mptr % PGWORDS != 0 ==> forall c | c in h.live && EndPage(c) == h.mptr / PGWORDS :: c.v + c.n <= h.mptr)
  }

  /** A chunk that spans pages fills all of them but the last, and leaves the last one's count
      alone. */
  lemma FillsPages(c: Chunk)
    ensures EndPage(c) * PGWORDS <= c.v + c.n <= EndPage(c) * PGWORDS + PGWORDS - 1
  {
  }

  // ---------------------------------------------------------------- the next chunk on the same page

  predicate FitsHere(h: Heap, n: nat) {
    h.mptr % PGWORDS + n + 1 <= PGWORDS
  }

  function Bump(h: Heap, n: nat, id: nat): Heap
    requires h.mptr / PGWORDS < |h.pages| && h.pages[h.mptr / PGWORDS].Counted?
  {
    var p := h.mptr / PGWORDS;
    h.(mptr := h.mptr + n, pages := h.pages[p := Counted(h.pages[p].ref + 1)], live := h.live + {Chunk(id, h.mptr, n)})
  }

  predicate FreshId(h: Heap, id: nat) {
    forall c | c in h.live :: c.id != id
  }

  /** Adding to an address without leaving its page. */
  lemma SamePage(m: nat, n: nat)
    requires m % PGWORDS != 0 && m % PGWORDS + n + 1 <= PGWORDS
    ensures (m + n) / PGWORDS == m / PGWORDS && (m + n) % PGWORDS != 0
  {
    var p, o := m / PGWORDS, m % PGWORDS;
    DivMod(p, o + n);
    assert m + n == p * PGWORDS + (o + n);
  }

  lemma DivMod(q: nat, r: nat)
    requires r < PGWORDS
    ensures (q * PGWORDS + r) / PGWORDS == q && (q * PGWORDS + r) % PGWORDS == r
  {
  }

  lemma BelowSpan(m: nat)
    ensures m / PGWORDS < NPAGES <==> m < SPAN
  {
  }

  lemma BumpChunk(h: Heap, n: nat, id: nat, d: Chunk)
    requires Inv(h) && h.mptr % PGWORDS != 0 && FitsHere(h, n) && d in h.live && h.mptr / PGWORDS < NPAGES
    ensures Apart(Chunk(id, h.mptr, n), d) && ChunkOk(Bump(h, n, id), d)
  {
    var p := h.mptr / PGWORDS;
    assert ChunkOk(h, d);
    if EndPage(d) != p {
      NotHere(h, d, p);
      assert p * PGWORDS <= h.mptr && h.mptr + n <= (p + 1) * PGWORDS;
    }
  }

  lemma BumpPage(h: Heap, n: nat, id: nat, q: nat)
    requires Inv(h) && h.mptr % PGWORDS != 0 && FitsHere(h, n) && FreshId(h, id) && h.mptr / PGWORDS < NPAGES
    requires q < NPAGES
    ensures PageOk(Bump(h, n, id), q)
  {
    hide ChunkOk;
    hide Apart;
    hide Ending;
    hide Covers;
    var h', c := Bump(h, n, id), Chunk(id, h.mptr, n);
    SamePage(h.mptr, n);
    EndingAdds(h, h', c, q);
    assert PageOk(h, q);
    if h.pages[q].Continued? {
      var d :| d in h.live && Covers(d, q);
      assert d in h'.live;
    }
  }

  lemma EndingAdds(h: Heap, h': Heap, c: Chunk, q: nat)
    requires h'.live == h.live + {c} && FreshId(h, c.id)
    ensures |Ending(h', q)| == |Ending(h, q)| + if (c.v + c.n) / PGWORDS == q then 1 else 0
  {
    assert Ending(h', q) == Ending(h, q) + (if EndPage(c) == q then {c} else {});
  }

  lemma BumpInv(h: Heap, n: nat, id: nat)
    requires Inv(h) && h.mptr % PGWORDS != 0 && FitsHere(h, n) && n < MAXWORDS && FreshId(h, id)
    ensures h.mptr / PGWORDS < NPAGES && Inv(Bump(h, n, id))
  {
    BelowSpan(h.mptr);
    var h', c, p := Bump(h, n, id), Chunk(id, h.mptr, n), h.mptr / PGWORDS;
    SamePage(h.mptr, n);
    BelowSpan(h'.mptr);
    forall d | d in h.live ensures Apart(c, d) && ChunkOk(h', d) { BumpChunk(h, n, id, d); }
    forall q | 0 <= q < NPAGES ensures PageOk(h', q) { BumpPage(h, n, id, q); }
  }

  /** A chunk that does not end in a counted page has no byte in it. */
  lemma NotHere(h: Heap, d: Chunk, p: nat)
    requires ChunkOk(h, d) && p < |h.pages| && h.pages[p].Counted? && EndPage(d) != p
    ensures d.v + d.n <= p * PGWORDS || (p + 1) * PGWORDS <= d.v
  {
    FillsPages(d);
    assert !Covers(d, p);
    if p < FirstPage(d) {
      assert d.v >= FirstPage(d) * PGWORDS >= (p + 1) * PGWORDS;
    } else {
      assert EndPage(d) < p;
      assert d.v + d.n <= (EndPage(d) + 1) * PGWORDS <= p * PGWORDS;
    }
  }

  // ---------------------------------------------------------------- leaving a page

  function Dropped(x: Page): Page {
    if x.Counted? && x.ref > 1 then Counted(x.ref - 1) else Hole
  }

  /** The bump pointer gives up its page and moves to the next. */
  function MoveOn(h: Heap): Heap
    requires h.mptr / PGWORDS < |h.pages|
  {
    var p := h.mptr / PGWORDS;
    h.(mptr := (p + 1) * PGWORDS, pages := h.pages[p := Dropped(h.pages[p])])
  }

  lemma PageStart(p: nat)
    ensures (p * PGWORDS) % PGWORDS == 0 && (p * PGWORDS) / PGWORDS == p
  {
    DivMod(p, 0);
  }

  lemma MoveOnInv(h: Heap)
    requires Inv(h) && h.mptr % PGWORDS != 0 && (h.mptr / PGWORDS + 1) * PGWORDS < SPAN
    ensures Inv(MoveOn(h)) && MoveOn(h).mptr % PGWORDS == 0
  {
    var h', p := MoveOn(h), h.mptr / PGWORDS;
    BelowSpan(h.mptr);
    assert PageOk(h, p);
    PageStart(p + 1);
    if h.pages[p].ref == 1 {
      assert Ending(h, p) == {};
    }
    forall d | d in h.live ensures ChunkOk(h', d) {
      assert ChunkOk(h, d);
      assert h.pages[p].ref == 1 ==> d !in Ending(h, p);
    }
    forall q | 0 <= q < NPAGES ensures PageOk(h', q) {
      assert PageOk(h, q);
      assert Ending(h', q) == Ending(h, q);
    }
  }

  // ---------------------------------------------------------------- free

  /** The chunk's pages go, all but the last, which goes with its last reference. */
  function Release(h: Heap, c: Chunk): (h': Heap)
    requires EndPage(c) < |h.pages|
    ensures |h'.pages| == |h.pages|
  {
    h.(live := h.live - {c},
       pages := seq(|h.pages|, p requires 0 <= p < |h.pages| =>
         if Covers(c, p) then Hole else if p == EndPage(c) then Dropped(h.pages[p]) else h.pages[p]))
  }

  lemma OneCover(c: Chunk, d: Chunk, q: nat)
    requires Covers(c, q) && Covers(d, q)
    ensures !Apart(c, d)
  {
    FillsPages(c);
    FillsPages(d);
    assert c.v < (q + 1) * PGWORDS && d.v < (q + 1) * PGWORDS;
    assert c.v + c.n >= (q + 1) * PGWORDS && d.v + d.n >= (q + 1) * PGWORDS;
  }

  lemma ReleaseChunk(h: Heap, c: Chunk, d: Chunk)
    requires Inv(h) && c in h.live && d in h.live && d != c
    ensures EndPage(c) < |h.pages| && ChunkOk(Release(h, c), d)
  {
    assert ChunkOk(h, c) && ChunkOk(h, d) && Apart(c, d);
    forall q | Covers(c, q) ensures !Covers(d, q) {
      if Covers(d, q) { OneCover(c, d, q); }
    }
    var p := EndPage(c);
    assert PageOk(h, p);
    if EndPage(d) == p {
      assert {c, d} <= Ending(h, p);
      SubsetCount({c, d}, Ending(h, p));
      assert |{c, d}| == 2;
    }
  }

  lemma ReleasePage(h: Heap, c: Chunk, q: nat)
    requires Inv(h) && c in h.live && q < NPAGES
    ensures EndPage(c) < |h.pages| && PageOk(Release(h, c), q)
  {
    var h', p := Release(h, c), EndPage(c);
    assert ChunkOk(h, c) && PageOk(h, q);
    assert Ending(h', q) == Ending(h, q) - (if q == p then {c} else {});
    if q == p {
      assert c in Ending(h, q);
    } else if !Covers(c, q) && h.pages[q].Continued? {
      var d :| d in h.live && Covers(d, q);
      assert d in h'.live;
    }
  }

  lemma ReleaseInv(h: Heap, c: Chunk)
    requires Inv(h) && c in h.live
    ensures EndPage(c) < |h.pages| && Inv(Release(h, c))
  {
    assert ChunkOk(h, c);
    var h' := Release(h, c);
    forall d | d in h'.live ensures ChunkOk(h', d) { ReleaseChunk(h, c, d); }
    forall q | 0 <= q < NPAGES ensures PageOk(h', q) { ReleasePage(h, c, q); }
    if h.mptr % PGWORDS != 0 {
      var p := h.mptr / PGWORDS;
      assert PageOk(h, p) && PageOk(h', p);
      assert p == EndPage(c) ==> c in Ending(h, p);
    }
  }

  // ---------------------------------------------------------------- a chunk on new pages

  /** The pages that a chunk of n bytes and a count take. */
  function PagesFor(n: nat): nat {
    (n + 1 + PGWORDS - 1) / PGWORDS
  }

  predicate HolesAt(h: Heap, p: nat, k: nat) {
    p + k <= |h.pages| && forall q | p <= q < p + k :: h.pages[q] == Hole
  }

  function Place(h: Heap, n: nat, id: nat): (h': Heap)
    requires |h.leaked| == |h.pages|
    ensures |h'.pages| == |h'.leaked| == |h.pages|
  {
    var p, k := h.mptr / PGWORDS, PagesFor(n);
    h.(mptr := h.mptr + n, live := h.live + {Chunk(id, h.mptr, n)},
       pages := seq(|h.pages|, q requires 0 <= q < |h.pages| =>
         if p <= q < p + k - 1 then Continued else if q == p + k - 1 then Counted(2) else h.pages[q]),
       leaked := seq(|h.pages|, q requires 0 <= q < |h.pages| =>
         if q == p + k - 1 && n % PGWORDS == 0 then 1 else h.leaked[q]))
  }

  lemma PlaceAt(v: nat, n: nat, id: nat)
    requires v % PGWORDS == 0
    ensures var c, p, k := Chunk(id, v, n), v / PGWORDS, PagesFor(n);
            && k > 0 && FirstPage(c) == p && EndPage(c) == p + k - 1 && v + n < (p + k) * PGWORDS
            && (v + n) % PGWORDS == n % PGWORDS
  {
    var p, q, r := v / PGWORDS, n / PGWORDS, n % PGWORDS;
    DivMod(q + 1, r);
    DivMod(p + q, r);
    assert n + 1 + PGWORDS - 1 == (q + 1) * PGWORDS + r;
    assert v + n == (p + q) * PGWORDS + r;
  }

  /** A live chunk keeps clear of holes. */
  lemma ClearOfHoles(h: Heap, d: Chunk, p: nat, k: nat)
    requires ChunkOk(h, d) && HolesAt(h, p, k) && k > 0
    ensures EndPage(d) < p || p + k <= FirstPage(d)
  {
    var x, y := h.pages[p], h.pages[FirstPage(d)];
    assert forall q | FirstPage(d) <= q <= EndPage(d) :: h.pages[q] != Hole;
  }

  lemma PlaceChunks(h: Heap, n: nat, id: nat, d: Chunk)
    requires Inv(h) && h.mptr % PGWORDS == 0 && n < MAXWORDS && HolesAt(h, h.mptr / PGWORDS, PagesFor(n)) && d in h.live
    ensures ChunkOk(Place(h, n, id), d) && Apart(Chunk(id, h.mptr, n), d)
    ensures EndPage(d) != EndPage(Chunk(id, h.mptr, n))
  {
    var p, k := h.mptr / PGWORDS, PagesFor(n);
    assert ChunkOk(h, d);
    PlaceAt(h.mptr, n, id);
    ClearOfHoles(h, d, p, k);
    FillsPages(d);
    if EndPage(d) < p {
      assert d.v + d.n <= (EndPage(d) + 1) * PGWORDS <= p * PGWORDS;
    } else {
      assert d.v >= FirstPage(d) * PGWORDS >= (p + k) * PGWORDS;
    }
  }

  lemma PlaceEnd(h: Heap, n: nat, id: nat)
    requires Inv(h) && h.mptr % PGWORDS == 0 && n < MAXWORDS && HolesAt(h, h.mptr / PGWORDS, PagesFor(n))
    requires FreshId(h, id)
    ensures EndPage(Chunk(id, h.mptr, n)) < NPAGES && PageOk(Place(h, n, id), EndPage(Chunk(id, h.mptr, n)))
  {
    hide ChunkOk;
    hide Apart;
    var h', c := Place(h, n, id), Chunk(id, h.mptr, n);
    PlaceAt(h.mptr, n, id);
    forall d | d in h.live ensures EndPage(d) != EndPage(c) { PlaceChunks(h, n, id, d); }
    assert Ending(h', EndPage(c)) == {c};
    assert PageOk(h, EndPage(c)) && h.leaked[EndPage(c)] == 0;
  }

  lemma PlacePages(h: Heap, n: nat, id: nat, q: nat)
    requires Inv(h) && h.mptr % PGWORDS == 0 && n < MAXWORDS && HolesAt(h, h.mptr / PGWORDS, PagesFor(n)) && q < NPAGES
    requires FreshId(h, id)
    ensures PageOk(Place(h, n, id), q)
  {
    hide ChunkOk;
    var h', c := Place(h, n, id), Chunk(id, h.mptr, n);
    assert PageOk(h, q);
    PlaceAt(h.mptr, n, id);
    if q == EndPage(c) {
      PlaceEnd(h, n, id);
    } else if Covers(c, q) {
      assert c in h'.live;
    } else {
      assert Ending(h', q) == Ending(h, q);
      if h.pages[q].Continued? {
        var d :| d in h.live && Covers(d, q);
        assert d in h'.live;
      }
    }
  }

  lemma PlaceInv(h: Heap, n: nat, id: nat)
    requires Inv(h) && h.mptr % PGWORDS == 0 && n < MAXWORDS && HolesAt(h, h.mptr / PGWORDS, PagesFor(n))
    requires FreshId(h, id)
    ensures Inv(Place(h, n, id))
  {
    var h', c := Place(h, n, id), Chunk(id, h.mptr, n);
    PlaceAt(h.mptr, n, id);
    assert ChunkOk(h', c);
    forall d | d in h.live
      ensures ChunkOk(h', d) && Apart(c, d) && EndPage(d) != EndPage(c)
    {
      PlaceChunks(h, n, id, d);
    }
    forall q | 0 <= q < NPAGES ensures PageOk(h', q) { PlacePages(h, n, id, q); }
  }
}
