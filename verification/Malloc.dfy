/** lib/malloc.c: the allocator that keeps its reference counts in the pages themselves. */
module Malloc {
  import opened HeapSpec

  /** ROUNDUP(n, 4) in unsigned 32-bit arithmetic, in words. */
  function Words(bytes: nat): (n: nat)
    requires bytes < 0x1_0000_0000
    ensures bytes <= 0xffff_fffc ==> 4 * n - 4 < bytes <= 4 * n
    ensures bytes > 0xffff_fffc ==> n == 0
  {
    ((bytes + 3) % 0x1_0000_0000) / 4
  }

  lemma FitsIff(m: nat, n: nat)
    ensures m / PGWORDS == (m + n) / PGWORDS <==> m % PGWORDS + n + 1 <= PGWORDS
  {
    var p, o := m / PGWORDS, m % PGWORDS;
    if o + n < PGWORDS {
      DivMod(p, o + n);
      assert m + n == p * PGWORDS + (o + n);
    } else {
      assert m + n >= (p + 1) * PGWORDS;
    }
  }

  lemma ReseatInv(h: Heap, m: nat)
    requires Inv(h) && h.mptr % PGWORDS == 0 && m % PGWORDS == 0 && m < SPAN
    ensures Inv(h.(mptr := m))
  {
    var h' := h.(mptr := m);
    forall c | c in h.live ensures ChunkOk(h', c) { assert ChunkOk(h, c); }
    forall q | 0 <= q < NPAGES ensures PageOk(h', q) {
      assert PageOk(h, q) && Ending(h', q) == Ending(h, q);
    }
  }

  class Allocator {
    var mptr: nat
    var pages: seq<Page>
    ghost var live: set<Chunk>
    ghost var leaked: seq<nat>
    ghost var ids: nat

    ghost function S(): Heap
      reads this
    {
      Heap(mptr, pages, live, leaked)
    }

    ghost predicate Valid()
      reads this
    {
      Inv(S()) && forall c | c in live :: c.id < ids
    }

    constructor ()
      ensures Valid() && live == {} && mptr == 0 && |pages| == |leaked| == NPAGES
      ensures forall p | 0 <= p < NPAGES :: pages[p] == Hole && leaked[p] == 0
    {
      mptr := 0;
      pages := seq(NPAGES, _ => Hole);
      live := {};
      leaked := seq(NPAGES, _ => 0);
      ids := 0;
      new;
      forall p | 0 <= p < NPAGES ensures PageOk(S(), p) {}
    }

    /** isfree, for a page address and at least one word. */
    method IsFree(v: nat, n: nat) returns (ok: bool)
      requires |pages| == NPAGES && v % PGWORDS == 0
      ensures ok <==> HolesAt(S(), v / PGWORDS, PagesFor(n))
    {
      ghost var p, k := v / PGWORDS, PagesFor(n);
      var va := v;
      ghost var j := 0;
      while va < v + (n + 1)
        invariant va == v + j * PGWORDS && j <= k
        invariant (j > 0 ==> p + j <= NPAGES) && forall q | p <= q < p + j :: pages[q] == Hole
        decreases k - j
      {
        StepsIn(v, n, j);
        if va >= SPAN || pages[va / PGWORDS] != Hole {
          return false;
        }
        va := va + PGWORDS;
        j := j + 1;
      }
      StepsOut(n, j);
      ok := true;
    }

    /** free's walk from page p on. */
    method FreePages(v: nat, ghost e: nat)
      requires v / PGWORDS <= e < |pages| && pages[e].Counted?
      requires forall q | v / PGWORDS <= q < e :: pages[q] == Continued
      modifies this`pages
      ensures |pages| == |old(pages)|
      ensures forall q | 0 <= q < |pages| ::
                pages[q] ==
                if v / PGWORDS <= q < e then Hole else if q == e then Dropped(old(pages)[q]) else old(pages)[q]
    {
      var c := v / PGWORDS;
      while pages[c] == Continued
        invariant v / PGWORDS <= c <= e && |pages| == |old(pages)|
        invariant forall q | 0 <= q < |pages| :: pages[q] == if v / PGWORDS <= q < c then Hole else old(pages)[q]
        decreases e - c
      {
        pages := pages[c := Hole];
        c := c + 1;
      }
      pages := pages[c := Dropped(pages[c])];
    }

    /** free. */
    method Free(v: nat, ghost c: Chunk)
      requires Valid() && c in live && v == c.v
      modifies this
      ensures Valid() && EndPage(c) < NPAGES && S() == HeapSpec.Release(old(S()), c) && leaked == old(leaked)
    {
      ghost var h := S();
      assert ChunkOk(h, c);
      ReleaseInv(h, c);
      FreePages(v, EndPage(c));
      live := live - {c};
      assert pages == HeapSpec.Release(h, c).pages;
    }

    /** The bump pointer leaves its page. */
    method LeavePage()
      requires Valid() && mptr % PGWORDS != 0 && (mptr / PGWORDS + 1) * PGWORDS < SPAN
      modifies this
      ensures Valid() && S() == MoveOn(old(S())) && mptr % PGWORDS == 0 && live == old(live) && leaked == old(leaked)
      ensures ids == old(ids)
    {
      ghost var h := S();
      MoveOnInv(h);
      BelowSpan(mptr);
      FreePages(mptr, mptr / PGWORDS);
      mptr := (mptr / PGWORDS + 1) * PGWORDS;
      assert pages == MoveOn(h).pages;
    }

    /** malloc's search for address space: round the whole area, twice at most. */
    method FindSpace(n: nat) returns (ok: bool)
      requires Valid() && mptr % PGWORDS == 0
      modifies this`mptr
      ensures Valid() && mptr % PGWORDS == 0
      ensures ok ==> HolesAt(S(), mptr / PGWORDS, PagesFor(n))
      ensures !ok ==> forall p :: !HolesAt(S(), p, PagesFor(n))
      ensures ok ==> FirstHoles(old(S()), old(mptr) / PGWORDS, mptr / PGWORDS, PagesFor(n))
    {
      ghost var h, start, k := S(), mptr / PGWORDS, PagesFor(n);
      PlaceAt(mptr, n, 0);
      var nwrap := 0;
      while true
        invariant Inv(h) && S() == h.(mptr := mptr) && h.mptr % PGWORDS == 0 && mptr % PGWORDS == 0 && mptr < SPAN
        invariant 0 <= nwrap < 2 && (nwrap == 0 ==> start <= mptr / PGWORDS)
        invariant forall q | 0 <= q < mptr / PGWORDS && (nwrap == 1 || start <= q) :: !HolesAt(h, q, k)
        invariant nwrap == 1 ==> forall q | start <= q < NPAGES :: !HolesAt(h, q, k)
        decreases 2 - nwrap, SPAN - mptr
      {
        ReseatInv(h, mptr);
        ok := IsFree(mptr, n);
        assert ok <==> HolesAt(h, mptr / PGWORDS, k);
        if ok {
          return;
        }
        NextPage(mptr);
        mptr := mptr + PGWORDS;
        if mptr == SPAN {
          mptr := 0;
          nwrap := nwrap + 1;
          if nwrap == 2 {
            ReseatInv(h, 0);
            forall p ensures !HolesAt(S(), p, k) {
              assert HolesAt(S(), p, k) <==> HolesAt(h, p, k);
            }
            return false;
          }
        }
      }
    }

    /** malloc's allocation loop: k pages from page p on, unless physical memory runs out after
        `memory` of them; then those are unmapped again. */
    method MapPages(p: nat, k: nat, memory: nat) returns (ok: bool)
      requires |pages| == NPAGES && HolesAt(S(), p, k) && k > 0
      modifies this`pages
      ensures ok <==> memory >= k
      ensures !ok ==> pages == old(pages)
      ensures ok ==> |pages| == NPAGES && forall q | 0 <= q < NPAGES ::
                       pages[q] ==
                       if p <= q < p + k - 1 then Continued else if q == p + k - 1 then Counted(0) else old(pages)[q]
    {
      var i := 0;
      while i < k
        invariant i <= k && i <= memory && |pages| == NPAGES
        invariant forall q | 0 <= q < NPAGES ::
                    pages[q] ==
                    if p <= q < p + i && q < p + k - 1 then Continued
                    else if p <= q < p + i then Counted(0) else old(pages)[q]
      {
        if i == memory {
          while i >= 0
            invariant -1 <= i < k && |pages| == NPAGES
            invariant forall q | 0 <= q < NPAGES && q > p + i :: pages[q] == old(pages)[q]
            invariant forall q | 0 <= q < p :: pages[q] == old(pages)[q]
          {
            pages := pages[p + i := Hole];
            i := i - 1;
          }
          assert pages == old(pages);
          return false;
        }
        pages := pages[p + i := if i + 1 < k then Continued else Counted(0)];
        i := i + 1;
      }
      ok := true;
    }

    /** A chunk on new pages. */
    method NewPages(n: nat, memory: nat) returns (v: int)
      requires Valid() && mptr % PGWORDS == 0 && n < MAXWORDS && HolesAt(S(), mptr / PGWORDS, PagesFor(n))
      modifies this
      ensures Valid() && (v == -1 <==> memory < PagesFor(n))
      ensures v == -1 ==> S() == old(S())
      ensures v != -1 ==> v == old(mptr) && S() == Place(old(S()), n, old(ids)) && ids == old(ids) + 1
    {
      hide Inv;
      ghost var h := S();
      HeapSizes(h);
      PlaceInv(h, n, ids);
      PlaceAt(mptr, n, ids);
      var p, k := mptr / PGWORDS, PagesFor(n);
      var ok := MapPages(p, k, memory);
      if !ok {
        return -1;
      }
      pages := pages[p + k - 1 := Counted(2)];
      v := mptr;
      mptr := mptr + n;
      live := live + {Chunk(ids, v, n)};
      leaked := Place(h, n, ids).leaked;
      assert pages == Place(h, n, ids).pages;
      ids := ids + 1;
    }

    /** malloc.  -1 is NULL.  `memory` is how many pages the kernel has left. */
    method Malloc(bytes: nat, memory: nat) returns (v: int, ghost c: Chunk)
      requires Valid() && bytes < 0x1_0000_0000 && CanMoveOn(S(), Words(bytes))
      modifies this
      ensures Valid() && -1 <= v
      ensures v >= 0 ==>
                c == Chunk(old(ids), v, Words(bytes)) && c !in old(live) && live == old(live) + {c} && c.n < MAXWORDS
      ensures v < 0 ==> live == old(live) && leaked == old(leaked)
      ensures v < 0 <==>
                || Words(bytes) >= MAXWORDS
                || (&& !InPage(old(S()), Words(bytes))
                    && (|| memory < PagesFor(Words(bytes))
                        || forall p :: !HolesAt(Left(old(S())), p, PagesFor(Words(bytes)))))
      ensures v >= 0 ==> mptr == v + Words(bytes)
      ensures v >= 0 && InPage(old(S()), Words(bytes)) ==> v == old(mptr)
      ensures Words(bytes) % PGWORDS != 0 ==> NoNewLeak(old(leaked), leaked)
      ensures v >= 0 ==> if InPage(old(S()), Words(bytes)) then S() == Bump(old(S()), Words(bytes), old(ids))
                         else Placed(Left(old(S())), S(), Words(bytes), old(ids), v)
      ensures FitsNext(old(S()), Words(bytes)) && memory >= PagesFor(Words(bytes)) ==>
                v == Left(old(S())).mptr && ids == old(ids) + 1
    {
      BelowSpan(mptr);
      c := Chunk(0, 0, 0);
      var n := Words(bytes);
      if n >= MAXWORDS {
        return -1, c;
      }
      ghost var h := S();
      if mptr % PGWORDS != 0 {
        FitsIff(mptr, n);
        if mptr / PGWORDS == (mptr + n) / PGWORDS {
          v := SamePageChunk(n);
          c := Chunk(ids - 1, v, n);
          return;
        }
        LeavePage();
      }
      var ok := FindSpace(n);
      SameHoles(Left(h), S(), PagesFor(n));
      if !ok {
        return -1, c;
      }
      v := NewPages(n, memory);
      c := Chunk(if v >= 0 then ids - 1 else 0, if v >= 0 then v else 0, n);
    }

    /** A chunk on the page that the bump pointer is in. */
    method SamePageChunk(n: nat) returns (v: nat)
      requires Valid() && mptr % PGWORDS != 0 && FitsHere(S(), n) && n < MAXWORDS
      modifies this
      ensures Valid() && v == old(mptr) && ids == old(ids) + 1 && leaked == old(leaked)
      ensures live == old(live) + {Chunk(old(ids), v, n)} && Chunk(old(ids), v, n) !in old(live)
      ensures old(mptr) / PGWORDS < NPAGES && S() == Bump(old(S()), n, old(ids))
    {
      BumpInv(S(), n, ids);
      var p := mptr / PGWORDS;
      pages := pages[p := Counted(pages[p].ref + 1)];
      v := mptr;
      mptr := mptr + n;
      live := live + {Chunk(ids, v, n)};
      ids := ids + 1;
    }
  }

  /** The k pages from p on are the first k holes in a row, looking from page `start` to the end of
      the area and then from its beginning. */
  ghost predicate FirstHoles(h: Heap, start: nat, p: nat, k: nat) {
    && HolesAt(h, p, k)
    && (forall q | start <= q < |h.pages| && (start <= p ==> q < p) :: !HolesAt(h, q, k))
    && (p < start ==> forall q | 0 <= q < p :: !HolesAt(h, q, k))
  }

  /** Where the holes are does not depend on the bump pointer. */
  lemma SameHoles(h: Heap, h': Heap, k: nat)
    requires h'.pages == h.pages
    ensures forall p :: HolesAt(h', p, k) <==> HolesAt(h, p, k)
  {
  }

  /** The next chunk goes on the page that the bump pointer is in. */
  predicate InPage(h: Heap, n: nat) {
    h.mptr % PGWORDS != 0 && FitsHere(h, n)
  }

  /** The bump pointer has left its page, if it was in one. */
  function Left(h: Heap): Heap
    requires h.mptr / PGWORDS < |h.pages|
  {
    if h.mptr % PGWORDS != 0 then MoveOn(h) else h
  }

  /** The chunk needs new pages, and those right ahead of the bump pointer are holes. */
  predicate FitsNext(h: Heap, n: nat)
    requires h.mptr / PGWORDS < |h.pages|
  {
    !InPage(h, n) && n < MAXWORDS && HolesAt(Left(h), Left(h).mptr / PGWORDS, PagesFor(n))
  }

  /** A chunk has been placed on pages that were holes. */
  ghost predicate Placed(h: Heap, h': Heap, n: nat, id: nat, v: nat) {
    && |h.leaked| == |h.pages| && v % PGWORDS == 0
    && FirstHoles(h, h.mptr / PGWORDS, v / PGWORDS, PagesFor(n))
    && h' == Place(h.(mptr := v), n, id)
  }

  /** The bump pointer can leave its page for the next chunk without reaching mend. */
  predicate CanMoveOn(h: Heap, n: nat) {
    h.mptr % PGWORDS != 0 && !FitsHere(h, n) ==> (h.mptr / PGWORDS + 1) * PGWORDS < SPAN
  }

  /** Nothing has leaked where nothing had. */
  predicate NoNewLeak(a: seq<nat>, b: seq<nat>) {
    |a| == |b| && forall p | 0 <= p < |a| && a[p] == 0 :: b[p] == 0
  }

  lemma HeapSizes(h: Heap)
    requires Inv(h)
    ensures |h.pages| == |h.leaked| == NPAGES
  {
  }

  lemma NextPage(m: nat)
    requires m % PGWORDS == 0 && m < SPAN
    ensures (m + PGWORDS) / PGWORDS == m / PGWORDS + 1 && (m + PGWORDS) % PGWORDS == 0 && m + PGWORDS <= SPAN
    ensures m + PGWORDS == SPAN ==> m / PGWORDS + 1 == NPAGES
  {
  }

  lemma StepsIn(v: nat, n: nat, j: nat)
    requires v % PGWORDS == 0 && j * PGWORDS < n + 1
    ensures (v + j * PGWORDS) / PGWORDS == v / PGWORDS + j && j < PagesFor(n)
  {
    DivMod(v / PGWORDS + j, 0);
    assert v + j * PGWORDS == (v / PGWORDS + j) * PGWORDS;
  }

  lemma StepsOut(n: nat, j: nat)
    requires j * PGWORDS >= n + 1 && j <= PagesFor(n)
    ensures j == PagesFor(n)
  {
  }

  // ---------------------------------------------------------------- runs

  datatype Op = Alloc(bytes: nat, memory: nat) | Release(k: nat)

  /** What a count means: the chunks that end in the page and the bump pointer. */
  ghost predicate CountsExact(h: Heap) {
    |h.pages| == NPAGES && forall p | 0 <= p < NPAGES && h.pages[p].Counted? ::
      h.pages[p].ref == |Ending(h, p)| + if MptrIn(h, p) then 1 else 0
  }

  /** The addresses that the caller holds, and the chunks they stand for. */
  ghost predicate Held(a: Allocator, vs: seq<nat>, cs: seq<Chunk>)
    reads a
  {
    && |vs| == |cs| && (forall k | 0 <= k < |cs| :: cs[k] in a.live && cs[k].v == vs[k])
    && (forall j, k | 0 <= j < k < |cs| :: cs[j] != cs[k])
  }

  lemma DropOne(vs: seq<nat>, cs: seq<Chunk>, live: set<Chunk>, k: nat)
    requires |vs| == |cs| && k < |cs| && (forall i | 0 <= i < |cs| :: cs[i] in live && cs[i].v == vs[i])
    requires forall i, j | 0 <= i < j < |cs| :: cs[i] != cs[j]
    ensures var vs', cs' := vs[..k] + vs[k + 1..], cs[..k] + cs[k + 1..];
            && |vs'| == |cs'| && (forall i | 0 <= i < |cs'| :: cs'[i] in live - {cs[k]} && cs'[i].v == vs'[i])
            && (forall i, j | 0 <= i < j < |cs'| :: cs'[i] != cs'[j])
  {
    var vs', cs' := vs[..k] + vs[k + 1..], cs[..k] + cs[k + 1..];
    assert forall i | 0 <= i < |cs'| ::
      cs'[i] == cs[if i < k then i else i + 1] && vs'[i] == vs[if i < k then i else i + 1];
  }

  /** Any sequence of malloc and free in which each chunk is freed once and the bump pointer does
      not reach mend: the heap stays in order, and if no request is a multiple of the page size
      every count is exact, so that a page goes exactly with its last reference. */
  method RunAll(a: Allocator, ops: seq<Op>) returns (vs: seq<nat>, ghost cs: seq<Chunk>)
    requires a.Valid() && forall p | 0 <= p < NPAGES :: a.leaked[p] == 0
    modifies a
    ensures a.Valid() && Held(a, vs, cs)
    ensures (forall k | 0 <= k < |ops| && ops[k].Alloc? && ops[k].bytes < 0x1_0000_0000 ::
               Words(ops[k].bytes) % PGWORDS != 0) ==> CountsExact(a.S())
  {
    vs, cs := [], [];
    ghost var plain := forall k | 0 <= k < |ops| && ops[k].Alloc? && ops[k].bytes < 0x1_0000_0000 ::
      Words(ops[k].bytes) % PGWORDS != 0;
    for i := 0 to |ops|
      invariant a.Valid() && Held(a, vs, cs)
      invariant plain ==> |a.leaked| == NPAGES && forall p | 0 <= p < NPAGES :: a.leaked[p] == 0
    {
      match ops[i] {
        case Alloc(bytes, memory) =>
          if bytes < 0x1_0000_0000 {
            var n := Words(bytes);
            if a.mptr % PGWORDS == 0 || a.mptr % PGWORDS + n + 1 <= PGWORDS || (a.mptr / PGWORDS + 1) * PGWORDS < SPAN {
              ghost var c;
              var v;
              v, c := a.Malloc(bytes, memory);
              if v >= 0 {
                vs, cs := vs + [v], cs + [c];
              }
            }
          }
        case Release(k) =>
          if k < |vs| {
            DropOne(vs, cs, a.live, k);
            a.Free(vs[k], cs[k]);
            vs, cs := vs[..k] + vs[k + 1..], cs[..k] + cs[k + 1..];
          }
      }
    }
    if plain { ExactCounts(a.S()); }
  }

  lemma ExactCounts(h: Heap)
    requires Inv(h) && forall p | 0 <= p < NPAGES :: h.leaked[p] == 0
    ensures CountsExact(h)
  {
    forall p | 0 <= p < NPAGES && h.pages[p].Counted?
      ensures h.pages[p].ref == |Ending(h, p)| + if MptrIn(h, p) then 1 else 0
    {
      assert PageOk(h, p);
    }
  }

  /** Live chunks overlap neither each other nor a reference count, and lie in mapped pages. */
  lemma ChunksAreSafe(h: Heap, c: Chunk, x: nat)
    requires Inv(h) && c in h.live && c.v <= x < c.v + c.n
    ensures x / PGWORDS < NPAGES && h.pages[x / PGWORDS] != Hole
    ensures h.pages[x / PGWORDS].Counted? ==> x % PGWORDS != PGWORDS - 1
    ensures forall d | d in h.live && d != c :: !(d.v <= x < d.v + d.n)
  {
    assert ChunkOk(h, c);
    FillsPages(c);
    assert FirstPage(c) <= x / PGWORDS <= EndPage(c);
    forall d | d in h.live && d != c ensures !(d.v <= x < d.v + d.n) { assert Apart(c, d); }
  }

  // ---------------------------------------------------------------- where the code fails

  /** Leaving a page for the next chunk takes the bump pointer to mend exactly if it was in the last
      page, and otherwise keeps the heap in order. */
  lemma ReachesMendIff(h: Heap, n: nat)
    requires Inv(h) && h.mptr % PGWORDS != 0 && !FitsHere(h, n)
    ensures h.mptr / PGWORDS < NPAGES
    ensures MoveOn(h).mptr == SPAN <==> !CanMoveOn(h, n)
    ensures CanMoveOn(h, n) <==> Inv(MoveOn(h))
  {
    BelowSpan(h.mptr);
    if CanMoveOn(h, n) { MoveOnInv(h); }
  }

  const BIG := 4 * (MAXWORDS - 2)

  lemma BigSizes()
    ensures Words(BIG) == MAXWORDS - 2 && PagesFor(MAXWORDS - 2) == 256 && Words(8) == 2
  {
  }

  lemma BigMove(i: nat)
    requires 0 < i < 128
    ensures var m := i * MAXWORDS - 2; m % PGWORDS == PGWORDS - 2 && (m / PGWORDS + 1) * PGWORDS == i * MAXWORDS < SPAN
    ensures (i * MAXWORDS) / PGWORDS == i * 256
  {
    DivMod(i * 256 - 1, PGWORDS - 2);
    DivMod(i * 256, 0);
    assert i * MAXWORDS - 2 == (i * 256 - 1) * PGWORDS + (PGWORDS - 2);
  }

  /** The first i megabytes of the area are taken, but for a few words at the end. */
  ghost predicate FilledTo(h: Heap, i: nat) {
    && |h.pages| == |h.leaked| == NPAGES && h.mptr == (if i == 0 then 0 else i * MAXWORDS - 2)
    && forall q | i * 256 <= q < NPAGES :: h.pages[q] == Hole
  }

  /** The page after the last one used is where the next chunk goes. */
  lemma NextMegabyte(h: Heap, i: nat)
    requires FilledTo(h, i) && i < 128
    ensures h.mptr / PGWORDS < NPAGES && !InPage(h, MAXWORDS - 2) && CanMoveOn(h, MAXWORDS - 2)
    ensures Left(h).mptr == i * MAXWORDS && HolesAt(Left(h), Left(h).mptr / PGWORDS, 256)
    ensures |Left(h).pages| == |Left(h).leaked| == NPAGES
    ensures forall q | i * 256 <= q < NPAGES :: Left(h).pages[q] == Hole
  {
    if i > 0 { BigMove(i); }
    BelowSpan(h.mptr);
  }

  lemma OneMoreMegabyte(h: Heap, i: nat, id: nat, h': Heap)
    requires FilledTo(h, i) && i < 128 && h.mptr / PGWORDS < NPAGES
    requires Placed(Left(h), h', MAXWORDS - 2, id, i * MAXWORDS)
    ensures FilledTo(h', i + 1)
  {
    NextMegabyte(h, i);
    BigSizes();
    assert (i * MAXWORDS) / PGWORDS == i * 256;
  }

  /** A run that takes the bump pointer to the last page: 128 chunks of two words less than a
      megabyte.  The next request for two words makes it reach mend. */
  method FillArea() returns (a: Allocator)
    ensures a.Valid() && a.mptr == SPAN - 2 && !CanMoveOn(a.S(), Words(8))
  {
    hide Inv;
    hide FilledTo;
    hide Placed;
    a := new Allocator();
    BigSizes();
    Untouched(a.S());
    for i := 0 to 128
      invariant a.Valid() && FilledTo(a.S(), i)
    {
      ghost var h, id := a.S(), a.ids;
      NextMegabyte(h, i);
      ghost var c;
      var v;
      v, c := a.Malloc(BIG, 256);
      OneMoreMegabyte(h, i, id, a.S());
    }
    FullArea(a.S());
  }

  lemma Untouched(h: Heap)
    requires h.mptr == 0 && |h.pages| == |h.leaked| == NPAGES && forall p | 0 <= p < NPAGES :: h.pages[p] == Hole
    ensures FilledTo(h, 0)
  {
  }

  lemma FullArea(h: Heap)
    requires FilledTo(h, 128)
    ensures h.mptr == SPAN - 2 && !CanMoveOn(h, 2)
  {
    DivMod(NPAGES - 1, PGWORDS - 2);
    assert SPAN - 2 == (NPAGES - 1) * PGWORDS + (PGWORDS - 2);
  }

  const ADDRESSES := 0x1_0000_0000
  const MEND := 0x1000_0000
  const UTOP := 0xEEC0_0000
  const PGBYTES := 4096

  /** isfree on addresses, with its end computed modulo 2^32. */
  ghost predicate IsFreeAt(mapped: iset<nat>, v: nat, bytes: nat) {
    forall va: nat | v <= va < (v + bytes) % ADDRESSES && va % PGBYTES == v % PGBYTES :: PageIsFree(mapped, va)
  }

  ghost predicate PageIsFree(mapped: iset<nat>, va: nat) {
    va < MEND && va !in mapped
  }

  /** From mend on isfree fails until the end of the chunk wraps around, which it does above UTOP. */
  lemma PastTheEndIff(mapped: iset<nat>, v: nat, bytes: nat)
    requires MEND <= v < ADDRESSES && 0 < bytes <= 4 * MAXWORDS + 4
    ensures IsFreeAt(mapped, v, bytes) <==> v + bytes >= ADDRESSES
    ensures v + bytes >= ADDRESSES ==> v >= UTOP
  {
    assert !PageIsFree(mapped, v);
  }

  /** The first page above UTOP from which a chunk of that many bytes wraps around. */
  function WrapsAt(bytes: nat): (v: nat)
    requires PGBYTES <= bytes <= 4 * MAXWORDS + 4
    ensures v % PGBYTES == 0 && UTOP <= v < ADDRESSES
  {
    ADDRESSES - bytes / PGBYTES * PGBYTES
  }

  /** Where the search ends that starts at mend, with the count included in the bytes.  A page or
      more: at the first page from which the chunk wraps around, where no page can be allocated, so
      that malloc fails.  Less: no page from mend on will do, the pointer comes round to 0, and
      that is where the chunk goes, at the null address, exactly if no page is mapped there. */
  lemma SearchFromMend(mapped: iset<nat>, bytes: nat)
    requires 0 < bytes <= 4 * MAXWORDS + 4
    ensures bytes >= PGBYTES ==>
              && IsFreeAt(mapped, WrapsAt(bytes), bytes)
              && forall v | MEND <= v < WrapsAt(bytes) && v % PGBYTES == 0 :: !IsFreeAt(mapped, v, bytes)
    ensures bytes < PGBYTES ==>
              && (forall v | MEND <= v < ADDRESSES && v % PGBYTES == 0 :: !IsFreeAt(mapped, v, bytes))
              && (IsFreeAt(mapped, 0, bytes) <==> 0 !in mapped)
  {
    hide IsFreeAt;
    if bytes >= PGBYTES {
      PastTheEndIff(mapped, WrapsAt(bytes), bytes);
    } else {
      FirstPageFree(mapped, bytes);
    }
    forall v | MEND <= v < ADDRESSES && v % PGBYTES == 0
      ensures IsFreeAt(mapped, v, bytes) <==> v + bytes >= ADDRESSES
    {
      PastTheEndIff(mapped, v, bytes);
    }
  }

  lemma FirstPageFree(mapped: iset<nat>, bytes: nat)
    requires 0 < bytes <= PGBYTES
    ensures IsFreeAt(mapped, 0, bytes) <==> 0 !in mapped
  {
    assert PageIsFree(mapped, 0) <==> 0 !in mapped;
  }

  /** A request that is a multiple of the page size leaks its last page: its count starts at two,
      but the bump pointer, now at the start of that page, will never drop its reference. */
  lemma WholePageLeaks(h: Heap, n: nat, id: nat)
    requires Inv(h) && h.mptr % PGWORDS == 0 && n % PGWORDS == 0 && n < MAXWORDS
    requires HolesAt(h, h.mptr / PGWORDS, PagesFor(n)) && FreshId(h, id)
    ensures var c, h1 := Chunk(id, h.mptr, n), Place(h, n, id);
            && c in h1.live && EndPage(c) < NPAGES && !MptrIn(h1, EndPage(c)) && Ending(h1, EndPage(c)) == {c}
            && HeapSpec.Release(h1, c).pages[EndPage(c)] == Counted(1)
            && Ending(HeapSpec.Release(h1, c), EndPage(c)) == {}
  {
    var c, h1 := Chunk(id, h.mptr, n), Place(h, n, id);
    PlaceAt(h.mptr, n, id);
    forall d | d in h.live ensures EndPage(d) != EndPage(c) { PlaceChunks(h, n, id, d); }
    assert Ending(h1, EndPage(c)) == {c};
  }
}
