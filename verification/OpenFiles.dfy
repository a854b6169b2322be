/** fs/serv.c: the open-file table and its file identifiers. */
module OpenFiles {
  import opened Errors

  const MAXOPEN := 1024
  const TWO31 := 0x8000_0000
  const TWO32 := 0x1_0000_0000

  /** The identifier of the k-th open of a slot; serve_init gives it number 0. */
  function IdOf(i: nat, k: nat): nat {
    (i + k * MAXOPEN) % TWO32
  }

  lemma IdSlot(i: nat, k: nat)
    requires i < MAXOPEN
    ensures IdOf(i, k) % MAXOPEN == i
  {
    var x := i + k * MAXOPEN;
    var q := x / TWO32;
    assert x == q * TWO32 + IdOf(i, k);
    assert IdOf(i, k) == i + (k - q * 0x40_0000) * MAXOPEN;
  }

  lemma IdClosedForm(i: nat, k: nat)
    requires i < MAXOPEN
    ensures IdOf(i, k) == i + (k % 0x40_0000) * MAXOPEN
  {
    var q, r := k / 0x40_0000, k % 0x40_0000;
    assert i + k * MAXOPEN == q * TWO32 + (i + r * MAXOPEN);
    assert (q * TWO32 + (i + r * MAXOPEN)) % TWO32 == i + r * MAXOPEN;
  }

  /** Identifiers of a slot repeat exactly every 2^22 opens. */
  lemma IdsRepeatIff(i: nat, k: nat, k': nat)
    requires i < MAXOPEN
    ensures IdOf(i, k) == IdOf(i, k') <==> k % 0x40_0000 == k' % 0x40_0000
  {
    IdClosedForm(i, k);
    IdClosedForm(i, k');
  }

  /** A mapping of an open file's Fd page in some client: the slot, and which open of it. */
  datatype Client = Client(name: nat, slot: nat, k: nat)

  class OpenTable {
    var fileid: seq<nat>
    /** pageref of each slot's Fd page, with the server's own mapping. */
    var refs: seq<nat>
    ghost var opens: seq<nat>
    ghost var clients: set<Client>

    ghost function Of(i: nat): set<Client>
      reads this
    {
      set c | c in clients && c.slot == i
    }

    /** Every client maps the page of the last open of its slot. */
    ghost predicate Valid()
      reads this
    {
      && |fileid| == |refs| == |opens| == MAXOPEN
      && (forall i | 0 <= i < MAXOPEN :: fileid[i] == IdOf(i, opens[i]))
      && (forall i | 0 <= i < MAXOPEN :: refs[i] == |Of(i)| + (if refs[i] > 0 then 1 else 0))
      && (forall c | c in clients :: c.slot < MAXOPEN && c.k == opens[c.slot] && refs[c.slot] > 0)
      && (forall c, d | c in clients && d in clients && c != d :: c.name != d.name)
    }

    /** serve_init. */
    constructor ServeInit()
      ensures Valid() && clients == {} && forall i | 0 <= i < MAXOPEN :: opens[i] == 0
    {
      fileid := seq(MAXOPEN, i => i);
      refs := seq(MAXOPEN, _ => 0);
      opens := seq(MAXOPEN, _ => 0);
      clients := {};
      new;
      forall i | 0 <= i < MAXOPEN ensures |Of(i)| == 0 { assert Of(i) == {}; }
    }

    /** openfile_alloc: the first slot that no client maps gets its next identifier.  `memory` is
        whether sys_page_alloc succeeds. */
    method OpenfileAlloc(memory: bool) returns (r: int, i: nat)
      requires Valid()
      modifies this`fileid, this`refs, this`opens
      ensures Valid() && clients == old(clients) && r in {0, -E_NO_MEM, -E_MAX_OPEN}
      ensures r == -E_MAX_OPEN <==> forall j | 0 <= j < MAXOPEN :: old(Of(j)) != {}
      ensures r == -E_NO_MEM ==> !memory && i < MAXOPEN && refs[i] == 0 && forall j | 0 <= j < i :: Of(j) != {}
      ensures r == 0 ==> i < MAXOPEN && (memory || old(refs)[i] == 1)
      ensures r < 0 ==> fileid == old(fileid) && refs == old(refs) && opens == old(opens)
      ensures r == 0 ==> i < MAXOPEN && Of(i) == {} && (forall j | 0 <= j < i :: Of(j) != {})
      ensures r == 0 ==> opens == old(opens)[i := old(opens)[i] + 1] && refs == old(refs)[i := 1]
    {
      i := 0;
      while i < MAXOPEN
        invariant i <= MAXOPEN && Valid() && fileid == old(fileid) && refs == old(refs) && opens == old(opens)
        invariant forall j | 0 <= j < i :: Of(j) != {}
      {
        if refs[i] <= 1 {
          assert |Of(i)| == 0;
          if refs[i] == 0 {
            if !memory {
              return -E_NO_MEM, i;
            }
            refs := refs[i := 1];
          }
          fileid := fileid[i := (fileid[i] + MAXOPEN) % TWO32];
          opens := opens[i := opens[i] + 1];
          NextId(i, opens[i] - 1);
          forall c | c in clients ensures c.slot != i { assert c in Of(c.slot); }
          return 0, i;
        }
        i := i + 1;
      }
      r := -E_MAX_OPEN;
    }

    /** openfile_lookup: the slot, or an error. */
    function OpenfileLookup(id: nat): (r: int)
      requires |fileid| == |refs| == MAXOPEN
      reads this
      ensures r == -E_INVAL || r == id % MAXOPEN
    {
      var i := id % MAXOPEN;
      if refs[i] <= 1 || fileid[i] != id then -E_INVAL else i
    }

    /** A client gets the Fd page: from the server at open, or from another client. */
    method MapFd(ghost c: Client, i: nat)
      requires Valid() && i < MAXOPEN && refs[i] > 0 && c.slot == i && c.k == opens[i]
      requires forall d | d in clients :: d.name != c.name
      modifies this`refs, this`clients
      ensures Valid() && clients == old(clients) + {c}
    {
      refs := refs[i := refs[i] + 1];
      clients := clients + {c};
      assert Of(i) == old(Of(i)) + {c};
      forall j | 0 <= j < MAXOPEN && j != i ensures Of(j) == old(Of(j)) {}
    }

    /** A client closes, or exits. */
    method UnmapFd(ghost c: Client, i: nat)
      requires Valid() && c in clients && c.slot == i
      modifies this`refs, this`clients
      ensures Valid() && clients == old(clients) - {c}
    {
      assert c in Of(i);
      refs := refs[i := refs[i] - 1];
      clients := clients - {c};
      assert Of(i) == old(Of(i)) - {c};
      forall j | 0 <= j < MAXOPEN && j != i ensures Of(j) == old(Of(j)) {}
    }

    /** An identifier resolves exactly while some client maps the page of the open that it was given
        for. */
    lemma ResolvesIff(id: nat)
      requires Valid()
      ensures OpenfileLookup(id) >= 0 <==> exists c :: c in clients && IdOf(c.slot, c.k) == id
    {
      var i := id % MAXOPEN;
      if OpenfileLookup(id) >= 0 {
        assert |Of(i)| > 0;
        var c :| c in Of(i);
        assert c in clients && IdOf(c.slot, c.k) == id;
      }
      if c :| c in clients && IdOf(c.slot, c.k) == id { ClientResolves(c); }
    }

    /** A client's identifier resolves to its own open for as long as it keeps the page. */
    lemma ClientResolves(c: Client)
      requires Valid() && c in clients
      ensures OpenfileLookup(IdOf(c.slot, c.k)) == c.slot && c.k == opens[c.slot]
    {
      IdSlot(c.slot, c.k);
      assert c in Of(c.slot);
    }

    /** An identifier resolves only to the open it was given for: never to a later one of the slot,
        up to 2^22 opens, and to none once the last client is gone. */
    lemma OnlyOwnOpen(i: nat, k: nat)
      requires Valid() && i < MAXOPEN && k <= opens[i] < k + 0x40_0000
      ensures OpenfileLookup(IdOf(i, k)) == i <==> k == opens[i] && Of(i) != {}
    {
      IdSlot(i, k);
      IdsRepeatIff(i, k, opens[i]);
      SameResidue(k, opens[i]);
      assert |Of(i)| == 0 <==> Of(i) == {};
    }

    /** openfile_alloc returns the identifier as an int, which serve_open takes for an error when it
        is negative: the slot can be opened 2^21 - 1 times. */
    lemma UsableIff(i: nat)
      requires Valid() && i < MAXOPEN && opens[i] < 0x40_0000
      ensures fileid[i] < TWO31 <==> opens[i] <= 0x20_0000 - 1
    {
      IdClosedForm(i, opens[i]);
    }
  }

  lemma NextId(i: nat, k: nat)
    ensures IdOf(i, k + 1) == (IdOf(i, k) + MAXOPEN) % TWO32
  {
  }

  lemma SameResidue(k: nat, m: nat)
    requires k <= m < k + 0x40_0000
    ensures k % 0x40_0000 == m % 0x40_0000 <==> k == m
  {
    if k % 0x40_0000 == m % 0x40_0000 {
      assert (m - k) % 0x40_0000 == 0;
    }
  }
}
