/** The IPC rendezvous: the env_ipc_* fields of kern/syscall.c and the user-level calls of
    lib/ipc.c, with every interleaving of senders and receivers. */
module Ipc {
  import opened Mmu

  /** The env_ipc_* fields of one environment. */
  datatype Box = Box(recving: bool, dstva: nat, value: int, from: int, perm: Bits)

  /** A page offered by the sender that the receiver accepts, with its permissions. */
  datatype Page = NoPage | Sent(perm: Bits)

  /** sys_ipc_recv's effect on the caller. */
  function Listen(b: Box, dstva: nat): Box {
    b.(recving := true, dstva := dstva, from := 0)
  }

  /** A successful sys_ipc_try_send's effect on the target.  env_ipc_perm is written only when
      a page goes along. */
  function Deliver(b: Box, from: int, value: int, page: Page): Box {
    b.(recving := false, from := from, value := value, perm := if page.Sent? then page.perm else b.perm)
  }

  /** env_alloc clears the receiving flag only. */
  function Renew(b: Box): Box {
    b.(recving := false)
  }

  /** sys_ipc_try_send's test that the target is blocked and not yet served. */
  predicate Accepts(b: Box) {
    b.recving && b.from == 0
  }

  // ---------------------------------------------------------------- runs

  /** Where an environment is in ipc_recv. */
  datatype Phase = Ready | Blocked | Woken

  datatype Message = Message(from: int, value: int)

  /** An environment, with the messages sent to it successfully and those its ipc_recv calls
      have returned. */
  datatype Party = Party(box: Box, phase: Phase, sent: seq<Message>, got: seq<Message>)

  datatype Event =
    | Recv(e: nat, dstva: nat)
    | TrySend(e: nat, from: int, value: int, page: Page)
    | Return(e: nat)
    | Reborn(e: nat)

  /** An environment runs only when it is not blocked in sys_ipc_recv; senders may try, and an
      environment may be destroyed and its slot allocated again, at any time. */
  predicate Enabled(st: seq<Party>, ev: Event) {
    && ev.e < |st|
    && match ev
       case Recv(e, _) => st[e].phase == Ready
       case TrySend(_, from, _, _) => from > 0
       case Return(e) => st[e].phase == Woken
       case Reborn(_) => true
  }

  function Step(st: seq<Party>, ev: Event): (st': seq<Party>)
    requires Enabled(st, ev)
    ensures |st'| == |st|
  {
    var p := st[ev.e];
    match ev
    case Recv(e, dstva) => st[e := p.(box := Listen(p.box, dstva), phase := Blocked)]
    case TrySend(e, from, value, page) =>
      if Accepts(p.box)
      then
        var box := Deliver(p.box, from, value, page);
        st[e := p.(box := box, phase := Woken, sent := p.sent + [Message(from, value)])]
      else st
    case Return(e) => st[e := p.(phase := Ready, got := p.got + [Message(p.box.from, p.box.value)])]
    case Reborn(e) => st[e := Party(Renew(p.box), Ready, [], [])]
  }

  ghost predicate Run(st: seq<Party>, evs: seq<Event>, st': seq<Party>)
    decreases |evs|
  {
    if evs == [] then st' == st
    else Enabled(st, evs[0]) && Run(Step(st, evs[0]), evs[1..], st')
  }

  /** An environment that has just been allocated: env_alloc clears env_ipc_recving. */
  predicate Fresh(p: Party) {
    !p.box.recving && p.phase == Ready && p.sent == [] && p.got == []
  }

  /** Every message that was accepted has been returned, except the one a woken receiver is
      about to return, which its fields still hold. */
  predicate Matched(p: Party) {
    match p.phase
    case Ready => !p.box.recving && p.got == p.sent
    case Blocked => Accepts(p.box) && p.got == p.sent
    case Woken => !p.box.recving && p.box.from > 0 && p.sent == p.got + [Message(p.box.from, p.box.value)]
  }

  lemma StepMatched(st: seq<Party>, ev: Event)
    requires (forall e | 0 <= e < |st| :: Matched(st[e])) && Enabled(st, ev)
    ensures forall e | 0 <= e < |st| :: Matched(Step(st, ev)[e])
  {
  }

  /** Over every run, sends that succeed and receives that return match one to one and in order:
      what an environment's receives have returned is what was sent to it, up to the one
      message a woken receiver still has to pick up. */
  lemma {:induction false} SendsMatchReceives(st: seq<Party>, evs: seq<Event>, st': seq<Party>)
    requires (forall e | 0 <= e < |st| :: Matched(st[e])) && Run(st, evs, st')
    ensures |st'| == |st| && forall e | 0 <= e < |st'| :: Matched(st'[e])
    ensures forall e | 0 <= e < |st'| :: st'[e].got <= st'[e].sent && |st'[e].sent| <= |st'[e].got| + 1
    decreases |evs|
  {
    if evs != [] {
      StepMatched(st, evs[0]);
      SendsMatchReceives(Step(st, evs[0]), evs[1..], st');
    }
  }

  /** Until the woken receiver returns, whatever anybody else does leaves its message alone:
      every other send to it fails. */
  lemma {:induction false} WokenKeepsMessage(st: seq<Party>, evs: seq<Event>, st': seq<Party>, e: nat)
    requires (forall i | 0 <= i < |st| :: Matched(st[i])) && Run(st, evs, st')
    requires e < |st| && st[e].phase == Woken && Return(e) !in evs && Reborn(e) !in evs
    ensures |st'| == |st| && st'[e] == st[e]
    decreases |evs|
  {
    if evs != [] {
      StepMatched(st, evs[0]);
      assert evs[0] in evs;
      assert Step(st, evs[0])[e] == st[e];
      assert forall x | x in evs[1..] :: x in evs;
      WokenKeepsMessage(Step(st, evs[0]), evs[1..], st', e);
    }
  }

  /** A call of ipc_recv waits at the address it names, and the next message to come is accepted. */
  lemma RecvWaits(st: seq<Party>, e: nat, dstva: nat, from: int, value: int, page: Page)
    requires Enabled(st, Recv(e, dstva)) && Matched(st[e]) && from > 0
    ensures var p := Step(st, Recv(e, dstva))[e];
            p.phase == Blocked && Accepts(p.box) && p.box.dstva == dstva && p.sent == st[e].sent && p.got == st[e].got
    ensures Enabled(Step(st, Recv(e, dstva)), TrySend(e, from, value, page))
    ensures var p := Step(Step(st, Recv(e, dstva)), TrySend(e, from, value, page))[e];
            && p.phase == Woken && p.box.from == from && p.box.value == value && p.box.dstva == dstva
            && p.box.perm == (if page.Sent? then page.perm else st[e].box.perm)
  {
  }

  /** What ipc_recv hands back is exactly the sender's identifier and value: a send that is
      accepted, any run that does not involve the receiver's return, and then the return. */
  lemma ReceiverGetsTheAcceptedMessage(st: seq<Party>, send: Event, evs: seq<Event>, st': seq<Party>)
    requires forall i | 0 <= i < |st| :: Matched(st[i])
    requires send.TrySend? && Enabled(st, send) && Accepts(st[send.e].box)
    requires Run(Step(st, send), evs, st') && Return(send.e) !in evs && Reborn(send.e) !in evs
    ensures Enabled(st', Return(send.e))
    ensures Step(st', Return(send.e))[send.e].got == st[send.e].got + [Message(send.from, send.value)]
  {
    StepMatched(st, send);
    WokenKeepsMessage(Step(st, send), evs, st', send.e);
  }

  // ---------------------------------------------------------------- the received permission

  /** lib/ipc.c promises that the stored permission is nonzero exactly when a page was
      transferred.  As env_ipc_perm is never reset, that holds exactly when a page came along
      or the field was already zero before the send. */
  lemma PermTellsPageIff(b: Box, from: int, value: int, page: Page)
    requires page.Sent? ==> page.perm != {}
    ensures (Deliver(b, from, value, page).perm != {} <==> page.Sent?) <==> page.Sent? || b.perm == {}
  {
  }

  /** Somewhere in the run environment slot e accepts a page. */
  ghost predicate TookPage(st: seq<Party>, evs: seq<Event>, st': seq<Party>, e: nat)
    requires Run(st, evs, st') && e < |st|
    decreases |evs|
  {
    evs != [] &&
    (|| (evs[0].TrySend? && evs[0].e == e && evs[0].page.Sent? && Accepts(st[e].box))
     || TookPage(Step(st, evs[0]), evs[1..], st', e))
  }

  /** What sys_ipc_try_send demands of the permissions of a page that it sends. */
  predicate PagesHaveBits(evs: seq<Event>) {
    forall k | 0 <= k < |evs| && evs[k].TrySend? && evs[k].page.Sent? :: evs[k].page.perm != {}
  }

  /** Over every run the stored permission is zero exactly while no page has ever been accepted in
      that slot: neither a new call nor a new environment in the slot clears it. */
  lemma {:induction false} PermZeroIffNoPage(st: seq<Party>, evs: seq<Event>, st': seq<Party>, e: nat)
    requires Run(st, evs, st') && e < |st| && PagesHaveBits(evs)
    ensures |st'| == |st|
    ensures st'[e].box.perm == {} <==> st[e].box.perm == {} && !TookPage(st, evs, st', e)
    decreases |evs|
  {
    if evs != [] {
      PermZeroIffNoPage(Step(st, evs[0]), evs[1..], st', e);
    }
  }

  /** So what ipc_recv reports after a run from a cleared slot is right exactly if the message has
      a page, or no earlier one had. */
  lemma PermTellsPageOverRuns(st: seq<Party>, evs: seq<Event>, st': seq<Party>, send: Event)
    requires Run(st, evs, st') && PagesHaveBits(evs + [send])
    requires send.TrySend? && send.e < |st| && st[send.e].box.perm == {}
    requires |st'| == |st| && Accepts(st'[send.e].box) && send.from > 0
    ensures (Step(st', send)[send.e].box.perm != {} <==> send.page.Sent?)
      <==> (send.page.Sent? || !TookPage(st, evs, st', send.e))
  {
    forall k | 0 <= k < |evs| ensures evs[k] == (evs + [send])[k] {}
    assert (evs + [send])[|evs|] == send;
    PermZeroIffNoPage(st, evs, st', send.e);
    PermTellsPageIff(st'[send.e].box, send.from, send.value, send.page);
  }

  /** A receiver that once got a page sees the old permission again with a plain message. */
  lemma StalePermission()
    ensures var b0 := Box(false, 0, 0, 0, {});
            var b1 := Deliver(Listen(b0, 4096), 4097, 1, Sent({P, U}));
            var b2 := Deliver(Listen(b1, 4096), 4097, 2, NoPage);
            b2.perm == {P, U}
  {
  }
}
