/** lib/pipe.c and lib/fd.c: a pipe's end is taken to be closed when its descriptor page and the
    pipe page have equally many references.  Any number of processes on one CPU duplicate and
    close descriptors and fork, one system call at a time, with context switches anywhere in
    between. */
module PipeClose {
  import opened Sets

  const MAXFD := 32

  /** What is mapped at a descriptor slot's fd page: nothing, the read end's or the write end's
      page of the pipe, or some other file's. */
  datatype Fd = NoFd | ReadEnd | WriteEnd | OtherFd

  /** Where a process is between two of its system calls. */
  datatype Pc =
    | Free                            // no process
    | Embryo                          // a child that is not runnable yet
    | Ready
    | CloseFd(i: nat)                 // devpipe_close: unmap the fd page, then
    | CloseData(i: nat)               // the data page
    | DupStart(o: nat, n: nat)        // dup has looked up the old descriptor
    | DupCloseFd(o: nat, n: nat)      // the new one is open and is closed first
    | DupCloseData(o: nat, n: nat)
    | DupData(o: nat, n: nat)         // map the data page, then
    | DupFd(o: nat, n: nat)           // the fd page
    | DupFailed(n: nat)               // dup's error path: unmap both again
    | DupUndone(n: nat)
    | CheckRuns(i: nat)               // _pipeisclosed: env_runs,
    | CheckFd(i: nat, runs: nat)      // the fd page's count,
    | CheckData(i: nat, runs: nat, fdRefs: nat)                 // the pipe page's count,
    | CheckAgain(i: nat, runs: nat, fdRefs: nat, dataRefs: nat) // env_runs again
    | ForkFd(c: nat, i: nat)          // fork: the fd pages from slot i on, then
    | ForkData(c: nat, i: nat)        // the data pages, which lie above them

  /** A process: its slots' fd pages, whether the pipe page is mapped as their data page, its
      position and env_runs. */
  datatype Proc = Proc(fd: seq<Fd>, data: seq<bool>, pc: Pc, runs: nat)

  datatype State = State(procs: seq<Proc>, running: nat)

  predicate Shape(s: State) {
    && s.running < |s.procs|
    && forall e | 0 <= e < |s.procs| :: |s.procs[e].fd| == MAXFD && |s.procs[e].data| == MAXFD
  }

  /** The mappings of an end's descriptor page, and of the pipe page. */
  function Slots(s: State): set<(nat, nat)> {
    set e, i | 0 <= e < |s.procs| && 0 <= i < MAXFD :: (e, i)
  }

  function FdRefs(s: State, x: Fd): (r: set<(nat, nat)>)
    requires Shape(s)
    ensures forall e: nat, i: nat :: (e, i) in r <==> e < |s.procs| && i < MAXFD && s.procs[e].fd[i] == x
  {
    set p | p in Slots(s) && s.procs[p.0].fd[p.1] == x
  }

  function DataRefs(s: State): (r: set<(nat, nat)>)
    requires Shape(s)
    ensures forall e: nat, i: nat :: (e, i) in r <==> e < |s.procs| && i < MAXFD && s.procs[e].data[i]
  {
    set p | p in Slots(s) && s.procs[p.0].data[p.1]
  }

  predicate IsEnd(x: Fd) {
    x.ReadEnd? || x.WriteEnd?
  }

  function OtherEnd(x: Fd): Fd
    requires IsEnd(x)
  {
    if x.ReadEnd? then WriteEnd else ReadEnd
  }

  // ---------------------------------------------------------------- steps

  datatype Act =
    | Switch(e: nat)                 // the scheduler runs process e, perhaps the same again
    | BeginClose(i: nat)
    | BeginDup(o: nat, n: nat)
    | BeginCheck(i: nat)
    | BeginFork(c: nat)              // sys_exofork has made process c
    | Call(ok: bool)                 // the next system call or load; `ok` is whether a mapping call succeeds
    | Exit                           // the process ends and loses all its mappings

  predicate Enabled(s: State, a: Act)
    requires Shape(s)
  {
    var p := s.procs[s.running];
    match a
    case Switch(e) => e < |s.procs| && Runs(s.procs[e].pc)
    case BeginClose(i) => p.pc.Ready? && i < MAXFD && p.fd[i] != NoFd
    case BeginDup(o, n) => p.pc.Ready? && o < MAXFD && n < MAXFD && p.fd[o] != NoFd
    case BeginCheck(i) => p.pc.Ready? && i < MAXFD && IsEnd(p.fd[i])
    case BeginFork(c) => p.pc.Ready? && c < |s.procs| && s.procs[c].pc.Free?
    case Call(_) => !p.pc.Ready? && Runs(p.pc)
    case Exit => Runs(p.pc)
  }

  predicate Runs(pc: Pc) {
    !pc.Free? && !pc.Embryo?
  }

  predicate Forking(pc: Pc) {
    pc.ForkFd? || pc.ForkData?
  }

  /** Every slot that the position mentions is one. */
  predicate PcOk(pc: Pc) {
    match pc
    case CloseFd(i) => i < MAXFD
    case CloseData(i) => i < MAXFD
    case DupStart(o, n) => o < MAXFD && n < MAXFD
    case DupCloseFd(o, n) => o < MAXFD && n < MAXFD
    case DupCloseData(o, n) => o < MAXFD && n < MAXFD
    case DupData(o, n) => o < MAXFD && n < MAXFD
    case DupFd(o, n) => o < MAXFD && n < MAXFD
    case DupFailed(n) => n < MAXFD
    case DupUndone(n) => n < MAXFD
    case CheckRuns(i) => i < MAXFD
    case CheckFd(i, _) => i < MAXFD
    case CheckData(i, _, _) => i < MAXFD
    case CheckAgain(i, _, _, _) => i < MAXFD
    case ForkFd(_, i) => i <= MAXFD
    case ForkData(_, i) => i <= MAXFD
    case _ => true
  }

  /** One system call, or one load of _pipeisclosed, of the running process. */
  function CallOf(s: State, p: Proc, ok: bool): Proc
    requires Shape(s) && |p.fd| == |p.data| == MAXFD && PcOk(p.pc)
  {
    match p.pc
    case Ready => p
    case CloseFd(i) => p.(fd := p.fd[i := NoFd], pc := CloseData(i))
    case CloseData(i) => p.(data := p.data[i := false], pc := Ready)
    case DupStart(o, n) => p.(pc := if p.fd[n] != NoFd then DupCloseFd(o, n) else DupData(o, n))
    case DupCloseFd(o, n) => p.(fd := p.fd[n := NoFd], pc := DupCloseData(o, n))
    case DupCloseData(o, n) => p.(data := p.data[n := false], pc := DupData(o, n))
    case DupData(o, n) =>
      if !p.data[o] then p.(pc := DupFd(o, n))
      else if ok then p.(data := p.data[n := true], pc := DupFd(o, n))
      else p.(pc := DupFailed(n))
    case DupFd(o, n) =>
      if ok && p.fd[o] != NoFd then p.(fd := p.fd[n := p.fd[o]], pc := Ready) else p.(pc := DupFailed(n))
    case DupFailed(n) => p.(fd := p.fd[n := NoFd], pc := DupUndone(n))
    case DupUndone(n) => p.(data := p.data[n := false], pc := Ready)
    case CheckRuns(i) => p.(pc := CheckFd(i, p.runs))
    case CheckFd(i, n) => p.(pc := CheckData(i, n, |FdRefs(s, p.fd[i])|))
    case CheckData(i, n, f) => p.(pc := CheckAgain(i, n, f, |DataRefs(s)|))
    case CheckAgain(i, n, f, d) => p.(pc := if n == p.runs then Ready else CheckRuns(i))
    case _ => p
  }

  /** One duppage call of fork.  When one fails fork gives up, and the child stays as it is. */
  function ForkCall(s: State, ok: bool): State
    requires Shape(s) && PcOk(s.procs[s.running].pc) && Forking(s.procs[s.running].pc)
    requires s.procs[s.running].pc.c < |s.procs|
  {
    var e, p := s.running, s.procs[s.running];
    var c := p.pc.c;
    var q := s.procs[c];
    match p.pc
    case ForkFd(_, i) =>
      if i == MAXFD then s.(procs := s.procs[e := p.(pc := ForkData(c, 0))])
      else if p.fd[i] == NoFd then s.(procs := s.procs[e := p.(pc := ForkFd(c, i + 1))])
      else if !ok then s.(procs := s.procs[e := p.(pc := Ready)])
      else s.(procs := s.procs[c := q.(fd := q.fd[i := p.fd[i]])][e := p.(pc := ForkFd(c, i + 1))])
    case ForkData(_, i) =>
      if i == MAXFD then s.(procs := s.procs[c := q.(pc := Ready)][e := p.(pc := Ready)])
      else if !p.data[i] then s.(procs := s.procs[e := p.(pc := ForkData(c, i + 1))])
      else if !ok then s.(procs := s.procs[e := p.(pc := Ready)])
      else s.(procs := s.procs[c := q.(data := q.data[i := true])][e := p.(pc := ForkData(c, i + 1))])
  }

  predicate CanStep(s: State, a: Act) {
    && Shape(s) && PcOk(s.procs[s.running].pc) && Enabled(s, a)
    && (Forking(s.procs[s.running].pc) ==> s.procs[s.running].pc.c < |s.procs|)
  }

  function Next(s: State, a: Act): State
    requires CanStep(s, a)
  {
    var p := s.procs[s.running];
    match a
    case Switch(e) => s.(running := e, procs := s.procs[e := s.procs[e].(runs := s.procs[e].runs + 1)])
    case BeginClose(i) => s.(procs := s.procs[s.running := p.(pc := CloseFd(i))])
    case BeginDup(o, n) => s.(procs := s.procs[s.running := p.(pc := DupStart(o, n))])
    case BeginCheck(i) => s.(procs := s.procs[s.running := p.(pc := CheckRuns(i))])
    case BeginFork(c) => s.(procs := s.procs[c := s.procs[c].(pc := Embryo)][s.running := p.(pc := ForkFd(c, 0))])
    case Call(ok) => if Forking(p.pc) then ForkCall(s, ok) else s.(procs := s.procs[s.running := CallOf(s, p, ok)])
    case Exit => s.(procs := s.procs[s.running := Proc(seq(MAXFD, _ => NoFd), seq(MAXFD, _ => false), Free, p.runs)])
  }

  /** The running process is about to return from _pipeisclosed: what it will say. */
  predicate Reports(s: State, closed: bool)
    requires Shape(s)
  {
    var p := s.procs[s.running];
    p.pc.CheckAgain? && p.pc.runs == p.runs && closed == (p.pc.fdRefs == p.pc.dataRefs)
  }

  // ---------------------------------------------------------------- what every step keeps

  /** A slot with an end of the pipe has the pipe page too; the converse holds except for a slot
      whose descriptor is just being closed or duplicated. */
  predicate SlotOk(p: Proc, i: nat)
    requires |p.fd| == |p.data| == MAXFD && i < MAXFD
  {
    && (IsEnd(p.fd[i]) ==> p.data[i])
    && (p.data[i] && !Busy(p.pc, i) ==> IsEnd(p.fd[i]))
  }

  predicate Busy(pc: Pc, i: nat) {
    || pc == CloseData(i) || (pc.DupCloseData? && pc.n == i) || (pc.DupFd? && pc.n == i)
    || pc == DupFailed(i) || pc == DupUndone(i)
  }

  /** What a process knows of its own slots at each position. */
  predicate KnowsOwn(p: Proc)
    requires |p.fd| == |p.data| == MAXFD && PcOk(p.pc)
  {
    match p.pc
    case CloseData(i) => p.fd[i] == NoFd
    case DupCloseData(o, n) => p.fd[n] == NoFd
    case DupData(o, n) => p.fd[n] == NoFd
    case DupFd(o, n) => p.fd[n] == NoFd && (IsEnd(p.fd[o]) ==> p.data[n]) && (p.data[n] ==> IsEnd(p.fd[o]))
    case DupUndone(n) => p.fd[n] == NoFd
    case CheckRuns(i) => IsEnd(p.fd[i])
    case CheckFd(i, _) => IsEnd(p.fd[i])
    case CheckData(i, _, _) => IsEnd(p.fd[i])
    case CheckAgain(i, _, _, _) => IsEnd(p.fd[i])
    case _ => true
  }

  /** If the process has not been scheduled again since, the counts it has read are still right. */
  predicate FreshCounts(s: State, e: nat)
    requires Shape(s) && e < |s.procs|
  {
    var p := s.procs[e];
    PcOk(p.pc) ==>
    match p.pc
    case CheckFd(i, n) => n <= p.runs
    case CheckData(i, n, f) => n <= p.runs && (n == p.runs && e == s.running ==> f == |FdRefs(s, p.fd[i])|)
    case CheckAgain(i, n, f, d) =>
      n <= p.runs && (n == p.runs && e == s.running ==> f == |FdRefs(s, p.fd[i])| && d == |DataRefs(s)|)
    case _ => true
  }

  /** What fork has copied so far. */
  predicate ForkOk(s: State, e: nat)
    requires Shape(s) && e < |s.procs|
  {
    var p := s.procs[e];
    Forking(p.pc) ==>
      && p.pc.c < |s.procs| && p.pc.c != e && s.procs[p.pc.c].pc == Embryo
      && var q := s.procs[p.pc.c];
         forall j | 0 <= j < MAXFD ::
           && q.fd[j] == (if p.pc.ForkData? || j < p.pc.i then p.fd[j] else NoFd)
           && (q.data[j] <==> p.pc.ForkData? && j < p.pc.i && p.data[j])
  }

  predicate Blank(p: Proc)
    requires |p.fd| == |p.data| == MAXFD
  {
    forall i | 0 <= i < MAXFD :: p.fd[i] == NoFd && !p.data[i]
  }

  /** What holds of one process on its own. */
  predicate ProcOk(p: Proc) {
    && |p.fd| == |p.data| == MAXFD && PcOk(p.pc) && KnowsOwn(p) && (p.pc == Free ==> Blank(p))
    && (p.pc != Embryo ==> forall i | 0 <= i < MAXFD :: SlotOk(p, i))
  }

  ghost predicate Inv(s: State) {
    && Shape(s) && s.procs[s.running].pc != Embryo
    && (forall e | 0 <= e < |s.procs| :: ProcOk(s.procs[e]))
    && (forall e | 0 <= e < |s.procs| :: ForkOk(s, e))
    && (forall e, d | 0 <= e < d < |s.procs| && Forking(s.procs[e].pc) && Forking(s.procs[d].pc) ::
          s.procs[e].pc.c != s.procs[d].pc.c)
    && (forall e | 0 <= e < |s.procs| :: FreshCounts(s, e))
  }

  /** No child is being made, or was left half made. */
  predicate NoForkOpen(s: State) {
    forall e | 0 <= e < |s.procs| :: s.procs[e].pc != Embryo
  }

  lemma CallSlots(s: State, p: Proc, ok: bool)
    requires Shape(s) && ProcOk(p) && Runs(p.pc) && !Forking(p.pc)
    ensures var p' := CallOf(s, p, ok); ProcOk(p') && Runs(p'.pc) && !Forking(p'.pc)
  {
    var p' := CallOf(s, p, ok);
    if p.pc.DupData? { assert SlotOk(p, p.pc.o) && SlotOk(p, p.pc.n); }
    forall i | 0 <= i < MAXFD ensures SlotOk(p', i) { assert SlotOk(p, i); }
  }

  lemma InvCanStep(s: State, a: Act)
    requires Inv(s) && Enabled(s, a)
    ensures CanStep(s, a)
  {
    assert ForkOk(s, s.running) && ProcOk(s.procs[s.running]);
  }

  /** A step of fork. */
  predicate ForkStep(s: State, a: Act)
    requires Shape(s)
  {
    a.BeginFork? || (a.Call? && Forking(s.procs[s.running].pc))
  }

  /** Any other step changes one process only, which is not a child being made. */
  lemma PlainStep(s: State, a: Act) returns (x: nat, p: Proc)
    requires Inv(s) && CanStep(s, a) && !ForkStep(s, a)
    ensures x < |s.procs| && s.procs[x].pc != Embryo && ProcOk(p) && p.pc != Embryo
    ensures Forking(p.pc) ==> p.pc == s.procs[x].pc && p.fd == s.procs[x].fd && p.data == s.procs[x].data
    ensures var s' := Next(s, a);
            && s' == s.(running := s'.running, procs := s.procs[x := p])
            && s'.running < |s.procs| && s'.procs[s'.running].pc != Embryo
  {
    hide ForkOk;
    hide FreshCounts;
    x := if a.Switch? then a.e else s.running;
    assert ProcOk(s.procs[x]);
    if a.Call? { CallSlots(s, s.procs[x], a.ok); }
    p := Next(s, a).procs[x];
    if !a.Call? && !a.Exit? {
      forall i | 0 <= i < MAXFD ensures SlotOk(p, i) { assert SlotOk(s.procs[x], i); }
    }
  }

  /** The forks that go on are not affected when some process changes that is not their child. */
  lemma OtherForks(s: State, s': State, x: nat)
    requires Inv(s) && Shape(s') && |s'.procs| == |s.procs| && x < |s.procs| && s.procs[x].pc != Embryo
    requires forall d | 0 <= d < |s.procs| && d != x :: s'.procs[d] == s.procs[d]
    requires Forking(s'.procs[x].pc) ==>
               s'.procs[x].pc == s.procs[x].pc && s'.procs[x].fd == s.procs[x].fd && s'.procs[x].data == s.procs[x].data
    ensures forall d | 0 <= d < |s.procs| :: ForkOk(s', d)
    ensures forall e, d | 0 <= e < d < |s.procs| && Forking(s'.procs[e].pc) && Forking(s'.procs[d].pc) ::
              s'.procs[e].pc.c != s'.procs[d].pc.c
  {
    hide ProcOk;
    hide FreshCounts;
    forall d | 0 <= d < |s.procs| ensures ForkOk(s', d) { assert ForkOk(s, d); }
  }

  /** The child of a fork. */
  function ChildOf(s: State, a: Act): nat
    requires Shape(s) && ForkStep(s, a)
  {
    if a.BeginFork? then a.c else s.procs[s.running].pc.c
  }

  /** The parent after a step of fork. */
  lemma ForkParent(s: State, a: Act)
    requires Inv(s) && CanStep(s, a) && ForkStep(s, a)
    ensures var s', r := Next(s, a), s.running;
            && Shape(s') && |s'.procs| == |s.procs| && s'.running == r && ChildOf(s, a) < |s.procs|
            && ChildOf(s, a) != r
            && ProcOk(s'.procs[r]) && Runs(s'.procs[r].pc)
            && forall d | 0 <= d < |s.procs| && d != r && d != ChildOf(s, a) :: s'.procs[d] == s.procs[d]
  {
    hide FreshCounts;
    hide SlotOk;
    hide KnowsOwn;
    hide Blank;
    var s', r := Next(s, a), s.running;
    assert ForkOk(s, r) && ProcOk(s.procs[r]);
    SameSlots(s.procs[r], s'.procs[r]);
  }

  lemma SameSlots(p: Proc, p': Proc)
    requires ProcOk(p) && p.pc != Embryo && p'.fd == p.fd && p'.data == p.data && PcOk(p'.pc)
    requires p.pc == Ready || Forking(p.pc)
    requires p'.pc == Ready || Forking(p'.pc)
    ensures ProcOk(p')
  {
    forall i | 0 <= i < MAXFD ensures SlotOk(p', i) { assert SlotOk(p, i); }
  }

  /** The child after a step of fork. */
  lemma ForkChild(s: State, a: Act)
    requires Inv(s) && CanStep(s, a) && ForkStep(s, a) && ChildOf(s, a) < |s.procs| && ChildOf(s, a) != s.running
    requires |Next(s, a).procs| == |s.procs|
    ensures ProcOk(Next(s, a).procs[ChildOf(s, a)])
  {
    hide FreshCounts;
    var r, c := s.running, ChildOf(s, a);
    var q := Next(s, a).procs[c];
    assert ForkOk(s, r) && ProcOk(s.procs[r]) && ProcOk(s.procs[c]);
    if q.pc != Embryo {
      forall i | 0 <= i < MAXFD ensures SlotOk(q, i) { assert SlotOk(s.procs[r], i); }
    }
  }

  /** The processes after a step of fork. */
  lemma ForkProcs(s: State, a: Act)
    requires Inv(s) && CanStep(s, a) && ForkStep(s, a)
    ensures var s' := Next(s, a);
            && Shape(s') && |s'.procs| == |s.procs| && s'.procs[s'.running].pc != Embryo
            && forall d | 0 <= d < |s.procs| :: ProcOk(s'.procs[d])
  {
    hide FreshCounts;
    hide ForkOk;
    hide ProcOk;
    hide Next;
    ForkParent(s, a);
    ForkChild(s, a);
  }

  /** The fork itself. */
  lemma ForkSelf(s: State, a: Act)
    requires Inv(s) && CanStep(s, a) && ForkStep(s, a) && ChildOf(s, a) < |s.procs| && ChildOf(s, a) != s.running
    requires Shape(Next(s, a))
    requires |Next(s, a).procs| == |s.procs|
    ensures ForkOk(Next(s, a), s.running)
    ensures Forking(Next(s, a).procs[s.running].pc) ==> Next(s, a).procs[s.running].pc.c == ChildOf(s, a)
    ensures !Forking(Next(s, a).procs[ChildOf(s, a)].pc)
  {
    hide FreshCounts;
    hide KnowsOwn;
    hide SlotOk;
    assert ForkOk(s, s.running) && ProcOk(s.procs[s.running]) && ProcOk(s.procs[ChildOf(s, a)]);
  }

  /** A fork in another process has another child. */
  lemma OtherChild(s: State, a: Act, e: nat)
    requires Inv(s) && CanStep(s, a) && ForkStep(s, a) && e < |s.procs| && e != s.running && Forking(s.procs[e].pc)
    ensures ForkOk(s, e) && s.procs[e].pc.c != ChildOf(s, a) && s.procs[e].pc.c != s.running && e != ChildOf(s, a)
  {
    hide FreshCounts;
    hide ProcOk;
    assert ForkOk(s, e) && ForkOk(s, s.running);
    assert Forking(s.procs[s.running].pc) ==> s.procs[s.running].pc.c != s.procs[e].pc.c;
  }

  /** What a step of fork does to the forks. */
  lemma ForkForks(s: State, a: Act, e: nat)
    requires Inv(s) && CanStep(s, a) && ForkStep(s, a) && e < |s.procs|
    ensures var s' := Next(s, a); Shape(s') && |s'.procs| == |s.procs| && ForkOk(s', e)
    ensures Forking(Next(s, a).procs[e].pc) ==>
              if e == s.running then Next(s, a).procs[e].pc.c == ChildOf(s, a)
              else Next(s, a).procs[e].pc == s.procs[e].pc && s.procs[e].pc.c != ChildOf(s, a)
  {
    hide FreshCounts;
    hide ProcOk;
    hide Next;
    ForkParent(s, a);
    ForkSelf(s, a);
    if e != s.running && Forking(s.procs[e].pc) { OtherChild(s, a, e); }
  }

  /** The other processes' counts: they have not run since, or will notice that they have. */
  lemma StepFresh(s: State, a: Act, e: nat)
    requires Inv(s) && CanStep(s, a) && e < |s.procs| && Shape(Next(s, a)) && |Next(s, a).procs| == |s.procs|
    ensures FreshCounts(Next(s, a), e)
  {
    hide SlotOk;
    hide KnowsOwn;
    hide Blank;
    var s' := Next(s, a);
    var p := s.procs[e];
    assert FreshCounts(s, e) && ForkOk(s, s.running) && ProcOk(p);
    if e == s.running && a.Call? && (p.pc.CheckFd? || p.pc.CheckData?) {
      SameRefs(s, s', p.fd[p.pc.i]);
    }
  }

  /** A step that changes no mapping changes no count. */
  lemma SameRefs(s: State, s': State, x: Fd)
    requires Shape(s) && Shape(s') && |s'.procs| == |s.procs|
    requires forall e | 0 <= e < |s.procs| :: s'.procs[e].fd == s.procs[e].fd && s'.procs[e].data == s.procs[e].data
    ensures FdRefs(s', x) == FdRefs(s, x) && DataRefs(s') == DataRefs(s)
  {
  }

  lemma StepInv(s: State, a: Act)
    requires Inv(s) && Enabled(s, a)
    ensures CanStep(s, a) && Inv(Next(s, a))
  {
    hide FreshCounts;
    hide ForkOk;
    hide ProcOk;
    InvCanStep(s, a);
    var s' := Next(s, a);
    if ForkStep(s, a) {
      ForkProcs(s, a);
      forall e | 0 <= e < |s.procs|
        ensures ForkOk(s', e)
        ensures Forking(s'.procs[e].pc) ==>
                  if e == s.running then s'.procs[e].pc.c == ChildOf(s, a)
                  else s'.procs[e].pc == s.procs[e].pc && s.procs[e].pc.c != ChildOf(s, a) {
        ForkForks(s, a, e);
      }
    } else {
      var x, p := PlainStep(s, a);
      PlainShape(s, x, p, s');
      OtherForks(s, s', x);
    }
    forall e | 0 <= e < |s.procs| ensures FreshCounts(s', e) { StepFresh(s, a, e); }
  }

  lemma PlainShape(s: State, x: nat, p: Proc, s': State)
    requires Inv(s) && x < |s.procs| && ProcOk(p) && s' == s.(running := s'.running, procs := s.procs[x := p])
    requires s'.running < |s.procs|
    ensures Shape(s') && |s'.procs| == |s.procs| && forall d | 0 <= d < |s.procs| :: ProcOk(s'.procs[d])
  {
    hide ForkOk;
    hide FreshCounts;
  }

  // ---------------------------------------------------------------- what the counts say

  /** The pipe page has at least as many references as the two ends together, ... */
  lemma EndsBelowData(s: State)
    requires Inv(s) && NoForkOpen(s)
    ensures |FdRefs(s, ReadEnd)| + |FdRefs(s, WriteEnd)| <= |DataRefs(s)|
  {
    var ends := FdRefs(s, ReadEnd) + FdRefs(s, WriteEnd);
    assert FdRefs(s, ReadEnd) !! FdRefs(s, WriteEnd);
    forall p | p in ends ensures p in DataRefs(s) { assert ProcOk(s.procs[p.0]) && SlotOk(s.procs[p.0], p.1); }
    SubsetCount(ends, DataRefs(s));
  }

  /** Nobody is in the middle of a dup or a close. */
  predicate Quiet(s: State) {
    forall e | 0 <= e < |s.procs| ::
      var pc := s.procs[e].pc; pc.Free? || pc.Ready? || pc.CheckRuns? || pc.CheckFd? || pc.CheckData? || pc.CheckAgain?
  }

  /** ... and exactly as many when nobody is in the middle of a dup or a close. */
  lemma EndsEqualData(s: State)
    requires Inv(s) && NoForkOpen(s) && Quiet(s)
    ensures |FdRefs(s, ReadEnd)| + |FdRefs(s, WriteEnd)| == |DataRefs(s)|
  {
    var ends := FdRefs(s, ReadEnd) + FdRefs(s, WriteEnd);
    assert FdRefs(s, ReadEnd) !! FdRefs(s, WriteEnd);
    forall e: nat, i: nat ensures (e, i) in ends <==> (e, i) in DataRefs(s) {
      if e < |s.procs| && i < MAXFD { assert ProcOk(s.procs[e]) && SlotOk(s.procs[e], i); }
    }
    assert ends == DataRefs(s);
  }

  // ---------------------------------------------------------------- runs

  /** pipe() has returned in process 0, with the ends in slots r and w; the other processes have
      nothing to do with the pipe. */
  predicate JustMade(s: State, r: nat, w: nat) {
    && Shape(s) && s.running == 0 && r < MAXFD && w < MAXFD && r != w
    && s.procs[0].fd[r] == ReadEnd && s.procs[0].fd[w] == WriteEnd
    && s.procs[0].pc == Ready
    && (forall e | 0 <= e < |s.procs| :: s.procs[e].pc == Ready || (s.procs[e].pc == Free && Blank(s.procs[e])))
    && (forall e, i | 0 <= e < |s.procs| && 0 <= i < MAXFD && !(e == 0 && (i == r || i == w)) ::
          !IsEnd(s.procs[e].fd[i]))
    && (forall e, i | 0 <= e < |s.procs| && 0 <= i < MAXFD :: s.procs[e].data[i] <==> e == 0 && (i == r || i == w))
  }

  lemma JustMadeInv(s: State, r: nat, w: nat)
    requires JustMade(s, r, w)
    ensures Inv(s)
  {
  }

  ghost predicate Possible(s: State, acts: seq<Act>)
    decreases |acts|
  {
    acts == [] || (CanStep(s, acts[0]) && Possible(Next(s, acts[0]), acts[1..]))
  }

  ghost function After(s: State, acts: seq<Act>): State
    requires Possible(s, acts)
    decreases |acts|
  {
    if acts == [] then s else After(Next(s, acts[0]), acts[1..])
  }

  lemma {:induction false} RunInv(s: State, acts: seq<Act>)
    requires Inv(s) && Possible(s, acts)
    ensures Inv(After(s, acts))
    decreases |acts|
  {
    if acts != [] {
      StepInv(s, acts[0]);
      RunInv(Next(s, acts[0]), acts[1..]);
    }
  }

  /** Closure detection: _pipeisclosed never says "closed" while the other end is open in any
      process, unless a fork is going on or has failed, and is exact when no dup or close is in
      flight. */
  lemma ClosureDetection(s0: State, r: nat, w: nat, acts: seq<Act>, closed: bool)
    requires JustMade(s0, r, w) && Possible(s0, acts)
    requires var s := After(s0, acts); Shape(s) && Reports(s, closed) && NoForkOpen(s)
    ensures var s := After(s0, acts);
            var p := s.procs[s.running];
            && p.pc.i < MAXFD && IsEnd(p.fd[p.pc.i])
            && (closed ==> FdRefs(s, OtherEnd(p.fd[p.pc.i])) == {})
            && (Quiet(s) ==> (closed <==> FdRefs(s, OtherEnd(p.fd[p.pc.i])) == {}))
  {
    JustMadeInv(s0, r, w);
    RunInv(s0, acts);
    ReportsRightly(After(s0, acts), closed);
  }

  lemma ReportsRightly(s: State, closed: bool)
    requires Inv(s) && Reports(s, closed) && NoForkOpen(s)
    ensures var p := s.procs[s.running];
            && p.pc.i < MAXFD && IsEnd(p.fd[p.pc.i])
            && (closed ==> FdRefs(s, OtherEnd(p.fd[p.pc.i])) == {})
            && (Quiet(s) ==> (closed <==> FdRefs(s, OtherEnd(p.fd[p.pc.i])) == {}))
  {
    assert FreshCounts(s, s.running) && ProcOk(s.procs[s.running]);
    hide Inv;
    hide FdRefs;
    hide DataRefs;
    EndsBelowData(s);
    if Quiet(s) { EndsEqualData(s); }
  }

  /** A check returns exactly with counts that belong together; otherwise it starts over. */
  lemma CheckEnds(s: State, ok: bool)
    requires Inv(s) && s.procs[s.running].pc.CheckAgain? && CanStep(s, Call(ok))
    ensures var p, p' := s.procs[s.running], Next(s, Call(ok)).procs[s.running];
            && (p'.pc == Ready <==> Reports(s, true) || Reports(s, false))
            && (p'.pc != Ready ==> p'.pc == CheckRuns(p.pc.i))
  {
  }

  // ---------------------------------------------------------------- fork

  /** fork in the running process has mapped the first k fd pages into child c. */
  function MidFork(s: State, c: nat, k: nat): State
    requires Shape(s) && c < |s.procs| && k <= MAXFD
  {
    var p, q := s.procs[s.running], s.procs[c];
    s.(procs := s.procs[c := q.(pc := Embryo, fd := p.fd[..k] + q.fd[k..])][s.running := p.(pc := ForkFd(c, k))])
  }

  /** It has mapped all of them and the first k data pages. */
  function LateFork(s: State, c: nat, k: nat): State
    requires Shape(s) && c < |s.procs| && k <= MAXFD
  {
    var p, q := s.procs[s.running], s.procs[c];
    var child := q.(pc := Embryo, fd := p.fd, data := p.data[..k] + q.data[k..]);
    s.(procs := s.procs[c := child][s.running := p.(pc := ForkData(c, k))])
  }

  function Forked(s: State, c: nat): State
    requires Shape(s) && c < |s.procs|
  {
    var p, q := s.procs[s.running], s.procs[c];
    s.(procs := s.procs[c := q.(pc := Ready, fd := p.fd, data := p.data)][s.running := p.(pc := Ready)])
  }

  predicate CanFork(s: State, c: nat) {
    && Shape(s) && c < |s.procs| && c != s.running
    && s.procs[s.running].pc == Ready && s.procs[c].pc == Free && Blank(s.procs[c])
  }

  lemma ForkBegins(s: State, c: nat)
    requires CanFork(s, c)
    ensures CanStep(s, BeginFork(c)) && Next(s, BeginFork(c)) == MidFork(s, c, 0)
  {
    assert s.procs[s.running].fd[..0] + s.procs[c].fd[0..] == s.procs[c].fd;
  }

  lemma ForkGoesOn(s: State, c: nat, k: nat)
    requires CanFork(s, c) && k < MAXFD
    ensures CanStep(MidFork(s, c, k), Call(true)) && Next(MidFork(s, c, k), Call(true)) == MidFork(s, c, k + 1)
  {
    var p, q := s.procs[s.running], s.procs[c];
    assert p.fd[..k + 1] + q.fd[k + 1..] == (p.fd[..k] + q.fd[k..])[k := p.fd[k]];
    assert p.fd[k] == NoFd ==> p.fd[..k + 1] + q.fd[k + 1..] == p.fd[..k] + q.fd[k..];
  }

  lemma ForkTurns(s: State, c: nat)
    requires CanFork(s, c)
    ensures CanStep(MidFork(s, c, MAXFD), Call(true)) && Next(MidFork(s, c, MAXFD), Call(true)) == LateFork(s, c, 0)
  {
    var p, q := s.procs[s.running], s.procs[c];
    assert p.fd[..MAXFD] + q.fd[MAXFD..] == p.fd && p.data[..0] + q.data[0..] == q.data;
  }

  lemma ForkEnding(s: State, c: nat, k: nat)
    requires CanFork(s, c) && k < MAXFD
    ensures CanStep(LateFork(s, c, k), Call(true)) && Next(LateFork(s, c, k), Call(true)) == LateFork(s, c, k + 1)
  {
    var p, q := s.procs[s.running], s.procs[c];
    assert p.data[..k + 1] + q.data[k + 1..] == (p.data[..k] + q.data[k..])[k := p.data[k]];
    assert !p.data[k] ==> p.data[..k + 1] + q.data[k + 1..] == p.data[..k] + q.data[k..];
  }

  lemma ForkEnds(s: State, c: nat)
    requires CanFork(s, c)
    ensures CanStep(LateFork(s, c, MAXFD), Call(true)) && Next(LateFork(s, c, MAXFD), Call(true)) == Forked(s, c)
  {
    var p, q := s.procs[s.running], s.procs[c];
    assert p.data[..MAXFD] + q.data[MAXFD..] == p.data;
  }

  lemma {:induction false} OneMore(s: State, acts: seq<Act>, a: Act)
    requires Possible(s, acts) && CanStep(After(s, acts), a)
    ensures Possible(s, acts + [a]) && After(s, acts + [a]) == Next(After(s, acts), a)
    decreases |acts|
  {
    if acts != [] {
      assert (acts + [a])[1..] == acts[1..] + [a];
      OneMore(Next(s, acts[0]), acts[1..], a);
    } else {
      assert [a][1..] == [];
    }
  }

  /** A run of fork up to the first k fd pages. */
  lemma {:induction false} ForkPart(s0: State, acts0: seq<Act>, c: nat, k: nat) returns (acts: seq<Act>)
    requires Possible(s0, acts0) && CanFork(After(s0, acts0), c) && k <= MAXFD
    ensures Possible(s0, acts) && After(s0, acts) == MidFork(After(s0, acts0), c, k)
    decreases k
  {
    hide Possible;
    hide After;
    hide MidFork;
    var s := After(s0, acts0);
    if k == 0 {
      ForkBegins(s, c);
      OneMore(s0, acts0, BeginFork(c));
      acts := acts0 + [BeginFork(c)];
    } else {
      var part := ForkPart(s0, acts0, c, k - 1);
      ForkGoesOn(s, c, k - 1);
      OneMore(s0, part, Call(true));
      acts := part + [Call(true)];
    }
  }

  lemma {:induction false} ForkLate(s0: State, acts0: seq<Act>, c: nat, k: nat) returns (acts: seq<Act>)
    requires Possible(s0, acts0) && CanFork(After(s0, acts0), c) && k <= MAXFD
    ensures Possible(s0, acts) && After(s0, acts) == LateFork(After(s0, acts0), c, k)
    decreases k
  {
    hide Possible;
    hide After;
    hide MidFork;
    hide LateFork;
    var s := After(s0, acts0);
    var part;
    if k == 0 {
      part := ForkPart(s0, acts0, c, MAXFD);
      ForkTurns(s, c);
    } else {
      part := ForkLate(s0, acts0, c, k - 1);
      ForkEnding(s, c, k - 1);
    }
    OneMore(s0, part, Call(true));
    acts := part + [Call(true)];
  }

  /** A whole fork: the child has what the parent has. */
  lemma ForkAll(s0: State, acts0: seq<Act>, c: nat) returns (acts: seq<Act>)
    requires Possible(s0, acts0) && CanFork(After(s0, acts0), c)
    ensures Possible(s0, acts) && After(s0, acts) == Forked(After(s0, acts0), c)
  {
    hide Possible;
    hide After;
    var part := ForkLate(s0, acts0, c, MAXFD);
    ForkEnds(After(s0, acts0), c);
    OneMore(s0, part, Call(true));
    acts := part + [Call(true)];
  }

  /** Process e is scheduled and closes slot i. */
  lemma CloseRun(s0: State, acts0: seq<Act>, e: nat, i: nat) returns (acts: seq<Act>)
    requires Possible(s0, acts0)
    requires var s := After(s0, acts0);
             && Shape(s) && e < |s.procs| && s.procs[e].pc == Ready && PcOk(s.procs[s.running].pc)
             && i < MAXFD && s.procs[e].fd[i] != NoFd
    requires var s := After(s0, acts0); !Forking(s.procs[s.running].pc)
    ensures Possible(s0, acts)
    ensures After(s0, acts) == Closed(After(s0, acts0), e, i)
  {
    hide Possible;
    hide After;
    acts := acts0;
    OneMore(s0, acts, Switch(e));
    acts := acts + [Switch(e)];
    OneMore(s0, acts, BeginClose(i));
    acts := acts + [BeginClose(i)];
    OneMore(s0, acts, Call(true));
    acts := acts + [Call(true)];
    OneMore(s0, acts, Call(true));
    acts := acts + [Call(true)];
  }

  // ---------------------------------------------------------------- dup

  /** What dup of slot o to slot n has done to a process that was like p0 when it began, at each of
      its positions; `good` is whether no mapping call has failed. */
  predicate DupAt(p0: Proc, o: nat, n: nat, good: bool, p: Proc)
    requires |p0.fd| == |p0.data| == MAXFD && o < MAXFD && n < MAXFD
  {
    && |p.fd| == |p.data| == MAXFD
    && (forall i | 0 <= i < MAXFD && i != n :: p.fd[i] == p0.fd[i] && p.data[i] == p0.data[i])
    && match p.pc
       case DupStart(o', n') => good && (o', n') == (o, n)
       case DupCloseFd(o', n') => good && (o', n') == (o, n)
       case DupCloseData(o', n') => good && (o', n') == (o, n) && p.fd[n] == NoFd
       case DupData(o', n') => good && (o', n') == (o, n) && p.fd[n] == NoFd && !p.data[n]
       case DupFd(o', n') => good && (o', n') == (o, n) && p.fd[n] == NoFd && p.data[n] == p0.data[o]
       case DupFailed(n') => n' == n && !good
       case DupUndone(n') => n' == n && !good && p.fd[n] == NoFd
       case Ready =>
         if good then p.fd[n] == p0.fd[o] && p.data[n] == p0.data[o]
         else p.fd[n] == NoFd && !p.data[n]
       case _ => false
  }

  /** The step is a mapping call of process e that fails. */
  predicate Fails(s: State, a: Act, e: nat)
    requires Shape(s)
  {
    a == Call(false) && s.running == e && (s.procs[e].pc.DupFd? || DataCall(s.procs[e]))
  }

  predicate DataCall(p: Proc) {
    p.pc.DupData? && p.pc.o < |p.data| && p.data[p.pc.o]
  }

  /** Every step, of that process or of another one, goes along with that. */
  lemma DupStep(s: State, a: Act, e: nat, p0: Proc, o: nat, n: nat, good: bool)
    requires Inv(s) && CanStep(s, a) && e < |s.procs| && s.procs[e].pc != Ready && !(a.Exit? && s.running == e)
    requires |p0.fd| == |p0.data| == MAXFD && o < MAXFD && n < MAXFD && o != n && p0.fd[o] != NoFd
    requires DupAt(p0, o, n, good, s.procs[e])
    ensures Shape(Next(s, a)) && e < |Next(s, a).procs|
    ensures DupAt(p0, o, n, good && !Fails(s, a, e), Next(s, a).procs[e])
  {
    hide FreshCounts;
    hide DupAt;
    hide ForkCall;
    StepInv(s, a);
    DupNotFork(p0, o, n, good, s.procs[e]);
    if s.running == e && a.Call? {
      assert ProcOk(s.procs[e]);
      DupCall(s, s.procs[e], a.ok, p0, o, n, good);
    } else {
      OthersLeaveSlots(s, a, e);
      DupSame(p0, o, n, good, s.procs[e], Next(s, a).procs[e]);
    }
  }

  lemma DupNotFork(p0: Proc, o: nat, n: nat, good: bool, p: Proc)
    requires |p0.fd| == |p0.data| == MAXFD && o < MAXFD && n < MAXFD && DupAt(p0, o, n, good, p) && p.pc != Ready
    ensures Runs(p.pc) && !Forking(p.pc)
  {
  }

  /** Where a process is, and its slots, are its own affair, once it runs. */
  lemma OthersLeaveSlots(s: State, a: Act, e: nat)
    requires Inv(s) && CanStep(s, a) && e < |s.procs| && s.procs[e].pc != Ready && Runs(s.procs[e].pc)
    requires s.running != e || (!a.Call? && !a.Exit?)
    ensures var p, s' := s.procs[e], Next(s, a);
            |s'.procs| == |s.procs| && s'.procs[e].fd == p.fd && s'.procs[e].data == p.data && s'.procs[e].pc == p.pc
  {
    hide FreshCounts;
    hide ProcOk;
    assert ForkOk(s, s.running);
  }

  lemma DupSame(p0: Proc, o: nat, n: nat, good: bool, p: Proc, p': Proc)
    requires |p0.fd| == |p0.data| == MAXFD && o < MAXFD && n < MAXFD && DupAt(p0, o, n, good, p)
    requires p'.fd == p.fd && p'.data == p.data && p'.pc == p.pc
    ensures DupAt(p0, o, n, good, p')
  {
  }

  lemma DupCall(s: State, p: Proc, ok: bool, p0: Proc, o: nat, n: nat, good: bool)
    requires Shape(s) && ProcOk(p) && p.pc != Ready
    requires |p0.fd| == |p0.data| == MAXFD && o < MAXFD && n < MAXFD && o != n && p0.fd[o] != NoFd
    requires DupAt(p0, o, n, good, p)
    ensures DupAt(p0, o, n, good && (ok || !(p.pc.DupFd? || DataCall(p))), CallOf(s, p, ok))
  {
    assert SlotOk(p, n) && p.fd[o] == p0.fd[o] && p.data[o] == p0.data[o];
  }

  /** Process e is still at it before each of the steps. */
  ghost predicate Dupping(s: State, acts: seq<Act>, e: nat)
    requires Possible(s, acts)
    decreases |acts|
  {
    acts == [] ||
    (&& e < |s.procs| && s.procs[e].pc != Ready && !(acts[0].Exit? && s.running == e)
     && Dupping(Next(s, acts[0]), acts[1..], e))
  }

  /** No mapping call of process e fails. */
  ghost predicate NoFailure(s: State, acts: seq<Act>, e: nat)
    requires Possible(s, acts)
    decreases |acts|
  {
    acts == [] || (!Fails(s, acts[0], e) && NoFailure(Next(s, acts[0]), acts[1..], e))
  }

  lemma {:induction false} DupGoesOn(s: State, acts: seq<Act>, e: nat, p0: Proc, o: nat, n: nat, good: bool)
    requires Inv(s) && Possible(s, acts) && Dupping(s, acts, e) && e < |s.procs|
    requires |p0.fd| == |p0.data| == MAXFD && o < MAXFD && n < MAXFD && o != n && p0.fd[o] != NoFd
    requires DupAt(p0, o, n, good, s.procs[e])
    ensures e < |After(s, acts).procs| && DupAt(p0, o, n, good && NoFailure(s, acts, e), After(s, acts).procs[e])
    decreases |acts|
  {
    hide DupAt;
    if acts != [] {
      DupStep(s, acts[0], e, p0, o, n, good);
      StepInv(s, acts[0]);
      DupGoesOn(Next(s, acts[0]), acts[1..], e, p0, o, n, good && !Fails(s, acts[0], e));
    }
  }

  /** dup, whatever the other processes do meanwhile: if no call failed the new slot is what the old
      one is, and otherwise it is empty; the process's other slots are as they were. */
  lemma DupOverRuns(s: State, acts: seq<Act>, e: nat)
    requires Inv(s) && Possible(s, acts) && Dupping(s, acts, e) && e < |s.procs|
    requires s.procs[e].pc.DupStart? && s.procs[e].pc.o != s.procs[e].pc.n && s.procs[e].fd[s.procs[e].pc.o] != NoFd
    requires e < |After(s, acts).procs| && After(s, acts).procs[e].pc == Ready
    ensures var p, p', o, n := s.procs[e], After(s, acts).procs[e], s.procs[e].pc.o, s.procs[e].pc.n;
            && |p'.fd| == |p'.data| == MAXFD
            && (forall i | 0 <= i < MAXFD && i != n :: p'.fd[i] == p.fd[i] && p'.data[i] == p.data[i])
            && (NoFailure(s, acts, e) ==> p'.fd[n] == p.fd[o] && p'.data[n] == p.data[o])
            && (!NoFailure(s, acts, e) ==> p'.fd[n] == NoFd && !p'.data[n])
  {
    assert ProcOk(s.procs[e]);
    DupGoesOn(s, acts, e, s.procs[e], s.procs[e].pc.o, s.procs[e].pc.n, true);
  }

  /** What a dup by process e of slot o to slot n leads to. */
  predicate Dupped(s: State, s': State, e: nat, o: nat, n: nat)
    requires Shape(s) && e < |s.procs| && o < MAXFD && n < MAXFD
  {
    && Shape(s') && |s'.procs| == |s.procs|
    && (forall d | 0 <= d < |s.procs| && d != e :: s'.procs[d] == s.procs[d])
    && (forall i | 0 <= i < MAXFD && i != n ::
          s'.procs[e].fd[i] == s.procs[e].fd[i] && s'.procs[e].data[i] == s.procs[e].data[i])
    && s'.procs[e].fd[n] == s.procs[e].fd[o] && s'.procs[e].data[n] == s.procs[e].data[o]
  }

  /** The descriptor's page gains exactly the new slot as a reference, unless that had it before. */
  lemma DupCounts(s: State, s': State, e: nat, o: nat, n: nat)
    requires Shape(s) && e < |s.procs| && o < MAXFD && n < MAXFD && Dupped(s, s', e, o, n)
    ensures FdRefs(s', s.procs[e].fd[o]) == FdRefs(s, s.procs[e].fd[o]) + {(e, n)}
    ensures s.procs[e].fd[n] != s.procs[e].fd[o] ==>
              |FdRefs(s', s.procs[e].fd[o])| == |FdRefs(s, s.procs[e].fd[o])| + 1
    ensures forall x | x != s.procs[e].fd[o] :: FdRefs(s', x) == FdRefs(s, x) - {(e, n)}
  {
    var x := s.procs[e].fd[o];
    assert FdRefs(s', x) == FdRefs(s, x) + {(e, n)};
    forall y | y != x ensures FdRefs(s', y) == FdRefs(s, y) - {(e, n)} {}
  }

  /** Process e goes on until its dup is done, with all calls succeeding. */
  lemma {:induction false} DupToEnd(s0: State, acts0: seq<Act>, e: nat, left: nat) returns (acts: seq<Act>)
    requires Possible(s0, acts0)
    requires var s := After(s0, acts0);
             && Shape(s) && s.running == e && PcOk(s.procs[e].pc) && left == StepsLeft(s.procs[e].pc) && left > 0
             && s.procs[e].pc.o != s.procs[e].pc.n && s.procs[e].fd[s.procs[e].pc.o] != NoFd
             && (s.procs[e].pc.DupCloseFd? || s.procs[e].pc.DupStart? || s.procs[e].fd[s.procs[e].pc.n] == NoFd)
             && (s.procs[e].fd[s.procs[e].pc.n] == NoFd && !s.procs[e].pc.DupCloseData? && !s.procs[e].pc.DupFd? ==>
                   !s.procs[e].data[s.procs[e].pc.n])
             && (s.procs[e].pc.DupFd? ==> s.procs[e].data[s.procs[e].pc.n] == s.procs[e].data[s.procs[e].pc.o])
    ensures Possible(s0, acts) && After(s0, acts).running == e && e < |After(s0, acts).procs|
    ensures After(s0, acts).procs[e].pc == Ready
    ensures var s := After(s0, acts0); Dupped(s, After(s0, acts), e, s.procs[e].pc.o, s.procs[e].pc.n)
    decreases left
  {
    hide Possible;
    hide After;
    var s := After(s0, acts0);
    OneMore(s0, acts0, Call(true));
    acts := acts0 + [Call(true)];
    var t := Next(s, Call(true));
    assert t.procs[e] == CallOf(s, s.procs[e], true);
    if left > 1 {
      acts := DupToEnd(s0, acts, e, StepsLeft(t.procs[e].pc));
    }
  }

  function StepsLeft(pc: Pc): nat {
    match pc
    case DupStart(_, _) => 5
    case DupCloseFd(_, _) => 4
    case DupCloseData(_, _) => 3
    case DupData(_, _) => 2
    case DupFd(_, _) => 1
    case _ => 0
  }

  /** The running process duplicates slot o to slot n and nobody interrupts it. */
  lemma DupRun(s0: State, acts0: seq<Act>, o: nat, n: nat) returns (acts: seq<Act>)
    requires Possible(s0, acts0) && Inv(After(s0, acts0)) && o < MAXFD && n < MAXFD && o != n
    requires var s := After(s0, acts0); s.procs[s.running].pc == Ready && s.procs[s.running].fd[o] != NoFd
    ensures Possible(s0, acts)
    ensures var s, s' := After(s0, acts0), After(s0, acts);
            && Dupped(s, s', s.running, o, n) && s'.running == s.running && s'.procs[s.running].pc == Ready
            && FdRefs(s', s.procs[s.running].fd[o]) == FdRefs(s, s.procs[s.running].fd[o]) + {(s.running, n)}
  {
    hide Possible;
    hide After;
    hide FdRefs;
    hide ForkOk;
    hide FreshCounts;
    var s := After(s0, acts0);
    var e := s.running;
    assert ProcOk(s.procs[e]) && SlotOk(s.procs[e], n);
    OneMore(s0, acts0, BeginDup(o, n));
    acts := acts0 + [BeginDup(o, n)];
    acts := DupToEnd(s0, acts, e, 5);
    DupCounts(s, After(s0, acts), e, o, n);
  }

  /** dup of a slot to itself closes it first, and so loses it. */
  lemma DupToItself(s: State, acts: seq<Act>, e: nat)
    requires Inv(s) && Possible(s, acts) && Dupping(s, acts, e) && e < |s.procs|
    requires s.procs[e].pc.DupStart? && s.procs[e].pc.o == s.procs[e].pc.n && s.procs[e].fd[s.procs[e].pc.o] != NoFd
    requires e < |After(s, acts).procs| && After(s, acts).procs[e].pc == Ready
    ensures var p, p', n := s.procs[e], After(s, acts).procs[e], s.procs[e].pc.n;
            && |p'.fd| == |p'.data| == MAXFD && p'.fd[n] == NoFd && !p'.data[n]
            && (forall i | 0 <= i < MAXFD && i != n :: p'.fd[i] == p.fd[i] && p'.data[i] == p.data[i])
  {
    assert ProcOk(s.procs[e]);
    LosingGoesOn(s, acts, e, s.procs[e], s.procs[e].pc.n);
  }

  /** A dup of slot n to itself on its way. */
  predicate Losing(p0: Proc, n: nat, p: Proc)
    requires |p0.fd| == |p0.data| == MAXFD && n < MAXFD
  {
    && |p.fd| == |p.data| == MAXFD
    && (forall i | 0 <= i < MAXFD && i != n :: p.fd[i] == p0.fd[i] && p.data[i] == p0.data[i])
    && match p.pc
       case DupStart(o', n') => o' == n == n' && p.fd[n] != NoFd
       case DupCloseFd(o', n') => o' == n == n'
       case DupCloseData(o', n') => o' == n == n' && p.fd[n] == NoFd
       case DupData(o', n') => o' == n == n' && p.fd[n] == NoFd && !p.data[n]
       case DupFd(o', n') => o' == n == n' && p.fd[n] == NoFd && !p.data[n]
       case DupFailed(n') => n' == n
       case DupUndone(n') => n' == n && p.fd[n] == NoFd
       case Ready => p.fd[n] == NoFd && !p.data[n]
       case _ => false
  }

  lemma LosingStep(s: State, a: Act, e: nat, p0: Proc, n: nat)
    requires Inv(s) && CanStep(s, a) && e < |s.procs| && s.procs[e].pc != Ready && !(a.Exit? && s.running == e)
    requires |p0.fd| == |p0.data| == MAXFD && n < MAXFD && Losing(p0, n, s.procs[e])
    ensures Shape(Next(s, a)) && e < |Next(s, a).procs| && Losing(p0, n, Next(s, a).procs[e])
  {
    hide FreshCounts;
    StepInv(s, a);
    assert ProcOk(s.procs[e]) && ForkOk(s, s.running);
  }

  lemma {:induction false} LosingGoesOn(s: State, acts: seq<Act>, e: nat, p0: Proc, n: nat)
    requires Inv(s) && Possible(s, acts) && Dupping(s, acts, e) && e < |s.procs|
    requires |p0.fd| == |p0.data| == MAXFD && n < MAXFD && Losing(p0, n, s.procs[e])
    ensures e < |After(s, acts).procs| && Losing(p0, n, After(s, acts).procs[e])
    decreases |acts|
  {
    hide Losing;
    if acts != [] {
      LosingStep(s, acts[0], e, p0, n);
      StepInv(s, acts[0]);
      LosingGoesOn(Next(s, acts[0]), acts[1..], e, p0, n);
    }
  }

  /** Process e has been scheduled and is at this position. */
  function At(s: State, e: nat, pc: Pc): State
    requires Shape(s) && e < |s.procs|
  {
    s.(running := e, procs := s.procs[e := s.procs[e].(pc := pc, runs := s.procs[e].runs + 1)])
  }

  lemma AtLooksAt(s: State, e: nat, pc: Pc, a: Act, pc': Pc)
    requires Shape(s) && e < |s.procs| && !Forking(pc) && PcOk(pc) && Enabled(At(s, e, pc), a)
    requires var t := At(s, e, pc);
             && Shape(t)
             && (|| (a.BeginCheck? && pc' == CheckRuns(a.i))
                 || (a.Call? && CallOf(t, t.procs[e], a.ok) == t.procs[e].(pc := pc')))
    ensures CanStep(At(s, e, pc), a) && Next(At(s, e, pc), a) == At(s, e, pc')
  {
    var t := At(s, e, pc);
    assert Next(t, a).procs == s.procs[e := s.procs[e].(pc := pc', runs := s.procs[e].runs + 1)];
  }

  lemma AtSameRefs(s: State, e: nat, pc: Pc, x: Fd)
    requires Shape(s) && e < |s.procs|
    ensures Shape(At(s, e, pc)) && FdRefs(At(s, e, pc), x) == FdRefs(s, x) && DataRefs(At(s, e, pc)) == DataRefs(s)
  {
    SameRefs(s, At(s, e, pc), x);
  }

  lemma AtStarts(s: State, e: nat)
    requires Shape(s) && e < |s.procs| && s.procs[e].pc == Ready && PcOk(s.procs[s.running].pc)
    requires Forking(s.procs[s.running].pc) ==> s.procs[s.running].pc.c < |s.procs|
    ensures CanStep(s, Switch(e)) && Next(s, Switch(e)) == At(s, e, Ready)
  {
  }

  /** The loads of _pipeisclosed. */
  lemma Loads(s: State, e: nat, i: nat)
    requires Shape(s) && e < |s.procs| && i < MAXFD && IsEnd(s.procs[e].fd[i])
    ensures var n, f, d := s.procs[e].runs + 1, |FdRefs(s, s.procs[e].fd[i])|, |DataRefs(s)|;
            && CanStep(At(s, e, Ready), BeginCheck(i)) && Next(At(s, e, Ready), BeginCheck(i)) == At(s, e, CheckRuns(i))
            && CanStep(At(s, e, CheckRuns(i)), Call(true))
            && Next(At(s, e, CheckRuns(i)), Call(true)) == At(s, e, CheckFd(i, n))
            && CanStep(At(s, e, CheckFd(i, n)), Call(true))
            && Next(At(s, e, CheckFd(i, n)), Call(true)) == At(s, e, CheckData(i, n, f))
            && CanStep(At(s, e, CheckData(i, n, f)), Call(true))
            && Next(At(s, e, CheckData(i, n, f)), Call(true)) == At(s, e, CheckAgain(i, n, f, d))
  {
    var x, n := s.procs[e].fd[i], s.procs[e].runs + 1;
    AtSameRefs(s, e, Ready, x);
    AtSameRefs(s, e, CheckFd(i, n), x);
    AtSameRefs(s, e, CheckData(i, n, |FdRefs(s, x)|), x);
    hide FdRefs;
    hide DataRefs;
    hide Next;
    AtLooksAt(s, e, Ready, BeginCheck(i), CheckRuns(i));
    AtLooksAt(s, e, CheckRuns(i), Call(true), CheckFd(i, n));
    AtLooksAt(s, e, CheckFd(i, n), Call(true), CheckData(i, n, |FdRefs(s, x)|));
    AtLooksAt(s, e, CheckData(i, n, |FdRefs(s, x)|), Call(true), CheckAgain(i, n, |FdRefs(s, x)|, |DataRefs(s)|));
  }

  /** Process e is scheduled and comes to the end of _pipeisclosed for slot i. */
  lemma CheckRun(s0: State, acts0: seq<Act>, e: nat, i: nat) returns (acts: seq<Act>)
    requires Possible(s0, acts0)
    requires var s := After(s0, acts0);
             && Shape(s) && e < |s.procs| && s.procs[e].pc == Ready && PcOk(s.procs[s.running].pc)
             && i < MAXFD && IsEnd(s.procs[e].fd[i])
    requires var s := After(s0, acts0); Forking(s.procs[s.running].pc) ==> s.procs[s.running].pc.c < |s.procs|
    ensures Possible(s0, acts)
    ensures var s := After(s0, acts0);
            After(s0, acts) ==
            At(s, e, CheckAgain(i, s.procs[e].runs + 1, |FdRefs(s, s.procs[e].fd[i])|, |DataRefs(s)|))
  {
    hide Possible;
    hide After;
    hide Next;
    hide CanStep;
    hide At;
    hide FdRefs;
    hide DataRefs;
    var s := After(s0, acts0);
    AtStarts(s, e);
    Loads(s, e, i);
    acts := acts0;
    OneMore(s0, acts, Switch(e));
    acts := acts + [Switch(e)];
    OneMore(s0, acts, BeginCheck(i));
    acts := acts + [BeginCheck(i)];
    OneMore(s0, acts, Call(true));
    acts := acts + [Call(true)];
    OneMore(s0, acts, Call(true));
    acts := acts + [Call(true)];
    OneMore(s0, acts, Call(true));
    acts := acts + [Call(true)];
  }

  /** The ends and the pipe page in a state in which process 0 has both ends, process 1 the read end,
      and process 2 the read end's descriptor page and no more. */
  lemma MidForkCounts(s: State, r: nat, w: nat)
    requires Shape(s) && |s.procs| >= 3 && r < MAXFD && w < MAXFD && r != w
    requires forall e, i | 0 <= e < |s.procs| && 0 <= i < MAXFD :: s.procs[e].fd[i] == ReadEnd <==> e < 3 && i == r
    requires forall e, i | 0 <= e < |s.procs| && 0 <= i < MAXFD :: s.procs[e].fd[i] == WriteEnd <==> e == 0 && i == w
    requires forall e, i | 0 <= e < |s.procs| && 0 <= i < MAXFD ::
               s.procs[e].data[i] <==> (e < 2 && i == r) || (e == 0 && i == w)
    ensures |FdRefs(s, ReadEnd)| == 3 == |DataRefs(s)| && (0, w) in FdRefs(s, WriteEnd)
  {
    assert FdRefs(s, ReadEnd) == {(0, r), (1, r), (2, r)};
    assert DataRefs(s) == {(0, r), (1, r), (0, w)};
  }

  /** Process e has closed slot i. */
  function Closed(s: State, e: nat, i: nat): State
    requires Shape(s) && e < |s.procs| && i < MAXFD
  {
    var p := s.procs[e];
    s.(running := e, procs := s.procs[e := p.(fd := p.fd[i := NoFd], data := p.data[i := false], runs := p.runs + 1)])
  }

  /** Process 0 has forked process 1, which has closed its write end, and is to fork again. */
  function Before(s0: State, w: nat): State
    requires Shape(s0) && |s0.procs| >= 2 && s0.running == 0 && w < MAXFD
  {
    At(Closed(Forked(s0, 1), 1, w), 0, Ready)
  }

  lemma BeforeIs(s0: State, r: nat, w: nat)
    requires JustMade(s0, r, w) && |s0.procs| >= 3 && s0.procs[1].pc == s0.procs[2].pc == Free
    ensures Shape(s0) && s0.running == 0 && w < MAXFD && CanFork(s0, 1) && CanFork(Before(s0, w), 2)
    ensures Before(s0, w).running == 0
    ensures var s := Before(s0, w);
            && s.procs[1].pc == Ready && |s.procs| == |s0.procs|
            && (forall e, i | 0 <= e < |s.procs| && 0 <= i < MAXFD :: s.procs[e].fd[i] == ReadEnd <==> e < 2 && i == r)
            && (forall e, i | 0 <= e < |s.procs| && 0 <= i < MAXFD ::
                  s.procs[e].fd[i] == WriteEnd <==> e == 0 && i == w)
            && (forall e, i | 0 <= e < |s.procs| && 0 <= i < MAXFD ::
                  s.procs[e].data[i] <==> (e < 2 && i == r) || (e == 0 && i == w))
  {
  }

  lemma MidForkSlots(s: State, r: nat, w: nat)
    requires CanFork(s, 2) && |s.procs| >= 3 && s.running == 0 && r < w < MAXFD && s.procs[1].pc == Ready
    requires forall e, i | 0 <= e < |s.procs| && 0 <= i < MAXFD :: s.procs[e].fd[i] == ReadEnd <==> e < 2 && i == r
    requires forall e, i | 0 <= e < |s.procs| && 0 <= i < MAXFD :: s.procs[e].fd[i] == WriteEnd <==> e == 0 && i == w
    requires forall e, i | 0 <= e < |s.procs| && 0 <= i < MAXFD ::
               s.procs[e].data[i] <==> (e < 2 && i == r) || (e == 0 && i == w)
    ensures var t := MidFork(s, 2, r + 1);
            && Shape(t) && |t.procs| == |s.procs| && t.procs[1] == s.procs[1] && t.procs[0].pc == ForkFd(2, r + 1)
            && t.running == 0
            && |FdRefs(t, ReadEnd)| == 3 == |DataRefs(t)| && (0, w) in FdRefs(t, WriteEnd)
  {
    MidForkCounts(MidFork(s, 2, r + 1), r, w);
  }

  lemma NoActs(s: State)
    ensures Possible(s, []) && After(s, []) == s
  {
  }

  lemma BeforeRun(s0: State, r: nat, w: nat) returns (acts: seq<Act>)
    requires JustMade(s0, r, w) && |s0.procs| >= 3 && s0.procs[1].pc == s0.procs[2].pc == Free
    ensures Possible(s0, acts) && After(s0, acts) == Before(s0, w)
  {
    hide Possible;
    hide After;
    NoActs(s0);
    acts := ForkAll(s0, [], 1);
    acts := CloseRun(s0, acts, 1, w);
    AtStarts(Closed(Forked(s0, 1), 1, w), 0);
    OneMore(s0, acts, Switch(0));
    acts := acts + [Switch(0)];
  }

  /** fork maps the child's pages in order of address, and the descriptor pages lie below the data
      pages.  In between the inequality fails: a run in which process 1 is told that the write end
      is closed although process 0, which is just forking, has it open. */
  lemma MidForkLooksClosed(s0: State, r: nat, w: nat) returns (acts: seq<Act>)
    requires JustMade(s0, r, w) && r < w && |s0.procs| >= 3 && s0.procs[1].pc == s0.procs[2].pc == Free
    ensures Possible(s0, acts)
    ensures var s := After(s0, acts);
            Shape(s) && Reports(s, true) && (0, w) in FdRefs(s, WriteEnd) && s.procs[s.running].fd[r] == ReadEnd
  {
    hide Possible;
    hide After;
    hide MidFork;
    hide FdRefs;
    hide DataRefs;
    hide Before;
    hide JustMade;
    BeforeIs(s0, r, w);
    var s := Before(s0, w);
    var t := MidFork(s, 2, r + 1);
    MidForkSlots(s, r, w);
    acts := BeforeRun(s0, r, w);
    acts := ForkPart(s0, acts, 2, r + 1);
    acts := CheckRun(s0, acts, 1, r);
    AtSameRefs(t, 1, CheckAgain(r, t.procs[1].runs + 1, 3, 3), WriteEnd);
  }
}
