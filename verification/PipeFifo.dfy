/** lib/pipe.c: one reader and one writer on the shared ring buffer, interleaved at every load
    and store of the shared page, and the reader's end of file. */
module PipeFifo {
  const PIPEBUFSIZ := 32
  const TWO31 := 0x8000_0000
  const TWO32 := 0x1_0000_0000

  type Byte = bv8

  // ---------------------------------------------------------------- positions

  /** The number as a signed 32-bit integer, which is what p_rpos and p_wpos are. */
  function Signed(n: int): int {
    (n + TWO31) % TWO32 - TWO31
  }

  /** A position taken as unsigned, as in the comparison with a sizeof. */
  function Unsigned(pos: int): int {
    pos % TWO32
  }

  /** The index into the buffer: the remainder has the sign of the position. */
  function Index(pos: int): int {
    if pos < 0 then -(-pos % PIPEBUFSIZ) else pos % PIPEBUFSIZ
  }

  predicate InBuffer(pos: int) {
    0 <= Index(pos) < PIPEBUFSIZ
  }

  /** devpipe_write's test that the pipe is full. */
  predicate IsFull(rpos: int, wpos: int) {
    Unsigned(wpos) >= (Unsigned(rpos) + PIPEBUFSIZ) % TWO32
  }

  /** What the positions tell about the counts that they stand for, as far as a run gets. */
  lemma Position(n: nat)
    requires n <= TWO31 + 1
    ensures Signed(Signed(n) + 1) == Signed(n + 1) && Unsigned(Signed(n)) == n
    ensures InBuffer(Signed(n)) <==> n <= TWO31
    ensures n <= TWO31 ==> Index(Signed(n)) == n % PIPEBUFSIZ
  {
  }

  // ---------------------------------------------------------------- the two processes

  /** devpipe_write: between bytes; about to look at p_rpos; having seen room; having stored the
      byte and not yet moved p_wpos; having closed the pipe. */
  datatype Writer = Resting | Asking(b: Byte) | Room(b: Byte) | Stored(b: Byte) | Closed

  /** devpipe_read: between bytes; having seen the pipe empty, when `seen` bytes had been written;
      having seen that p_wpos is ahead; having taken the byte and not yet moved p_rpos; having
      returned end of file. */
  datatype Reader = Waiting | Empty(seen: nat) | Saw | Taken | AtEnd(seen: nat)

  /** The pipe page, where the two processes are, what has gone in and come out so far, and
      whether a store has gone outside the buffer. */
  datatype State = State(rpos: int, wpos: int, buf: seq<Byte>, w: Writer, r: Reader,
                         written: seq<Byte>, delivered: seq<Byte>, lost: bool)

  datatype Act =
    | Offer(b: Byte)   // the writer turns to its next byte
    | LookForRoom      // loads p_rpos
    | StoreByte
    | MoveWpos
    | Close
    | LookForByte      // loads p_wpos
    | AskClosed        // _pipeisclosed
    | ReadAgain        // the call returns, with the bytes so far or none, and there is another
    | TakeByte
    | MoveRpos

  /** Nothing is said of what happens after a store outside the buffer. */
  predicate Enabled(s: State, a: Act) {
    |s.buf| == PIPEBUFSIZ && !s.lost &&
    match a
    case Offer(_) => s.w.Resting?
    case LookForRoom => s.w.Asking?
    case StoreByte => s.w.Room?
    case MoveWpos => s.w.Stored?
    case Close => s.w.Resting?
    case LookForByte => s.r.Waiting?
    case AskClosed => s.r.Empty?
    case ReadAgain => s.r.Empty? || s.r.AtEnd?
    case TakeByte => s.r.Saw? && InBuffer(s.rpos)
    case MoveRpos => s.r.Taken?
  }

  /** A full pipe keeps the writer asking, an empty one that is not closed the reader looking. */
  function Next(s: State, a: Act): State
    requires Enabled(s, a)
  {
    match a
    case Offer(b) => s.(w := Asking(b))
    case LookForRoom => if IsFull(s.rpos, s.wpos) then s else s.(w := Room(s.w.b))
    case StoreByte =>
      if InBuffer(s.wpos) then s.(buf := s.buf[Index(s.wpos) := s.w.b], w := Stored(s.w.b)) else s.(lost := true)
    case MoveWpos => s.(wpos := Signed(s.wpos + 1), w := Resting, written := s.written + [s.w.b])
    case Close => s.(w := Closed)
    case LookForByte => if s.rpos == s.wpos then s.(r := Empty(|s.written|)) else s.(r := Saw)
    case AskClosed => if s.w.Closed? then s.(r := AtEnd(s.r.seen)) else s.(r := Waiting)
    case ReadAgain => s.(r := Waiting)
    case TakeByte => s.(r := Taken, delivered := s.delivered + [s.buf[Index(s.rpos)]])
    case MoveRpos => s.(rpos := Signed(s.rpos + 1), r := Waiting)
  }

  /** The number of bytes that p_rpos has moved past. */
  function Past(s: State): int {
    |s.delivered| - if s.r.Taken? then 1 else 0
  }

  /** The bytes between the two positions are in the buffer, and what a process has seen of the
      other's position is still true enough. */
  ghost predicate Inv(s: State) {
    && |s.buf| == PIPEBUFSIZ && 0 <= Past(s) <= |s.written| <= Past(s) + PIPEBUFSIZ && |s.written| <= TWO31 + 1
    && s.wpos == Signed(|s.written|) && s.rpos == Signed(Past(s))
    && (forall k | Past(s) <= k < |s.written| :: s.buf[k % PIPEBUFSIZ] == s.written[k])
    && (s.w.Room? || s.w.Stored? ==> |s.written| < Past(s) + PIPEBUFSIZ)
    && (s.w.Stored? ==> |s.written| <= TWO31 && s.buf[|s.written| % PIPEBUFSIZ] == s.w.b)
    && (s.r.Saw? || s.r.Taken? ==> Past(s) < |s.written|)
    && (s.r.Empty? || s.r.AtEnd? ==> s.r.seen == |s.delivered|)
    && (s.r.AtEnd? ==> s.w.Closed?)
    && (s.lost ==> |s.written| == TWO31 + 1)
    && s.delivered <= s.written
  }

  /** Two positions less than a buffer apart never meet in the buffer. */
  lemma Apart(k: nat, m: nat)
    requires k < m < k + PIPEBUFSIZ
    ensures k % PIPEBUFSIZ != m % PIPEBUFSIZ
  {
  }

  lemma StepInv(s: State, a: Act)
    requires Inv(s) && Enabled(s, a)
    ensures Inv(Next(s, a))
  {
    hide Signed;
    hide Unsigned;
    hide Index;
    Position(|s.written|);
    Position(Past(s));
    if a.StoreByte? {
      forall k | Past(s) <= k < |s.written| ensures k % PIPEBUFSIZ != |s.written| % PIPEBUFSIZ {
        Apart(k, |s.written|);
      }
    }
  }

  function Start(): State {
    State(0, 0, seq(PIPEBUFSIZ, _ => 0), Resting, Waiting, [], [], false)
  }

  predicate Possible(s: State, acts: seq<Act>)
    decreases |acts|
  {
    acts == [] || (Enabled(s, acts[0]) && Possible(Next(s, acts[0]), acts[1..]))
  }

  function After(s: State, acts: seq<Act>): State
    requires Possible(s, acts)
    decreases |acts|
  {
    if acts == [] then s else After(Next(s, acts[0]), acts[1..])
  }

  lemma {:induction false} RunInv(s: State, acts: seq<Act>)
    requires Inv(s) && Possible(s, acts)
    ensures Inv(After(s, acts))
    decreases |acts|
  {
    if acts != [] {
      StepInv(s, acts[0]);
      RunInv(Next(s, acts[0]), acts[1..]);
    }
  }

  /** FIFO: whatever the interleaving, what has come out is a prefix of what has gone in, and at
      most a buffer is between the two. */
  lemma Fifo(acts: seq<Act>)
    requires Possible(Start(), acts)
    ensures var s := After(Start(), acts);
            && s.delivered <= s.written && |s.written| - |s.delivered| <= PIPEBUFSIZ
            && s.wpos == Signed(|s.written|) && s.rpos == Signed(Past(s))
  {
    RunInv(Start(), acts);
  }

  /** The positions are signed: the writer's index lies in the buffer exactly for the first
      2^31 + 1 bytes, and the next byte is stored outside it; the reader's index always does. */
  lemma InBufferIff(acts: seq<Act>)
    requires Possible(Start(), acts)
    ensures var s := After(Start(), acts);
            && (InBuffer(s.wpos) <==> |s.written| <= TWO31)
            && (s.r.Saw? ==> InBuffer(s.rpos))
            && (Enabled(s, StoreByte) ==> (Next(s, StoreByte).lost <==> |s.written| == TWO31 + 1))
  {
    RunInv(Start(), acts);
    var s := After(Start(), acts);
    Position(|s.written|);
    Position(Past(s));
  }

  /** Progress: a reader that looks again finds a byte exactly when one has been written and not
      delivered, and a writer finds room exactly when the buffer is not full. */
  lemma SeesTheTruth(s: State)
    requires Inv(s) && !s.lost
    ensures s.r.Waiting? ==> (Next(s, LookForByte).r.Saw? <==> |s.delivered| < |s.written|)
    ensures s.w.Asking? ==> (Next(s, LookForRoom).w.Room? <==> |s.written| - Past(s) < PIPEBUFSIZ)
  {
    hide Signed;
    hide Unsigned;
    Position(|s.written|);
    Position(Past(s));
  }

  // ---------------------------------------------------------------- end of file

  /** devpipe_read looks at the positions first and asks whether the writer is gone afterwards.  So
      when it returns end of file, the writer is gone, but all that was written has been delivered
      exactly if nothing was written between the look and the question. */
  lemma EndOfFileIff(acts: seq<Act>)
    requires Possible(Start(), acts) && After(Start(), acts).r.AtEnd?
    ensures var s := After(Start(), acts);
            s.w.Closed? && (s.delivered == s.written <==> |s.written| == s.r.seen)
  {
    RunInv(Start(), acts);
  }

  /** In particular end of file is right if the writer was gone when the reader looked. */
  lemma {:induction false} EndAfterClose(s: State, acts: seq<Act>)
    requires Inv(s) && s.w.Closed? && (s.r.Empty? || s.r.AtEnd? ==> s.r.seen == |s.written|) && Possible(s, acts)
    ensures var t := After(s, acts); t.written == s.written && (t.r.AtEnd? ==> t.delivered == t.written)
    decreases |acts|
  {
    if acts != [] {
      StepInv(s, acts[0]);
      EndAfterClose(Next(s, acts[0]), acts[1..]);
    }
  }

  lemma OneMore(s: State, a: Act, acts: seq<Act>)
    requires Enabled(s, a) && Possible(Next(s, a), acts)
    ensures Possible(s, [a] + acts) && After(s, [a] + acts) == After(Next(s, a), acts)
  {
    assert ([a] + acts)[1..] == acts;
  }

  /** The writer's four steps for one byte, when it finds room. */
  lemma WritesByte(s: State, b: Byte, acts: seq<Act>) returns (acts': seq<Act>)
    requires Enabled(s, Offer(b)) && !IsFull(s.rpos, s.wpos) && InBuffer(s.wpos)
    requires Possible(Wrote(s, b), acts)
    ensures Possible(s, acts') && After(s, acts') == After(Wrote(s, b), acts)
  {
    hide Possible;
    hide After;
    hide IsFull;
    hide Index;
    hide Signed;
    var s1 := Next(s, Offer(b));
    var s2 := Next(s1, LookForRoom);
    var s3 := Next(s2, StoreByte);
    OneMore(s3, MoveWpos, acts);
    OneMore(s2, StoreByte, [MoveWpos] + acts);
    OneMore(s1, LookForRoom, [StoreByte] + ([MoveWpos] + acts));
    acts' := [LookForRoom] + ([StoreByte] + ([MoveWpos] + acts));
    OneMore(s, Offer(b), acts');
    acts' := [Offer(b)] + acts';
  }

  function Wrote(s: State, b: Byte): State
    requires |s.buf| == PIPEBUFSIZ && InBuffer(s.wpos)
  {
    s.(buf := s.buf[Index(s.wpos) := b], wpos := Signed(s.wpos + 1), w := Resting, written := s.written + [b])
  }

  /** The reader finds the pipe empty; the writer writes a byte and closes; the reader asks, and
      returns end of file with the byte still in the buffer, where another read finds it. */
  lemma ByteAfterEnd(b: Byte) returns (acts: seq<Act>)
    ensures Possible(Start(), acts)
    ensures var s := After(Start(), acts);
            && s.r.AtEnd? && s.written == [b] && s.delivered == []
            && Enabled(s, ReadAgain) && Enabled(Next(s, ReadAgain), LookForByte)
            && Next(Next(s, ReadAgain), LookForByte).r.Saw?
  {
    hide Possible;
    hide After;
    var s1 := Next(Start(), LookForByte);
    var s2 := Wrote(s1, b);
    var s3 := Next(s2, Close);
    acts := JustAsked(s3);
    OneMore(s2, Close, acts);
    acts := WritesByte(s1, b, [Close] + acts);
    OneMore(Start(), LookForByte, acts);
    acts := [LookForByte] + acts;
  }

  lemma JustAsked(s: State) returns (acts: seq<Act>)
    requires Enabled(s, AskClosed)
    ensures Possible(s, acts) && After(s, acts) == Next(s, AskClosed)
  {
    acts := [AskClosed];
  }
}
