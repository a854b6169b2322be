/** Whole runs: any sequence of reads, writes, resizes and creations behaves as on a store that
    maps every file to its bytes, and no block is lost on the way. */
module FsRuns {
  import opened Errors
  import opened FsSpec
  import opened FsLemmas
  import opened FsBytes
  import opened FsDirs
  import opened Files
  import opened FsTheorems
  import opened Paths

  /** A file's size and all the bytes that it could have, also those beyond its end. */
  datatype Raw = Raw(size: nat, mem: seq<Byte>)

  type Store = map<Ref, Raw>

  datatype Op =
    | ReadAt(r: Ref, count: nat, offset: nat)
    | WriteAt(r: Ref, buf: seq<Byte>, offset: nat)
    | Resize(r: Ref, n: nat)
    | Create(path: string)

  /** The result of the call, and the bytes that a read returned. */
  datatype Reply = Reply(n: int, data: seq<Byte>)

  function Overwrite(mem: seq<Byte>, buf: seq<Byte>, offset: nat): (t: seq<Byte>)
    ensures |t| == |mem|
  {
    seq(|mem|, p requires 0 <= p < |mem| => if offset <= p < offset + |buf| then buf[p - offset] else mem[p])
  }

  /** The bytes from block n on are gone. */
  function CutOff(mem: seq<Byte>, n: nat): (t: seq<Byte>)
    ensures |t| == |mem|
  {
    seq(|mem|, p requires 0 <= p < |mem| => if p < n * BLKSIZE then mem[p] else 0)
  }

  function EmptyFile(): Raw {
    Raw(0, seq(MAXFILESIZE, _ => 0))
  }

  /** Sizes are signed 32-bit integers. */
  predicate InRange(op: Op) {
    (op.WriteAt? ==> op.offset + |op.buf| <= OFF_MAX) && (op.Resize? ==> op.n <= OFF_MAX)
  }

  /** What a failed read or write of the bytes up to `end` may report. */
  predicate Failure(n: int, end: nat) {
    n == -E_NO_DISK || (n == -E_INVAL && end > MAXFILESIZE)
  }

  /** The operation names a file that is not in the store. */
  predicate Unknown(known: set<Ref>, op: Op) {
    !op.Create? && op.r !in known
  }

  /** One step of the store.  A failed write has written some of its bytes and extended the file;
      a shrink keeps the bytes of the last block that stays; a file that is not there is refused. */
  ghost predicate Step(a: Store, op: Op, y: Reply, a': Store) {
    if Unknown(a.Keys, op) then y == Reply(-E_INVAL, []) && a' == a else
    match op
    case ReadAt(r, count, offset) =>
      var len := ReadLength(a[r].size, count, offset);
      && a' == a && (y.n < 0 ==> Failure(y.n, offset + len)) && (offset >= a[r].size ==> y.n == 0)
      && (y.n >= 0 ==> y.n == |y.data| == len)
      && (y.n >= 0 && len > 0 ==> offset + len <= |a[r].mem| && y.data == a[r].mem[offset..offset + len])
    case WriteAt(r, buf, offset) =>
      InRange(op) ==>
        && (y.n < 0 ==> Failure(y.n, offset + |buf|))
        && exists done | 0 <= done <= |buf| ::
             && (y.n >= 0 ==> y.n == |buf| == done)
             && a' == a[r := Raw(Max(a[r].size, offset + |buf|), Overwrite(a[r].mem, buf[..done], offset))]
    case Resize(r, n) => InRange(op) ==> y.n == 0 && a' == a[r := Raw(n, CutOff(a[r].mem, Blocks(n)))]
    case Create(path) => if y.n < 0 then a' == a else y.n == 0 && exists f | f !in a :: a' == a[f := EmptyFile()]
  }

  /** The file is a named regular one and holds these bytes. */
  ghost predicate FileIs(fs: Fs, r: Ref, f: Raw) {
    && Shape(fs) && Live(fs, r) && FileAt(fs, r).ftype == REG && FileAt(fs, r).name != ""
    && FileAt(fs, r).size == f.size
    && |f.mem| == MAXFILESIZE && forall p | 0 <= p < MAXFILESIZE :: ByteAt(fs, r, p) == f.mem[p]
  }

  ghost predicate Represents(fs: Fs, a: Store) {
    Inv(fs) && DirsOk(fs) && forall r | r in a :: FileIs(fs, r, a[r])
  }

  lemma OthersRepresented(fs: Fs, fs': Fs, r: Ref, r': Ref, f: Raw)
    requires Changed(fs, fs', r) && FileIs(fs, r', f) && r' != r
    ensures FileIs(fs', r', f)
  {
    forall p | 0 <= p < MAXFILESIZE ensures ByteAt(fs', r', p) == ByteAt(fs, r', p) {}
  }

  /** The whole store, when only file r changed. */
  lemma ChangedRepresents(fs: Fs, fs': Fs, a: Store, r: Ref, f: Raw)
    requires Represents(fs, a) && r in a && Changed(fs, fs', r) && Inv(fs') && FileIs(fs', r, f)
    ensures Represents(fs', a[r := f])
  {
    ChangedDirsOk(fs, fs', r);
    forall r' | r' in a && r' != r ensures FileIs(fs', r', a[r']) { OthersRepresented(fs, fs', r, r', a[r']); }
  }

  lemma GrownRepresented(fs: Fs, fs': Fs, r: Ref, f: Raw)
    requires Grown(fs, fs') && FileIs(fs, r, f)
    ensures FileIs(fs', r, f)
  {
    forall p | 0 <= p < MAXFILESIZE ensures ByteAt(fs', r, p) == ByteAt(fs, r, p) {}
  }

  lemma KeptRepresented(fs: Fs, fs': Fs, r: Ref, f: Raw)
    requires KeepsBytes(fs, fs') && FileIs(fs, r, f)
    ensures FileIs(fs', r, f)
  {
    forall p | 0 <= p < MAXFILESIZE ensures ByteAt(fs', r, p) == ByteAt(fs, r, p) {}
  }

  lemma FileStored(fs: Fs, a: Store, r: Ref)
    requires Represents(fs, a) && r in a
    ensures Shape(fs) && Inv(fs) && Live(fs, r) && FileAt(fs, r).ftype == REG
    ensures FileIs(fs, r, a[r]) && FileAt(fs, r).size == a[r].size && |a[r].mem| == MAXFILESIZE
  {
  }

  lemma ReadStep(fs: Fs, fs': Fs, a: Store, r: Ref, count: nat, offset: nat, n: int, buf: seq<Byte>)
    requires Represents(fs, a) && r in a && Grown(fs, fs') && Inv(fs') && Shape(fs) && Live(fs, r)
    requires n >= 0 ==> n == |buf| == ReadLength(FileAt(fs, r).size, count, offset) && Holds(fs, r, offset, buf)
    requires Outcome(n, fs', r, offset, offset + ReadLength(FileAt(fs, r).size, count, offset))
    requires offset >= FileAt(fs, r).size ==> n == 0
    ensures Represents(fs', a) && Step(a, ReadAt(r, count, offset), Reply(n, buf), a)
  {
    hide Inv;
    hide DirsOk;
    hide FileIs;
    hide Grown;
    hide Holds;
    FileStored(fs, a, r);
    GrownDirsOk(fs, fs');
    forall r' | r' in a ensures FileIs(fs', r', a[r']) { GrownRepresented(fs, fs', r', a[r']); }
    if n > 0 { ReadBytes(fs, r, a[r], offset, buf); }
  }

  lemma ReadBytes(fs: Fs, r: Ref, f: Raw, offset: nat, buf: seq<Byte>)
    requires FileIs(fs, r, f) && Holds(fs, r, offset, buf) && buf != []
    ensures offset + |buf| <= |f.mem| && buf == f.mem[offset..offset + |buf|]
  {
    assert forall k | 0 <= k < |buf| :: buf[k] == ByteAt(fs, r, offset + k) == f.mem[offset + k];
  }

  lemma WriteStep(fs: Fs, fs': Fs, a: Store, r: Ref, buf: seq<Byte>, offset: nat, n: int, done: nat)
    requires Represents(fs, a) && r in a && Inv(fs') && offset + |buf| <= OFF_MAX && done <= |buf|
    requires Wrote(fs, fs', r, offset, buf[..done]) && FileAt(fs', r).size == Max(FileAt(fs, r).size, offset + |buf|)
    requires n >= 0 ==> n == |buf| == done
    requires Outcome(n, fs', r, offset, offset + |buf|)
    ensures var a' := a[r := Raw(Max(a[r].size, offset + |buf|), Overwrite(a[r].mem, buf[..done], offset))];
            Represents(fs', a') && Step(a, WriteAt(r, buf, offset), Reply(n, []), a')
  {
    hide Inv;
    hide Represents;
    FileStored(fs, a, r);
    var f := Raw(Max(a[r].size, offset + |buf|), Overwrite(a[r].mem, buf[..done], offset));
    WrittenFile(fs, fs', r, a[r], offset, buf[..done], f);
    ChangedRepresents(fs, fs', a, r, f);
  }

  lemma WrittenFile(fs: Fs, fs': Fs, r: Ref, f: Raw, offset: nat, buf: seq<Byte>, f': Raw)
    requires FileIs(fs, r, f) && Wrote(fs, fs', r, offset, buf)
    requires f' == Raw(FileAt(fs', r).size, Overwrite(f.mem, buf, offset))
    ensures FileIs(fs', r, f')
  {
    forall p | 0 <= p < MAXFILESIZE ensures ByteAt(fs', r, p) == f'.mem[p] {}
  }

  lemma ResizeStep(fs: Fs, fs': Fs, a: Store, r: Ref, n: nat)
    requires Represents(fs, a) && r in a && Resized(fs, fs', r, n) && Inv(fs')
    ensures var a' := a[r := Raw(n, CutOff(a[r].mem, Blocks(n)))];
            Represents(fs', a') && Step(a, Resize(r, n), Reply(0, []), a')
  {
    hide Inv;
    hide Represents;
    FileStored(fs, a, r);
    var f := Raw(n, CutOff(a[r].mem, Blocks(n)));
    forall p | 0 <= p < MAXFILESIZE ensures ByteAt(fs', r, p) == f.mem[p] { ResizedBytes(fs, fs', r, n, p); }
    ChangedRepresents(fs, fs', a, r, f);
  }

  /** A file without blocks holds zeros. */
  lemma NewFileIsEmpty(fs: Fs, r: Ref)
    requires Inv(fs) && Live(fs, r) && FileAt(fs, r).size == 0 && FileAt(fs, r).ftype == REG && FileAt(fs, r).name != ""
    ensures FileIs(fs, r, EmptyFile())
  {
    assert forall i | 0 <= i < NBLOCKS :: SlotOf(fs, r, i) == 0;
    forall p | 0 <= p < MAXFILESIZE ensures ByteAt(fs, r, p) == EmptyFile().mem[p] {}
  }

  lemma CreateStep(fs: Fs, fs': Fs, a: Store, path: string, c: seq<string>, d: Ref, f: Ref)
    requires Represents(fs, a) && Inv(fs') && DirsOk(fs') && KeepsBytes(fs, fs') && Created(fs, fs', c, d, f)
    ensures Represents(fs', a[f := EmptyFile()]) && Step(a, Create(path), Reply(0, []), a[f := EmptyFile()])
  {
    if f in a { assert FileIs(fs, f, a[f]); }
    NewFileIsEmpty(fs', f);
    forall r | r in a ensures FileIs(fs', r, a[r]) { KeptRepresented(fs, fs', r, a[r]); }
  }

  lemma NotCreated(fs: Fs, fs': Fs, a: Store, path: string, e: int)
    requires Represents(fs, a) && Inv(fs') && DirsOk(fs') && KeepsBytes(fs, fs') && e < 0
    ensures Represents(fs', a) && Step(a, Create(path), Reply(e, []), a)
  {
    forall r | r in a ensures FileIs(fs', r, a[r]) { KeptRepresented(fs, fs', r, a[r]); }
  }

  lemma StoreValid(fs: Fs, a: Store)
    requires Represents(fs, a)
    ensures Shape(fs) && Inv(fs) && DirsOk(fs)
  {
  }

  lemma Refused(a: Store, op: Op)
    requires Unknown(a.Keys, op)
    ensures Step(a, op, Reply(-E_INVAL, []), a)
  {
  }

  /** Why the operation failed, or did not, in terms of the disk before and after it. */
  ghost predicate Explained(fs: Fs, fs': Fs, known: set<Ref>, op: Op, y: Reply) {
    !Unknown(known, op) ==>
      match op
      case ReadAt(r, count, offset) =>
        && Shape(fs) && Live(fs, r)
        && var end := offset + ReadLength(FileAt(fs, r).size, count, offset);
           Outcome(y.n, fs', r, offset, end) && (PresentTo(fs, r, offset, end) ==> y.n >= 0)
      case WriteAt(r, buf, offset) =>
        && Outcome(y.n, fs', r, offset, offset + |buf|) && (PresentTo(fs, r, offset, offset + |buf|) ==> y.n >= 0)
      case _ => true
  }

  /** One operation, and the files that exist after it, as the table of open files knows them. */
  method Perform(fs: FileSystem, op: Op, known: set<Ref>, ghost a: Store)
      returns (y: Reply, known': set<Ref>, ghost a': Store)
    requires Represents(fs.S(), a) && InRange(op) && known == a.Keys
    modifies fs
    ensures Represents(fs.S(), a') && Step(a, op, y, a') && known' == a'.Keys
    ensures Explained(old(fs.S()), fs.S(), known, op, y)
  {
    hide Represents;
    hide Step;
    hide Outcome;
    hide PresentTo;
    hide Inv;
    hide DirsOk;
    hide Grown;
    hide Wrote;
    hide Resized;
    hide Shrunk;
    hide Sized;
    hide DropsBare;
    hide Holds;
    hide KeepsBytes;
    hide Created;
    hide Walk;
    hide PathBlocked;
    hide CreateExcused;
    ghost var fs0 := fs.S();
    StoreValid(fs0, a);
    known' := known;
    if Unknown(known, op) {
      y, a' := Reply(-E_INVAL, []), a;
      Refused(a, op);
      return;
    }
    match op {
      case ReadAt(r, count, offset) =>
        FileStored(fs0, a, r);
        var n, buf := fs.FileRead(r, count, offset);
        y, a' := Reply(n, buf), a;
        ReadStep(fs0, fs.S(), a, r, count, offset, n, buf);
      case WriteAt(r, buf, offset) =>
        FileStored(fs0, a, r);
        ghost var done;
        var n;
        n, done := fs.FileWrite(r, buf, offset);
        y, a' := Reply(n, []), a[r := Raw(Max(a[r].size, offset + |buf|), Overwrite(a[r].mem, buf[..done], offset))];
        WriteStep(fs0, fs.S(), a, r, buf, offset, n, done);
      case Resize(r, n) =>
        FileStored(fs0, a, r);
        var e := fs.FileSetSize(r, n);
        y, a' := Reply(0, []), a[r := Raw(n, CutOff(a[r].mem, Blocks(n)))];
        ResizeStep(fs0, fs.S(), a, r, n);
      case Create(path) =>
        y, known', a' := CreateFile(fs, path, known, a);
    }
  }

  method CreateFile(fs: FileSystem, path: string, known: set<Ref>, ghost a: Store)
      returns (y: Reply, known': set<Ref>, ghost a': Store)
    requires Represents(fs.S(), a) && known == a.Keys
    modifies fs
    ensures Represents(fs.S(), a') && Step(a, Create(path), y, a') && known' == a'.Keys
  {
    hide Represents;
    hide Step;
    hide Inv;
    hide DirsOk;
    hide KeepsBytes;
    hide Created;
    hide Walk;
    hide PathBlocked;
    hide CreateExcused;
    ghost var fs0 := fs.S();
    StoreValid(fs0, a);
    var e, f := FileCreate(fs, path);
    y, known' := Reply(e, []), known;
    if e == 0 {
      known' := known + {f};
      a' := a[f := EmptyFile()];
      ghost var c := PathNames.Components(path);
      CreateStep(fs0, fs.S(), a, path, c, Walk(fs0, None, Root, c).parent, f);
    } else {
      a' := a;
      NotCreated(fs0, fs.S(), a, path, e);
    }
  }

  /** The states of the store from the first operation to the last. */
  ghost predicate Replays(trace: seq<Store>, ops: seq<Op>, out: seq<Reply>) {
    && |out| == |ops| && |trace| == |ops| + 1
    && forall k | 0 <= k < |ops| :: Step(trace[k], ops[k], out[k], trace[k + 1])
  }

  lemma ReplaysMore(trace: seq<Store>, ops: seq<Op>, out: seq<Reply>, op: Op, y: Reply, a: Store)
    requires Replays(trace, ops, out) && Step(trace[|ops|], op, y, a)
    ensures Replays(trace + [a], ops + [op], out + [y])
  {
    var t, o, q := trace + [a], ops + [op], out + [y];
    forall k | 0 <= k < |o| ensures Step(t[k], o[k], q[k], t[k + 1]) {
      if k < |ops| {
        assert t[k] == trace[k] && t[k + 1] == trace[k + 1] && o[k] == ops[k] && q[k] == out[k];
      }
    }
  }

  /** Any sequence of operations, one after the other, also on the files that the run itself
      creates.  After each of them the store is represented, so that every block has its one owner. */
  method RunAll(fs: FileSystem, ops: seq<Op>, known0: set<Ref>, ghost a: Store)
      returns (out: seq<Reply>, ghost trace: seq<Store>, ghost disks: seq<Fs>)
    requires Represents(fs.S(), a) && known0 == a.Keys && forall k | 0 <= k < |ops| :: InRange(ops[k])
    modifies fs
    ensures Replays(trace, ops, out) && trace[0] == a && Represents(fs.S(), trace[|ops|]) && Conserved(fs.S())
    ensures |disks| == |ops| + 1 && disks[0] == old(fs.S()) && disks[|ops|] == fs.S()
    ensures forall k | 0 <= k < |ops| :: Represents(disks[k], trace[k])
    ensures forall k | 0 <= k < |ops| :: Explained(disks[k], disks[k + 1], trace[k].Keys, ops[k], out[k])
  {
    hide Represents;
    hide Step;
    hide Conserved;
    hide Explained;
    out, trace, disks := [], [a], [fs.S()];
    var known := known0;
    for k := 0 to |ops|
      invariant Replays(trace, ops[..k], out) && trace[0] == a
      invariant known == trace[k].Keys && Represents(fs.S(), trace[k])
      invariant |disks| == k + 1 && disks[0] == old(fs.S()) && disks[k] == fs.S()
      invariant forall i | 0 <= i < k :: Represents(disks[i], trace[i])
      invariant forall i | 0 <= i < k :: Explained(disks[i], disks[i + 1], trace[i].Keys, ops[i], out[i])
    {
      ghost var a2;
      var y;
      y, known, a2 := Perform(fs, ops[k], known, trace[k]);
      ReplaysMore(trace, ops[..k], out, ops[k], y, a2);
      assert ops[..k] + [ops[k]] == ops[..k + 1];
      out, trace, disks := out + [y], trace + [a2], disks + [fs.S()];
    }
    assert ops[..|ops|] == ops;
    StoreValid(fs.S(), trace[|ops|]);
    InvConserves(fs.S());
  }

  // ---------------------------------------------------------------- the plain store

  type Plain = map<Ref, seq<Byte>>

  /** Shorter, or longer by zeros. */
  function Fitted(s: seq<Byte>, n: nat): (t: seq<Byte>)
    ensures |t| == n
  {
    seq(n, p requires 0 <= p => if p < |s| then s[p] else 0)
  }

  /** One step of the plain store: pread, pwrite and ftruncate. */
  ghost predicate PlainStep(a: Plain, op: Op, y: Reply, a': Plain) {
    if Unknown(a.Keys, op) then y == Reply(-E_INVAL, []) && a' == a else
    match op
    case ReadAt(r, count, offset) =>
      a' == a && (if y.n < 0 then y.n == -E_NO_DISK else y.n == |y.data| && y.data == Pread(a[r], count, offset))
    case WriteAt(r, buf, offset) =>
      if y.n >= 0 then y.n == |buf| && a' == a[r := Pwrite(a[r], buf, offset)]
      else y.n == -E_NO_DISK && exists done | 0 <= done <= |buf| ::
             a' == a[r := Fitted(Pwrite(a[r], buf[..done], offset), Max(|a[r]|, offset + |buf|))]
    case Resize(r, n) => y.n == 0 && a' == a[r := Fitted(a[r], n)]
    case Create(path) => if y.n < 0 then a' == a else y.n == 0 && exists f | f !in a :: a' == a[f := []]
  }

  /** Nothing is left over beyond the ends of the files. */
  ghost predicate Tidy(a: Store) {
    forall r | r in a ::
      a[r].size <= |a[r].mem| == MAXFILESIZE && forall p | a[r].size <= p < MAXFILESIZE :: a[r].mem[p] == 0
  }

  ghost function Visible(a: Store): Plain
    requires Tidy(a)
  {
    map r | r in a :: a[r].mem[..a[r].size]
  }

  /** The operation stays inside the largest file, and what a shrink cuts off but does not give
      back was zero, as when it ends at a block boundary. */
  ghost predicate Clean(a: Store, op: Op) {
    && (op.WriteAt? && op.r in a ==> op.offset + |op.buf| <= MAXFILESIZE)
    && (op.Resize? && op.r in a ==> op.n <= MAXFILESIZE)
    && (op.Resize? && op.r in a ==>
          forall p | op.n <= p < Blocks(op.n) * BLKSIZE && p < |a[op.r].mem| :: a[op.r].mem[p] == 0)
  }

  lemma WrittenTidy(f: Raw, buf: seq<Byte>, offset: nat, end: nat)
    requires f.size <= |f.mem| == MAXFILESIZE && (forall p | f.size <= p < MAXFILESIZE :: f.mem[p] == 0)
    requires offset + |buf| <= end <= MAXFILESIZE
    ensures var f' := Raw(Max(f.size, end), Overwrite(f.mem, buf, offset));
            && (forall p | f'.size <= p < MAXFILESIZE :: f'.mem[p] == 0)
            && f'.mem[..f'.size] == Fitted(Pwrite(f.mem[..f.size], buf, offset), f'.size)
            && (offset + |buf| == end ==> f'.mem[..f'.size] == Pwrite(f.mem[..f.size], buf, offset))
  {
  }

  lemma CutTidy(f: Raw, n: nat)
    requires f.size <= |f.mem| == MAXFILESIZE && (forall p | f.size <= p < MAXFILESIZE :: f.mem[p] == 0)
    requires n <= MAXFILESIZE
    requires forall p | n <= p < Blocks(n) * BLKSIZE && p < |f.mem| :: f.mem[p] == 0
    ensures var f' := Raw(n, CutOff(f.mem, Blocks(n)));
            (forall p | n <= p < MAXFILESIZE :: f'.mem[p] == 0) && f'.mem[..n] == Fitted(f.mem[..f.size], n)
  {
    CoversOwnSize(n);
  }

  lemma CoversOwnSize(n: nat)
    ensures n <= Blocks(n) * BLKSIZE
  {
  }

  /** On a tidy store a clean operation is one of the plain store, and leaves the store tidy. */
  lemma StepIsPlain(a: Store, op: Op, y: Reply, a': Store)
    requires Step(a, op, y, a') && Tidy(a) && Clean(a, op) && InRange(op)
    ensures Tidy(a') && PlainStep(Visible(a), op, y, Visible(a'))
  {
    hide Step;
    hide Tidy;
    hide Clean;
    hide PlainStep;
    if Unknown(a.Keys, op) {
      RefusedIsPlain(a, op, y, a');
      return;
    }
    match op
    case ReadAt(_, _, _) => ReadIsPlain(a, op, y, a');
    case WriteAt(_, _, _) => WriteIsPlain(a, op, y, a');
    case Resize(_, _) => ResizeIsPlain(a, op, y, a');
    case Create(_) => CreateIsPlain(a, op, y, a');
  }

  lemma RefusedIsPlain(a: Store, op: Op, y: Reply, a': Store)
    requires Step(a, op, y, a') && Tidy(a) && Unknown(a.Keys, op)
    ensures Tidy(a') && PlainStep(Visible(a), op, y, Visible(a'))
  {
  }

  lemma ReadIsPlain(a: Store, op: Op, y: Reply, a': Store)
    requires Step(a, op, y, a') && Tidy(a) && op.ReadAt? && op.r in a
    ensures Tidy(a') && PlainStep(Visible(a), op, y, Visible(a'))
  {
    var f, s := a[op.r], a[op.r].mem[..a[op.r].size];
    assert Visible(a)[op.r] == s;
    if y.n > 0 {
      assert y.data == s[op.offset..op.offset + y.n];
    }
  }

  lemma ResizeIsPlain(a: Store, op: Op, y: Reply, a': Store)
    requires Step(a, op, y, a') && Tidy(a) && Clean(a, op) && op.Resize? && op.r in a && InRange(op)
    ensures Tidy(a') && PlainStep(Visible(a), op, y, Visible(a'))
  {
    CutTidy(a[op.r], op.n);
    assert Visible(a') == Visible(a)[op.r := Fitted(a[op.r].mem[..a[op.r].size], op.n)];
  }

  lemma CreateIsPlain(a: Store, op: Op, y: Reply, a': Store)
    requires Step(a, op, y, a') && Tidy(a) && op.Create?
    ensures Tidy(a') && PlainStep(Visible(a), op, y, Visible(a'))
  {
    if y.n >= 0 {
      var f :| f !in a && a' == a[f := EmptyFile()];
      assert f !in Visible(a) && Visible(a') == Visible(a)[f := []];
    }
  }

  lemma WriteIsPlain(a: Store, op: Op, y: Reply, a': Store)
    requires Step(a, op, y, a') && Tidy(a) && Clean(a, op) && op.WriteAt? && op.r in a && InRange(op)
    ensures Tidy(a') && PlainStep(Visible(a), op, y, Visible(a'))
  {
    var r, buf, offset := op.r, op.buf, op.offset;
    var done :| 0 <= done <= |buf| && (y.n >= 0 ==> y.n == |buf| == done)
      && a' == a[r := Raw(Max(a[r].size, offset + |buf|), Overwrite(a[r].mem, buf[..done], offset))];
    WrittenTidy(a[r], buf[..done], offset, offset + |buf|);
    assert done == |buf| ==> buf[..done] == buf;
    assert Visible(a') ==
      Visible(a)[r := Fitted(Pwrite(a[r].mem[..a[r].size], buf[..done], offset), Max(a[r].size, offset + |buf|))];
  }

  ghost predicate PlainAt(trace: seq<Store>, ops: seq<Op>, out: seq<Reply>, i: nat)
    requires i < |ops| == |out| == |trace| - 1
  {
    Tidy(trace[i]) && Tidy(trace[i + 1]) && PlainStep(Visible(trace[i]), ops[i], out[i], Visible(trace[i + 1]))
  }

  /** A run of clean operations is one of the plain store. */
  lemma {:induction false} RunIsPlain(trace: seq<Store>, ops: seq<Op>, out: seq<Reply>, k: nat)
    requires Replays(trace, ops, out) && Tidy(trace[0]) && k <= |ops|
    requires forall i | 0 <= i < |ops| :: Clean(trace[i], ops[i]) && InRange(ops[i])
    ensures Tidy(trace[k])
    ensures forall i | 0 <= i < k :: PlainAt(trace, ops, out, i)
  {
    hide Step;
    hide Tidy;
    hide Clean;
    hide PlainStep;
    if k > 0 {
      RunIsPlain(trace, ops, out, k - 1);
      StepIsPlain(trace[k - 1], ops[k - 1], out[k - 1], trace[k]);
    }
  }
}
