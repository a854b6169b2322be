/** Directories: which names they hold, and what path resolution means. */
module FsDirs {
  import opened FsSpec
  import opened FsLemmas
  import opened FsBytes

  /** Entry j of block i of directory d is a file of this name. */
  predicate Listed(fs: Fs, d: Ref, i: nat, j: nat, name: string)
    requires Shape(fs) && Live(fs, d)
  {
    && i < NBLOCKS && i < FileAt(fs, d).size / BLKSIZE && j < BLKFILES && SlotOf(fs, d, i) != 0
    && Live(fs, Entry(SlotOf(fs, d, i), j)) && FileAt(fs, Entry(SlotOf(fs, d, i), j)).name == name
  }

  /** Directories are whole blocks, hold no name twice, and records without a name are blank. */
  ghost predicate DirsOk(fs: Fs)
    requires Shape(fs)
  {
    && (forall d | Live(fs, d) && FileAt(fs, d).ftype == DIR :: FileAt(fs, d).size % BLKSIZE == 0)
    && (forall d, i, j, i', j', name | Live(fs, d) && FileAt(fs, d).ftype == DIR && name != ""
          && Listed(fs, d, i, j, name) && Listed(fs, d, i', j', name) :: i == i' && j == j')
    && (forall r | Live(fs, r) && FileAt(fs, r).name == "" :: SameMeta(NoFile(), FileAt(fs, r)))
    && FileAt(fs, Root).name != ""
  }

  /** File r is the one of this name in directory d. */
  ghost predicate Finds(fs: Fs, d: Ref, name: string, r: Ref)
    requires Shape(fs)
  {
    Live(fs, d) && exists i, j | Listed(fs, d, i, j, name) :: r == Entry(SlotOf(fs, d, i), j)
  }

  datatype Option<T> = None | Some(value: T)

  ghost function Find(fs: Fs, d: Ref, name: string): (o: Option<Ref>)
    requires Shape(fs)
    ensures o.Some? ==> Finds(fs, d, name, o.value)
    ensures o.None? ==> forall r :: !Finds(fs, d, name, r)
  {
    if r :| Finds(fs, d, name, r) then Some(r) else None
  }

  lemma FindsOne(fs: Fs, d: Ref, name: string, r: Ref, r': Ref)
    requires Shape(fs) && DirsOk(fs) && Live(fs, d) && FileAt(fs, d).ftype == DIR && name != ""
    requires Finds(fs, d, name, r) && Finds(fs, d, name, r')
    ensures r == r'
  {
  }

  lemma FindIs(fs: Fs, d: Ref, name: string, r: Ref)
    requires Shape(fs) && DirsOk(fs) && Live(fs, d) && FileAt(fs, d).ftype == DIR && name != "" && Finds(fs, d, name, r)
    ensures Find(fs, d, name) == Some(r) && Live(fs, r) && FileAt(fs, r).name == name
  {
    FindsOne(fs, d, name, r, Find(fs, d, name).value);
  }

  // ---------------------------------------------------------------- steps that keep the names

  lemma GrownListed(fs: Fs, fs': Fs, d: Ref, i: nat, j: nat, name: string)
    requires Grown(fs, fs') && Live(fs, d) && FileAt(fs, d).ftype == DIR
    ensures Listed(fs, d, i, j, name) ==> Listed(fs', d, i, j, name) && SlotOf(fs', d, i) == SlotOf(fs, d, i)
    ensures name != "" && Inv(fs) && Listed(fs', d, i, j, name) ==> Listed(fs, d, i, j, name)
  {
    if name != "" && Inv(fs) && Listed(fs', d, i, j, name) {
      assert SlotOf(fs, d, i) == 0 ==> Nameless(fs', SlotOf(fs', d, i));
      assert Live(fs, Entry(SlotOf(fs, d, i), j));
    }
  }

  lemma GrownFinds(fs: Fs, fs': Fs, d: Ref, name: string, r: Ref)
    requires Grown(fs, fs') && Inv(fs) && Live(fs, d) && FileAt(fs, d).ftype == DIR && name != ""
    ensures Finds(fs', d, name, r) <==> Finds(fs, d, name, r)
  {
    if Finds(fs, d, name, r) {
      var i, j :| Listed(fs, d, i, j, name) && r == Entry(SlotOf(fs, d, i), j);
      GrownListed(fs, fs', d, i, j, name);
    }
    if Finds(fs', d, name, r) {
      var i, j :| Listed(fs', d, i, j, name) && r == Entry(SlotOf(fs', d, i), j);
      GrownListed(fs, fs', d, i, j, name);
    }
  }

  lemma GrownDirsOk(fs: Fs, fs': Fs)
    requires Grown(fs, fs') && Inv(fs) && DirsOk(fs)
    ensures DirsOk(fs')
  {
    forall d, i, j, i', j', name | Live(fs', d) && FileAt(fs', d).ftype == DIR && name != ""
      && Listed(fs', d, i, j, name) && Listed(fs', d, i', j', name) ensures i == i' && j == j' {
      GrownListed(fs, fs', d, i, j, name);
      GrownListed(fs, fs', d, i', j', name);
    }
  }

  /** Reading, writing or resizing a named regular file changes no directory. */
  lemma ChangedListed(fs: Fs, fs': Fs, r: Ref, d: Ref, i: nat, j: nat, name: string)
    requires Changed(fs, fs', r) && FileAt(fs, r).ftype == REG && Live(fs, d) && FileAt(fs, d).ftype == DIR
    requires name != ""
    ensures Listed(fs, d, i, j, name) ==> Listed(fs', d, i, j, name) && SlotOf(fs', d, i) == SlotOf(fs, d, i)
    ensures Inv(fs) && Listed(fs', d, i, j, name) ==> Listed(fs, d, i, j, name)
  {
    if Inv(fs) && Listed(fs', d, i, j, name) {
      assert SlotOf(fs, d, i) == 0 ==> Nameless(fs', SlotOf(fs', d, i));
      assert Live(fs, Entry(SlotOf(fs, d, i), j));
    }
  }

  lemma ChangedDirsOk(fs: Fs, fs': Fs, r: Ref)
    requires Changed(fs, fs', r) && FileAt(fs, r).ftype == REG && FileAt(fs, r).name != "" && Inv(fs) && DirsOk(fs)
    ensures DirsOk(fs')
  {
    forall d, i, j, i', j', name | Live(fs', d) && FileAt(fs', d).ftype == DIR && name != ""
      && Listed(fs', d, i, j, name) && Listed(fs', d, i', j', name) ensures i == i' && j == j' {
      ChangedListed(fs, fs', r, d, i, j, name);
      ChangedListed(fs, fs', r, d, i', j', name);
    }
  }

  /** A directory that has been cut off or extended lists what it listed, up to the cut. */
  lemma ShrunkListed(fs: Fs, fs': Fs, r: Ref, n: nat, d: Ref, i: nat, j: nat, name: string)
    requires Shape(fs) && Inv(fs) && Shrunk(fs, fs', r, Blocks(n)) && FileAt(fs', r).size == n && DirsOk(fs)
    requires Live(fs', d) && FileAt(fs', d).ftype == DIR && Listed(fs', d, i, j, name)
    ensures Live(fs, d) && FileAt(fs, d).ftype == DIR && Listed(fs, d, i, j, name)
  {
    hide Inv;
    SlotStays(fs, d, i);
    WholeBlocks(FileAt(fs, d).size);
  }

  /** Setting the size of a directory keeps its form exactly if the size is whole blocks. */
  lemma ResizeKeepsDirsIff(fs: Fs, fs': Fs, r: Ref, n: nat)
    requires Shape(fs) && Inv(fs) && Shrunk(fs, fs', r, Blocks(n)) && FileAt(fs', r).size == n && DirsOk(fs)
    requires FileAt(fs, r).ftype == DIR
    ensures DirsOk(fs') <==> n % BLKSIZE == 0
  {
    hide Inv;
    forall d, i, j, i', j', name | Live(fs', d) && FileAt(fs', d).ftype == DIR && name != ""
      && Listed(fs', d, i, j, name) && Listed(fs', d, i', j', name) ensures i == i' && j == j' {
      ShrunkListed(fs, fs', r, n, d, i, j, name);
      ShrunkListed(fs, fs', r, n, d, i', j', name);
    }
  }

  // ---------------------------------------------------------------- path resolution

  /** What walk_path can report: the file and the directory it is in; the directory in which
      only the last component is missing; or neither. */
  datatype Walked = Found(dir: Option<Ref>, file: Ref) | Missing(parent: Ref, last: string) | NotFound | BadPath

  /** Path resolution, as a function of the component list alone. */
  ghost function Walk(fs: Fs, prev: Option<Ref>, d: Ref, c: seq<string>): Walked
    requires Shape(fs)
    decreases |c|
  {
    if c == [] then Found(prev, d)
    else if |c[0]| >= MAXNAMELEN then BadPath
    else if !Live(fs, d) || FileAt(fs, d).ftype != DIR then NotFound
    else match Find(fs, d, c[0])
      case Some(r) => Walk(fs, Some(d), r, c[1..])
      case None => if |c| == 1 then Missing(d, c[0]) else NotFound
  }

  predicate Proper(c: seq<string>) {
    forall k | 0 <= k < |c| :: c[k] != ""
  }

  // ---------------------------------------------------------------- blocks that a search reads

  /** The first i blocks of the directory do not hold the name. */
  ghost predicate NotBefore(fs: Fs, d: Ref, i: nat, name: string) {
    Shape(fs) && Live(fs, d) && forall i': nat, j: nat | i' < i :: !Listed(fs, d, i', j, name)
  }

  /** A search of the directory for the name comes to block i. */
  ghost predicate Reads(fs: Fs, d: Ref, name: string, i: nat) {
    NotBefore(fs, d, i, name) && i < FileAt(fs, d).size / BLKSIZE
  }

  /** The search comes to a block that is missing or, if not a hole, beyond the largest file. */
  ghost predicate Blocked(fs: Fs, d: Ref, name: string, hole: bool) {
    exists i: nat :: Reads(fs, d, name, i) && if hole then i < NBLOCKS && SlotOf(fs, d, i) == 0 else i >= NBLOCKS
  }

  /** So does one of the searches that the path takes. */
  ghost predicate PathBlocked(fs: Fs, d: Ref, c: seq<string>, hole: bool)
    requires Shape(fs)
    decreases |c|
  {
    && c != [] && |c[0]| < MAXNAMELEN && Live(fs, d) && FileAt(fs, d).ftype == DIR
    && (|| Blocked(fs, d, c[0], hole)
        || (Find(fs, d, c[0]).Some? && PathBlocked(fs, Find(fs, d, c[0]).value, c[1..], hole)))
  }

  /** Every block that following the path reads is there. */
  ghost predicate PathClear(fs: Fs, d: Ref, c: seq<string>)
    requires Shape(fs)
  {
    !PathBlocked(fs, d, c, true) && !PathBlocked(fs, d, c, false)
  }

  /** No directory has a hole or is longer than a file can be. */
  ghost predicate WholeDirs(fs: Fs)
    requires Shape(fs)
  {
    forall d | Live(fs, d) && FileAt(fs, d).ftype == DIR ::
      && FileAt(fs, d).size <= MAXFILESIZE
      && forall i | 0 <= i < NBLOCKS && i < FileAt(fs, d).size / BLKSIZE :: SlotOf(fs, d, i) != 0
  }

  lemma {:induction false} WholeIsClear(fs: Fs, d: Ref, c: seq<string>)
    requires Shape(fs) && WholeDirs(fs)
    ensures PathClear(fs, d, c)
    decreases |c|
  {
    if c != [] && Find(fs, d, c[0]).Some? { WholeIsClear(fs, Find(fs, d, c[0]).value, c[1..]); }
  }

  /** A search that blocks filled in have not helped was blocked before. */
  lemma GrownUnblocks(fs: Fs, fs': Fs, d: Ref, name: string, hole: bool)
    requires Grown(fs, fs') && Live(fs, d) && FileAt(fs, d).ftype == DIR && Blocked(fs', d, name, hole)
    ensures Blocked(fs, d, name, hole)
  {
    var i: nat :| Reads(fs', d, name, i) && if hole then i < NBLOCKS && SlotOf(fs', d, i) == 0 else i >= NBLOCKS;
    forall i': nat, j: nat | i' < i ensures !Listed(fs, d, i', j, name) { GrownListed(fs, fs', d, i', j, name); }
    assert Reads(fs, d, name, i);
  }

  ghost predicate Unblocked(fs: Fs, d: Ref, name: string) {
    !Blocked(fs, d, name, true) && !Blocked(fs, d, name, false)
  }

  /** The first n blocks of the directory are there. */
  ghost predicate Present(fs: Fs, d: Ref, n: nat) {
    Shape(fs) && Live(fs, d) && n <= NBLOCKS && forall i | 0 <= i < n :: SlotOf(fs, d, i) != 0
  }

  lemma FoundUnblocked(fs: Fs, d: Ref, i: nat, j: nat, name: string)
    requires Present(fs, d, i + 1) && Listed(fs, d, i, j, name)
    ensures Unblocked(fs, d, name)
  {
    forall k: nat | Reads(fs, d, name, k) ensures k <= i {}
  }

  lemma AllUnblocked(fs: Fs, d: Ref, name: string)
    requires Shape(fs) && Live(fs, d) && Present(fs, d, FileAt(fs, d).size / BLKSIZE)
    ensures Unblocked(fs, d, name)
  {
  }

  /** A search that ends without the name has seen every block. */
  lemma SeenAll(fs: Fs, d: Ref, name: string)
    requires Shape(fs) && Live(fs, d) && Unblocked(fs, d, name) && Find(fs, d, name) == None
    ensures Present(fs, d, FileAt(fs, d).size / BLKSIZE)
  {
    var n := FileAt(fs, d).size / BLKSIZE;
    forall i: nat, j: nat ensures !Listed(fs, d, i, j, name) {
      if Listed(fs, d, i, j, name) { assert Finds(fs, d, name, Entry(SlotOf(fs, d, i), j)); }
    }
    forall i: nat | i < n ensures i < NBLOCKS && SlotOf(fs, d, i) != 0 {
      assert Reads(fs, d, name, i);
    }
    assert n > NBLOCKS ==> Reads(fs, d, name, NBLOCKS);
  }

  /** Directories keep their entries and blocks where they were. */
  ghost predicate KeepsEntries(fs: Fs, fs': Fs) {
    && Shape(fs) && Shape(fs')
    && (forall d | Live(fs, d) && FileAt(fs, d).ftype == DIR :: Live(fs', d) && FileAt(fs', d).ftype == DIR)
    && (forall d, i, j, name | Live(fs, d) && FileAt(fs, d).ftype == DIR && name != "" && Listed(fs, d, i, j, name) ::
          Listed(fs', d, i, j, name))
    && (forall d, i | Live(fs, d) && FileAt(fs, d).ftype == DIR && 0 <= i < NBLOCKS && SlotOf(fs, d, i) != 0 ::
          SlotOf(fs', d, i) == SlotOf(fs, d, i))
  }

  lemma KeepsEntriesTwice(a: Fs, b: Fs, c: Fs)
    requires KeepsEntries(a, b) && KeepsEntries(b, c)
    ensures KeepsEntries(a, c)
  {
  }

  lemma GrownKeepsEntries(fs: Fs, fs': Fs)
    requires Grown(fs, fs')
    ensures KeepsEntries(fs, fs')
  {
    forall d, i, j, name | Live(fs, d) && FileAt(fs, d).ftype == DIR && name != "" && Listed(fs, d, i, j, name)
      ensures Listed(fs', d, i, j, name)
    {
      GrownListed(fs, fs', d, i, j, name);
    }
  }

  /** What a search has found it finds again, reading the same blocks. */
  lemma KeepsUnblocked(fs: Fs, fs': Fs, d: Ref, name: string)
    requires KeepsEntries(fs, fs') && DirsOk(fs) && Live(fs, d) && FileAt(fs, d).ftype == DIR && name != ""
    requires Unblocked(fs, d, name) && Find(fs, d, name).Some?
    ensures Unblocked(fs', d, name)
  {
    var r := Find(fs, d, name).value;
    var i: nat, j: nat :| Listed(fs, d, i, j, name) && r == Entry(SlotOf(fs, d, i), j);
    forall k: nat | k <= i ensures SlotOf(fs, d, k) != 0 {
      assert NotBefore(fs, d, k, name);
      assert Reads(fs, d, name, k);
    }
    assert Present(fs, d, i + 1);
    FoundUnblocked(fs', d, i, j, name);
  }

  /** Files stay files, directories directories, and every name means what it meant. */
  ghost predicate KeepsNames(fs: Fs, fs': Fs) {
    && Inv(fs) && Inv(fs') && DirsOk(fs) && DirsOk(fs')
    && (forall r | Live(fs, r) ::
          Live(fs', r) && FileAt(fs', r).name == FileAt(fs, r).name && FileAt(fs', r).ftype == FileAt(fs, r).ftype)
    && (forall d, name | Live(fs, d) && FileAt(fs, d).ftype == DIR && name != "" ::
          Find(fs', d, name) == Find(fs, d, name))
  }

  lemma KeepsNamesTwice(a: Fs, b: Fs, c: Fs)
    requires KeepsNames(a, b) && KeepsNames(b, c)
    ensures KeepsNames(a, c)
  {
  }

  lemma FindSame(fs: Fs, fs': Fs, d: Ref, name: string)
    requires Shape(fs) && Shape(fs') && DirsOk(fs) && DirsOk(fs') && name != ""
    requires Live(fs, d) && FileAt(fs, d).ftype == DIR && Live(fs', d) && FileAt(fs', d).ftype == DIR
    requires forall r :: Finds(fs, d, name, r) <==> Finds(fs', d, name, r)
    ensures Find(fs', d, name) == Find(fs, d, name)
  {
    var o := Find(fs, d, name);
    if o.Some? {
      FindIs(fs', d, name, o.value);
    }
  }

  /** Blocks that a search allocates do not change what names mean. */
  lemma GrownKeepsNames(fs: Fs, fs': Fs)
    requires Grown(fs, fs') && Inv(fs) && Inv(fs') && DirsOk(fs)
    ensures KeepsNames(fs, fs')
  {
    GrownDirsOk(fs, fs');
    forall d, name | Live(fs, d) && FileAt(fs, d).ftype == DIR && name != ""
      ensures Find(fs', d, name) == Find(fs, d, name)
    {
      forall r ensures Finds(fs', d, name, r) <==> Finds(fs, d, name, r) { GrownFinds(fs, fs', d, name, r); }
      FindSame(fs, fs', d, name);
    }
  }

  lemma {:induction false} KeepsWalk(fs: Fs, fs': Fs, prev: Option<Ref>, d: Ref, c: seq<string>)
    requires Shape(fs) && Shape(fs') && KeepsNames(fs, fs') && Live(fs, d) && Proper(c)
    ensures Walk(fs', prev, d, c) == Walk(fs, prev, d, c)
    decreases |c|
  {
    hide Inv;
    hide DirsOk;
    if c != [] && FileAt(fs, d).ftype == DIR && Find(fs, d, c[0]).Some? {
      FindIs(fs, d, c[0], Find(fs, d, c[0]).value);
      KeepsWalk(fs, fs', Some(d), Find(fs, d, c[0]).value, c[1..]);
    }
  }

  /** No file has lost its name or lost or changed a byte, and no regular file its size. */
  ghost predicate KeepsBytes(fs: Fs, fs': Fs) {
    && Shape(fs) && Shape(fs')
    && (forall r | Live(fs, r) ::
          && Live(fs', r)
          && (FileAt(fs, r).ftype == REG ==> FileAt(fs', r).ftype == REG && FileAt(fs', r).size == FileAt(fs, r).size))
    && (forall r | Live(fs, r) && FileAt(fs, r).name != "" :: FileAt(fs', r).name == FileAt(fs, r).name)
    && (forall r, i | Live(fs, r) && 0 <= i < NBLOCKS :: BlockBytes(fs', r, i) == BlockBytes(fs, r, i))
  }

  lemma GrownKeepsBytes(fs: Fs, fs': Fs)
    requires Grown(fs, fs')
    ensures KeepsBytes(fs, fs')
  {
  }

  lemma KeepsBytesTwice(a: Fs, b: Fs, c: Fs)
    requires KeepsBytes(a, b) && KeepsBytes(b, c)
    ensures KeepsBytes(a, c)
  {
  }

  /** A missing last component is missing from the directory that the rest leads to. */
  lemma {:induction false} MissingMeans(fs: Fs, prev: Option<Ref>, d: Ref, c: seq<string>)
    requires Shape(fs) && DirsOk(fs) && Live(fs, d) && Proper(c) && Walk(fs, prev, d, c).Missing?
    ensures var w := Walk(fs, prev, d, c);
            && Live(fs, w.parent) && FileAt(fs, w.parent).ftype == DIR && Find(fs, w.parent, w.last) == None
            && c != [] && w.last == c[|c| - 1] && 0 < |w.last| < MAXNAMELEN
    decreases |c|
  {
    if Find(fs, d, c[0]).Some? {
      FindIs(fs, d, c[0], Find(fs, d, c[0]).value);
      MissingMeans(fs, Some(d), Find(fs, d, c[0]).value, c[1..]);
    }
  }

  // ---------------------------------------------------------------- a longer directory

  function ExtendDir(fs: Fs, d: Ref): Fs
    requires Shape(fs) && Live(fs, d)
  {
    PutFile(fs, d, FileAt(fs, d).(size := FileAt(fs, d).size + BLKSIZE))
  }

  lemma ExtendAt(fs: Fs, d: Ref)
    requires Shape(fs) && Live(fs, d)
    ensures var fs' := ExtendDir(fs, d);
            && Shape(fs') && (forall r :: Live(fs', r) <==> Live(fs, r))
            && (forall r | Live(fs, r) ::
                  FileAt(fs', r) == FileAt(fs, r).(size := FileAt(fs, r).size + if r == d then BLKSIZE else 0))
            && (forall r, i | Live(fs, r) && 0 <= i < NBLOCKS :: SlotOf(fs', r, i) == SlotOf(fs, r, i))
            && (FileAt(fs, d).ftype == DIR ==> KeepsBytes(fs, fs'))
  {
    var f := FileAt(fs, d).(size := FileAt(fs, d).size + BLKSIZE);
    PutFileAt(fs, d, f);
    PutFileSlots(fs, d, f);
  }

  lemma BeyondEnd(fs: Fs, d: Ref, i: nat)
    requires Inv(fs) && DirsOk(fs) && Live(fs, d) && FileAt(fs, d).ftype == DIR
    requires FileAt(fs, d).size / BLKSIZE <= i < NBLOCKS
    ensures SlotOf(fs, d, i) == 0
  {
    WholeBlocks(FileAt(fs, d).size);
  }

  /** A directory that has just become a block longer holds no new names, for it has no block
      there yet. */
  lemma ExtendListed(fs: Fs, d: Ref, d': Ref, i: nat, j: nat, name: string)
    requires Shape(fs) && Inv(fs) && DirsOk(fs) && Live(fs, d) && FileAt(fs, d).ftype == DIR && Live(fs, d')
    requires FileAt(fs, d').ftype == DIR
    ensures Shape(ExtendDir(fs, d)) && Live(ExtendDir(fs, d), d')
    ensures Listed(ExtendDir(fs, d), d', i, j, name) <==> Listed(fs, d', i, j, name)
    ensures i < NBLOCKS ==> SlotOf(ExtendDir(fs, d), d', i) == SlotOf(fs, d', i)
  {
    hide Inv;
    hide DirsOk;
    hide ExtendDir;
    ExtendAt(fs, d);
    if FileAt(fs, d).size / BLKSIZE <= i < NBLOCKS {
      BeyondEnd(fs, d, i);
    }
  }

  lemma WholeBlocks(n: nat)
    requires n % BLKSIZE == 0
    ensures Blocks(n) == n / BLKSIZE && (n + BLKSIZE) / BLKSIZE == n / BLKSIZE + 1 && (n + BLKSIZE) % BLKSIZE == 0
    ensures Blocks(n + BLKSIZE) == Blocks(n) + 1
  {
  }

  lemma ExtendInv(fs: Fs, d: Ref)
    requires Inv(fs) && DirsOk(fs) && Live(fs, d) && FileAt(fs, d).ftype == DIR
    ensures Inv(ExtendDir(fs, d))
    ensures FileAt(fs, d).size / BLKSIZE < Blocks(FileAt(ExtendDir(fs, d), d).size)
  {
    hide Blocks;
    hide Names;
    hide Named;
    var n := FileAt(fs, d).size;
    WholeBlocks(n);
    ResizeInv(fs, d, n + BLKSIZE);
  }

  lemma ExtendDirsOk(fs: Fs, d: Ref)
    requires Shape(fs) && Inv(fs) && DirsOk(fs) && Live(fs, d) && FileAt(fs, d).ftype == DIR
    ensures Shape(ExtendDir(fs, d)) && DirsOk(ExtendDir(fs, d))
  {
    hide Inv;
    hide ExtendDir;
    var fs' := ExtendDir(fs, d);
    ExtendAt(fs, d);
    assert FileAt(fs, d).size % BLKSIZE == 0;
    WholeBlocks(FileAt(fs, d).size);
    forall d', i, j, i', j', name | Live(fs', d') && FileAt(fs', d').ftype == DIR && name != ""
      && Listed(fs', d', i, j, name) && Listed(fs', d', i', j', name) ensures i == i' && j == j' {
      ExtendListed(fs, d, d', i, j, name);
      ExtendListed(fs, d, d', i', j', name);
    }
  }

  lemma ExtendKeepsEntries(fs: Fs, d: Ref)
    requires Shape(fs) && Inv(fs) && DirsOk(fs) && Live(fs, d) && FileAt(fs, d).ftype == DIR
    ensures KeepsEntries(fs, ExtendDir(fs, d))
  {
    hide Inv;
    hide DirsOk;
    hide ExtendDir;
    ExtendAt(fs, d);
    forall d', i, j, name | Live(fs, d') && FileAt(fs, d').ftype == DIR && name != "" && Listed(fs, d', i, j, name)
      ensures Listed(ExtendDir(fs, d), d', i, j, name) {
      ExtendListed(fs, d, d', i, j, name);
    }
  }

  lemma ExtendFind(fs: Fs, d: Ref, d': Ref, name: string)
    requires Shape(fs) && Inv(fs) && DirsOk(fs) && Live(fs, d) && FileAt(fs, d).ftype == DIR && Live(fs, d')
    requires FileAt(fs, d').ftype == DIR
    requires name != ""
    ensures Shape(ExtendDir(fs, d)) && Find(ExtendDir(fs, d), d', name) == Find(fs, d', name)
  {
    hide Inv;
    hide DirsOk;
    hide ExtendDir;
    var fs' := ExtendDir(fs, d);
    ExtendAt(fs, d);
    ExtendDirsOk(fs, d);
    forall i, j
      ensures Listed(fs', d', i, j, name) <==> Listed(fs, d', i, j, name)
    {
      ExtendListed(fs, d, d', i, j, name);
    }
    FindSame(fs, fs', d', name);
  }

  lemma ExtendKeepsNames(fs: Fs, d: Ref)
    requires Shape(fs) && Inv(fs) && DirsOk(fs) && Live(fs, d) && FileAt(fs, d).ftype == DIR
    ensures Inv(ExtendDir(fs, d)) && KeepsNames(fs, ExtendDir(fs, d))
  {
    hide Inv;
    hide DirsOk;
    hide ExtendDir;
    var fs' := ExtendDir(fs, d);
    ExtendAt(fs, d);
    ExtendInv(fs, d);
    ExtendDirsOk(fs, d);
    forall d', name | Live(fs, d') && FileAt(fs, d').ftype == DIR && name != ""
      ensures Find(fs', d', name) == Find(fs, d', name)
    {
      ExtendFind(fs, d, d', name);
    }
  }

  // ---------------------------------------------------------------- a new name

  function Rename(fs: Fs, r: Ref, name: string): Fs
    requires Shape(fs) && Live(fs, r)
  {
    PutFile(fs, r, FileAt(fs, r).(name := name))
  }

  /** One more name in one directory; every other name means what it meant. */
  ghost predicate AddsName(fs: Fs, fs': Fs, d: Ref, name: string, r: Ref) {
    && Inv(fs) && Inv(fs') && DirsOk(fs) && DirsOk(fs') && Live(fs, d) && FileAt(fs, d).ftype == DIR
    && (forall r' | Live(fs, r') :: Live(fs', r') && FileAt(fs', r').ftype == FileAt(fs, r').ftype)
    && (forall d', n | Live(fs, d') && FileAt(fs, d').ftype == DIR && n != "" ::
          Find(fs', d', n) == if d' == d && n == name then Some(r) else Find(fs, d', n))
  }

  lemma RenameAt(fs: Fs, r: Ref, name: string)
    requires Shape(fs) && Live(fs, r)
    ensures var fs' := Rename(fs, r, name);
            && Shape(fs') && (forall r' :: Live(fs', r') <==> Live(fs, r'))
            && (forall r' | Live(fs, r') ::
                  FileAt(fs', r') == if r' == r then FileAt(fs, r).(name := name) else FileAt(fs, r'))
            && (forall r', i | Live(fs, r') && 0 <= i < NBLOCKS :: SlotOf(fs', r', i) == SlotOf(fs, r', i))
            && (FileAt(fs, r).name == "" ==> KeepsBytes(fs, fs'))
  {
    var f := FileAt(fs, r).(name := name);
    PutFileAt(fs, r, f);
    PutFileSlots(fs, r, f);
  }

  lemma RenameListed(fs: Fs, d: Ref, i0: nat, j0: nat, name: string, d': Ref, i: nat, j: nat, n: string)
    requires Shape(fs) && Inv(fs) && DirsOk(fs) && Live(fs, d) && FileAt(fs, d).ftype == DIR
    requires Listed(fs, d, i0, j0, "") && name != "" && n != ""
    requires Live(fs, d') && FileAt(fs, d').ftype == DIR
    ensures Shape(Rename(fs, Entry(SlotOf(fs, d, i0), j0), name))
    ensures Live(Rename(fs, Entry(SlotOf(fs, d, i0), j0), name), d')
    ensures var fs' := Rename(fs, Entry(SlotOf(fs, d, i0), j0), name);
            Listed(fs', d', i, j, n) <==> Listed(fs, d', i, j, n) || (d' == d && i == i0 && j == j0 && n == name)
    ensures i < NBLOCKS ==> SlotOf(Rename(fs, Entry(SlotOf(fs, d, i0), j0), name), d', i) == SlotOf(fs, d', i)
  {
    hide Inv;
    hide DirsOk;
    hide Rename;
    RenameAt(fs, Entry(SlotOf(fs, d, i0), j0), name);
    SlotStays(fs, d, i0);
    if i < NBLOCKS && SlotOf(fs, d', i) != 0 { SlotStays(fs, d', i); }
  }

  lemma RenameInv(fs: Fs, r: Ref, name: string)
    requires Inv(fs) && Live(fs, r)
    ensures Inv(Rename(fs, r, name))
  {
    RenameAt(fs, r, name);
    var f := FileAt(fs, r).(name := name);
    PutFileAt(fs, r, f);
    PutFileSlots(fs, r, f);
  }

  lemma RenameDirsOk(fs: Fs, d: Ref, i0: nat, j0: nat, name: string)
    requires Shape(fs) && Inv(fs) && DirsOk(fs) && Live(fs, d) && FileAt(fs, d).ftype == DIR
    requires Listed(fs, d, i0, j0, "") && name != ""
    requires forall r :: !Finds(fs, d, name, r)
    ensures var fs' := Rename(fs, Entry(SlotOf(fs, d, i0), j0), name); Shape(fs') && DirsOk(fs')
  {
    hide Inv;
    hide Rename;
    var r := Entry(SlotOf(fs, d, i0), j0);
    var fs' := Rename(fs, r, name);
    RenameAt(fs, r, name);
    assert forall i, j | Listed(fs, d, i, j, name) :: Finds(fs, d, name, Entry(SlotOf(fs, d, i), j));
    forall d', i, j, i', j', n | Live(fs', d') && FileAt(fs', d').ftype == DIR && n != ""
      && Listed(fs', d', i, j, n) && Listed(fs', d', i', j', n) ensures i == i' && j == j' {
      RenameListed(fs, d, i0, j0, name, d', i, j, n);
      RenameListed(fs, d, i0, j0, name, d', i', j', n);
    }
  }

  lemma RenameFind(fs: Fs, d: Ref, i0: nat, j0: nat, name: string, d': Ref, n: string)
    requires Shape(fs) && Inv(fs) && DirsOk(fs) && Live(fs, d) && FileAt(fs, d).ftype == DIR
    requires Listed(fs, d, i0, j0, "") && name != "" && n != ""
    requires (forall r :: !Finds(fs, d, name, r)) && Live(fs, d') && FileAt(fs, d').ftype == DIR
    ensures var r := Entry(SlotOf(fs, d, i0), j0);
            var fs' := Rename(fs, r, name);
            && Shape(fs') && Find(fs', d', n) == if d' == d && n == name then Some(r) else Find(fs, d', n)
  {
    hide Inv;
    hide DirsOk;
    hide Rename;
    var r := Entry(SlotOf(fs, d, i0), j0);
    var fs' := Rename(fs, r, name);
    RenameAt(fs, r, name);
    RenameDirsOk(fs, d, i0, j0, name);
    forall i, j
      ensures Listed(fs', d', i, j, n) <==> Listed(fs, d', i, j, n) || (d' == d && i == i0 && j == j0 && n == name)
    {
      RenameListed(fs, d, i0, j0, name, d', i, j, n);
    }
    if d' == d && n == name {
      assert Listed(fs', d, i0, j0, name);
      FindIs(fs', d, name, r);
    } else {
      FindSame(fs, fs', d', n);
    }
  }

  lemma RenameAddsName(fs: Fs, d: Ref, i0: nat, j0: nat, name: string)
    requires Shape(fs) && Inv(fs) && DirsOk(fs) && Live(fs, d) && FileAt(fs, d).ftype == DIR
    requires Listed(fs, d, i0, j0, "") && name != ""
    requires Find(fs, d, name) == None
    ensures var r := Entry(SlotOf(fs, d, i0), j0);
            Inv(Rename(fs, r, name)) && AddsName(fs, Rename(fs, r, name), d, name, r)
  {
    hide Inv;
    hide DirsOk;
    hide Rename;
    var r := Entry(SlotOf(fs, d, i0), j0);
    RenameAt(fs, r, name);
    RenameInv(fs, r, name);
    RenameDirsOk(fs, d, i0, j0, name);
    forall d', n | Live(fs, d') && FileAt(fs, d').ftype == DIR && n != ""
      ensures Find(Rename(fs, r, name), d', n) == if d' == d && n == name then Some(r) else Find(fs, d', n) {
      RenameFind(fs, d, i0, j0, name, d', n);
    }
  }

  lemma RenameKeepsEntries(fs: Fs, r: Ref, name: string)
    requires Shape(fs) && Live(fs, r) && FileAt(fs, r).name == ""
    ensures KeepsEntries(fs, Rename(fs, r, name))
  {
    RenameAt(fs, r, name);
  }

  lemma KeepsThenAdds(a: Fs, b: Fs, c: Fs, d: Ref, name: string, r: Ref)
    requires KeepsNames(a, b) && AddsName(b, c, d, name, r) && Live(a, d)
    ensures AddsName(a, c, d, name, r)
  {
  }

  lemma AddedFind(fs: Fs, fs': Fs, d0: Ref, name: string, r: Ref, d: Ref, n: string)
    requires AddsName(fs, fs', d0, name, r) && Live(fs, d) && FileAt(fs, d).ftype == DIR && n != ""
    ensures Find(fs', d, n) == if d == d0 && n == name then Some(r) else Find(fs, d, n)
    ensures Find(fs, d, n).Some? ==> Live(fs, Find(fs, d, n).value)
  {
    if Find(fs, d, n).Some? { FindIs(fs, d, n, Find(fs, d, n).value); }
  }

  /** Creation: the path now leads to the new file, and every path that led somewhere before
      still leads there. */
  lemma {:induction false} AddedWalk(fs: Fs, fs': Fs, d0: Ref, name: string, r: Ref, prev: Option<Ref>, d: Ref,
                                     c: seq<string>)
    requires Shape(fs) && Shape(fs') && AddsName(fs, fs', d0, name, r) && Live(fs, d) && Proper(c)
    requires Find(fs, d0, name) == None
    ensures Walk(fs, prev, d, c).Found? ==> Walk(fs', prev, d, c) == Walk(fs, prev, d, c)
    ensures Walk(fs, prev, d, c) == Missing(d0, name) ==> Walk(fs', prev, d, c) == Found(Some(d0), r)
    decreases |c|
  {
    hide Inv;
    hide DirsOk;
    hide Find;
    if c != [] && FileAt(fs, d).ftype == DIR {
      AddedFind(fs, fs', d0, name, r, d, c[0]);
      if Find(fs, d, c[0]).Some? {
        AddedWalk(fs, fs', d0, name, r, Some(d), Find(fs, d, c[0]).value, c[1..]);
      }
    }
  }

  /** The search for a missing last component is one of those that the path takes. */
  lemma {:induction false} MissingUnblocked(fs: Fs, prev: Option<Ref>, d: Ref, c: seq<string>)
    requires Shape(fs) && Walk(fs, prev, d, c).Missing? && PathClear(fs, d, c)
    ensures Unblocked(fs, Walk(fs, prev, d, c).parent, Walk(fs, prev, d, c).last)
    decreases |c|
  {
    if Find(fs, d, c[0]).Some? { MissingUnblocked(fs, Some(d), Find(fs, d, c[0]).value, c[1..]); }
  }

  /** After creation, following the path reads no block that is not there. */
  lemma {:induction false} AddedClear(fs: Fs, fs': Fs, d0: Ref, name: string, r: Ref, prev: Option<Ref>, d: Ref,
                                      c: seq<string>)
    requires Shape(fs) && Shape(fs') && AddsName(fs, fs', d0, name, r) && KeepsEntries(fs, fs')
    requires Unblocked(fs', d0, name)
    requires Live(fs, d) && Proper(c) && Walk(fs, prev, d, c) == Missing(d0, name) && Find(fs, d0, name) == None
    requires PathClear(fs, d, c)
    ensures PathClear(fs', d, c)
    decreases |c|
  {
    hide Inv;
    hide DirsOk;
    hide Find;
    hide Blocked;
    hide KeepsEntries;
    AddedFind(fs, fs', d0, name, r, d, c[0]);
    if Find(fs, d, c[0]).Some? {
      AddedUnblocked(fs, fs', d0, name, r, d, c[0]);
      AddedClear(fs, fs', d0, name, r, Some(d), Find(fs, d, c[0]).value, c[1..]);
    } else {
      assert c[1..] == [] && PathClear(fs', r, c[1..]);
    }
  }

  lemma AddedUnblocked(fs: Fs, fs': Fs, d0: Ref, name: string, r: Ref, d: Ref, n: string)
    requires AddsName(fs, fs', d0, name, r) && KeepsEntries(fs, fs') && Live(fs, d) && FileAt(fs, d).ftype == DIR
    requires n != ""
    requires Find(fs, d, n).Some? && Unblocked(fs, d, n)
    ensures Unblocked(fs', d, n)
  {
    KeepsUnblocked(fs, fs', d, n);
  }
}
