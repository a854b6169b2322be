/** fs/fsformat.c: the program that lays out a disk image. */
module Format {
  import opened FsSpec
  import opened FsLemmas
  import opened FsBytes
  import opened FsDirs
  import opened FormatSpec
  import opened Files
  import opened FsTheorems
  import opened BlockCache

  class Formatter {
    const nblocks: nat
    /** diskpos, counted in blocks. */
    var diskpos: nat
    var blocks: seq<Block>
    var ents: seq<File>
    ghost var own: seq<Own>

    ghost function M(): Image
      reads this
    {
      Image(diskpos, blocks, ents, own)
    }

    /** opendisk on a disk of enough blocks for the first three: the unused block 0, the super
        block and the bitmap. */
    constructor OpenDisk(n: nat)
      requires 3 < n
      ensures nblocks == n && diskpos == 3 && Sound(M(), 3) && ents == [] && |blocks| == n
    {
      nblocks := n;
      diskpos := 3;
      blocks := seq(n, _ => Data(Zeros()));
      ents := [];
      own := seq(n, b => if b < 3 then System else Nobody);
    }

    /** alloc.  False is the panic. */
    method Alloc(bytes: nat) returns (start: nat, ok: bool)
      requires bytes <= TWO32 - BLKSIZE
      modifies this`diskpos
      ensures start == old(diskpos) && diskpos == old(diskpos) + Blocks(bytes) && ok == (diskpos < nblocks)
    {
      RoundUps(bytes);
      start := diskpos;
      diskpos := diskpos + RoundUp32(bytes) / BLKSIZE;
      ok := diskpos < nblocks;
    }

    /** finishfile's direct slots. */
    method DirectSlots(direct0: seq<nat>, start: nat, n: nat) returns (direct: seq<nat>, i: nat)
      requires |direct0| == NDIRECT
      ensures |direct| == NDIRECT && i == Min(n, NDIRECT)
      ensures forall j | 0 <= j < NDIRECT :: direct[j] == if j < n then start + j else direct0[j]
    {
      direct, i := direct0, 0;
      while i < n && i < NDIRECT
        invariant i <= n && i <= NDIRECT && |direct| == NDIRECT
        invariant forall j | 0 <= j < NDIRECT :: direct[j] == if j < i then start + j else direct0[j]
      {
        direct := direct[i := start + i];
        i := i + 1;
      }
    }

    /** finishfile's indirect block. */
    method IndirectSlots(start: nat, n: nat) returns (ptrs: seq<nat>)
      requires NDIRECT <= n <= NBLOCKS
      ensures |ptrs| == NINDIRECT
      ensures forall j | 0 <= j < NINDIRECT :: ptrs[j] == if NDIRECT + j < n then start + NDIRECT + j else 0
    {
      ptrs := seq(NINDIRECT, _ => 0);
      var i := NDIRECT;
      while i < n
        invariant NDIRECT <= i <= n && |ptrs| == NINDIRECT
        invariant forall j | 0 <= j < NINDIRECT :: ptrs[j] == if NDIRECT + j < i then start + NDIRECT + j else 0
      {
        ptrs := ptrs[i - NDIRECT := start + i];
        i := i + 1;
      }
    }

    /** finishfile, for a file whose blocks are the last ones allocated.  Slots beyond them keep
        what they held. */
    method FinishFile(f: File, start: nat, len: nat) returns (f': File, ok: bool)
      requires |f.direct| == NDIRECT
      requires len <= MAXFILESIZE && 0 < start && diskpos < |blocks| == nblocks
      requires Blocks(len) >= NDIRECT ==> diskpos == start + Blocks(len)
      requires forall b | 0 <= b < |blocks| :: BlockOk(blocks[b])
      modifies this`diskpos, this`blocks
      ensures f'.name == f.name && f'.ftype == f.ftype && f'.size == len && |f'.direct| == NDIRECT
      ensures diskpos == old(diskpos) + (if Blocks(len) >= NDIRECT then 1 else 0) && ok == (diskpos < nblocks)
      ensures |blocks| == nblocks && forall b | 0 <= b < |blocks| :: BlockOk(blocks[b])
      ensures forall b | 0 <= b < |blocks| && !(b == start + Blocks(len) && Blocks(len) >= NDIRECT) ::
                blocks[b] == old(blocks)[b]
      ensures forall j | Blocks(len) <= j < NDIRECT :: f'.direct[j] == f.direct[j]
      ensures Unspoiled(f, Blocks(len)) ==> Laid(f', blocks, start, Blocks(len))
    {
      RoundUps(len);
      var n := RoundUp32(len) / BLKSIZE;
      var direct, i := DirectSlots(f.direct, start, n);
      f', ok := f.(size := len, direct := direct), true;
      if i == NDIRECT {
        var t;
        t, ok := Alloc(BLKSIZE);
        var ptrs := IndirectSlots(start, n);
        blocks := blocks[t := Table(ptrs)];
        f' := f'.(indirect := t);
      }
    }

    /** readn into the blocks just allocated. */
    method CopyIn(data: seq<Byte>, start: nat, n: nat)
      requires start + n <= |blocks| && forall b | 0 <= b < |blocks| :: BlockOk(blocks[b])
      modifies this`blocks
      ensures |blocks| == |old(blocks)|
      ensures forall b | 0 <= b < |blocks| ::
                blocks[b] == if start <= b < start + n then Piece(data, b - start) else old(blocks)[b]
    {
      for i := 0 to n
        invariant |blocks| == |old(blocks)|
        invariant forall b | 0 <= b < |blocks| ::
                    blocks[b] == if start <= b < start + i then Piece(data, b - start) else old(blocks)[b]
      {
        blocks := blocks[start + i := Piece(data, i)];
      }
    }

    /** writefile, with diradd.  False is a panic: the file is too large, there are too many
        files, or the disk is full. */
    method WriteFile(name: string, data: seq<Byte>) returns (ok: bool)
      requires ImageShape(M()) && |blocks| == nblocks && 3 <= diskpos < nblocks
      modifies this
      ensures ok ==> ImageShape(M()) && |blocks| == nblocks && diskpos < nblocks && |ents| <= MAX_DIR_ENTS
      ensures ok <==> |data| < MAXFILESIZE && |old(ents)| < MAX_DIR_ENTS && old(diskpos) + BlocksFor(data) < nblocks
      ensures ok ==> diskpos == old(diskpos) + BlocksFor(data) && |ents| == |old(ents)| + 1
      ensures ok ==> ents[..|old(ents)|] == old(ents) && Recorded(ents[|old(ents)|], name, data)
      ensures ok && NameFits(name, Blocks(|data|)) && Sound(old(M()), 3) ==>
                Added(old(M()), M(), StoredName(name), data) && Sound(M(), 3)
    {
      hide Sound;
      hide Added;
      hide Laid;
      hide Unspoiled;
      ghost var m := M();
      if |data| >= MAXFILESIZE {
        return false;
      }
      if |ents| + 1 > MAX_DIR_ENTS {
        return false;
      }
      var f := DirAdd(name);
      AddedRecord(name, Blocks(|data|));
      var start, fits := Alloc(|data|);
      if !fits {
        return false;
      }
      CopyIn(data, start, diskpos - start);
      f, ok := FinishFile(f, start, |data|);
      if !ok {
        return;
      }
      own := WithFile(own, |ents|, start, Blocks(|data|));
      ents := ents + [f];
      if NameFits(name, Blocks(|data|)) && Sound(m, 3) {
        FileAdded(m, M(), f, StoredName(name), data);
        AddedSound(m, M(), StoredName(name), data, 3);
      }
    }

    /** The directory's records go into its blocks. */
    method CopyDir(start: nat, n: nat)
      requires start + n <= |blocks|
      modifies this`blocks
      ensures |blocks| == |old(blocks)|
      ensures forall b | 0 <= b < |blocks| ::
                blocks[b] == if start <= b < start + n then DirPiece(ents, b - start) else old(blocks)[b]
    {
      for i := 0 to n
        invariant |blocks| == |old(blocks)|
        invariant forall b | 0 <= b < |blocks| ::
                    blocks[b] == if start <= b < start + i then DirPiece(ents, b - start) else old(blocks)[b]
      {
        blocks := blocks[start + i := DirPiece(ents, i)];
      }
    }

    /** finishdisk: every block up to diskpos is in use. */
    method FinishDisk() returns (bitmap: seq<bool>)
      requires diskpos <= nblocks
      ensures |bitmap| == nblocks && forall b | 0 <= b < nblocks :: bitmap[b] <==> b >= diskpos
    {
      bitmap := seq(nblocks, _ => true);
      for i := 0 to diskpos
        invariant |bitmap| == nblocks && forall b | 0 <= b < nblocks :: bitmap[b] <==> b >= i
      {
        bitmap := bitmap[i := false];
      }
    }

    /** finishdir, for the root directory: the records are copied behind the files.  With no
        record there is nothing to copy, and yet the directory gets a first block: the size is
        rounded up as an int here, but as an unsigned number in alloc. */
    method FinishDir() returns (root: File, ok: bool)
      requires ImageShape(M()) && |blocks| == nblocks && 3 <= diskpos < nblocks && |ents| <= MAX_DIR_ENTS
      modifies this`diskpos, this`blocks
      ensures ok ==> diskpos < nblocks && |blocks| == nblocks && root.ftype == DIR && root.name == "/"
      ensures diskpos == old(diskpos) + Blocks(|ents| * FILE_BYTES) && ok == (diskpos < nblocks)
      ensures ok ==> root.size == RoundUpInt(|ents| * FILE_BYTES) && Laid(root, blocks, old(diskpos), Blocks(root.size))
      ensures ok ==> forall b | 0 <= b < nblocks ::
                       blocks[b] ==
                       if old(diskpos) <= b < diskpos then DirPiece(ents, b - old(diskpos)) else old(blocks)[b]
    {
      var size := |ents| * FILE_BYTES;
      RoundUps(size);
      DirSize(|ents|);
      root := NoFile().(name := "/", ftype := DIR);
      var start;
      start, ok := Alloc(size);
      if !ok {
        return;
      }
      CopyDir(start, diskpos - start);
      DirPiecesOk(M());
      root, ok := FinishFile(root, start, RoundUpInt(size));
    }
  }

  // ---------------------------------------------------------------- names

  /** The byte at an offset of a record into which the name has been copied. */
  function ByteOf(name: string, p: nat): nat {
    if p < |name| then name[p] as int else 0
  }

  function Word(name: string, p: nat): nat {
    ByteOf(name, p) + 0x100 * ByteOf(name, p + 1) + 0x1_0000 * ByteOf(name, p + 2) + 0x100_0000 * ByteOf(name, p + 3)
  }

  /** What f_name holds.  A name that fills it is longer than any component of a path, whatever
      follows in the record. */
  function StoredName(name: string): string {
    name[..Min(|name|, MAXNAMELEN)]
  }

  /** Where the slots are in a record. */
  const F_SIZE := MAXNAMELEN
  const F_DIRECT := F_SIZE + 8
  const F_INDIRECT := F_DIRECT + 4 * NDIRECT

  /** diradd on a cleared record: the name is copied without a look at its length, so that a long
      one runs on into the size and the slots. */
  function DirAdd(name: string): (f: File)
    ensures |f.direct| == NDIRECT
  {
    File(StoredName(name), Word(name, F_SIZE), REG,
         seq(NDIRECT, j requires 0 <= j => Word(name, F_DIRECT + 4 * j)), Word(name, F_INDIRECT))
  }

  /** No slot that n blocks leave alone holds anything. */
  predicate Unspoiled(f: File, n: nat) {
    (forall j | n <= j < |f.direct| :: f.direct[j] == 0) && (n < NDIRECT ==> f.indirect == 0)
  }

  /** The name ends before the slots that n blocks leave alone. */
  predicate NameFits(name: string, n: nat) {
    n >= NDIRECT || |name| <= F_DIRECT + 4 * n
  }

  /** A name as the host's file systems allow it: at most 255 bytes, none of them zero. */
  predicate HostName(name: string) {
    0 < |name| <= 255 && forall k | 0 <= k < |name| :: 0 < name[k] as int < 256
  }

  predicate HostNames(files: seq<Source>) {
    forall k | 0 <= k < |files| :: HostName(files[k].name)
  }

  predicate AllNamesFit(files: seq<Source>) {
    forall k | 0 <= k < |files| :: NameFits(files[k].name, Blocks(|files[k].data|))
  }

  function AsStored(files: seq<Source>): (s: seq<Source>)
    ensures |s| == |files| && forall k | 0 <= k < |s| :: s[k] == Source(StoredName(files[k].name), files[k].data)
  {
    seq(|files|, k requires 0 <= k < |files| => Source(StoredName(files[k].name), files[k].data))
  }

  lemma AddedRecord(name: string, n: nat)
    ensures NameFits(name, n) ==> Unspoiled(DirAdd(name), n)
    ensures HostName(name) && !NameFits(name, n) ==> DirAdd(name).direct[n] != 0
  {
  }

  /** The record of a file that has been written. */
  ghost predicate Recorded(f: File, name: string, data: seq<Byte>) {
    && |f.direct| == NDIRECT && f.name == StoredName(name) && f.size == |data| && f.ftype == REG
    && (HostName(name) && !NameFits(name, Blocks(|data|)) ==> f.direct[Blocks(|data|)] != 0)
  }

  /** The blocks that a file takes on the disk, with its indirect block. */
  function BlocksFor(data: seq<Byte>): nat {
    Blocks(|data|) + if Blocks(|data|) >= NDIRECT then 1 else 0
  }

  function BlocksForAll(files: seq<Source>): nat {
    if files == [] then 0 else BlocksForAll(files[..|files| - 1]) + BlocksFor(files[|files| - 1].data)
  }

  lemma BlocksForNext(files: seq<Source>, k: nat)
    requires k < |files|
    ensures BlocksForAll(files[..k + 1]) == BlocksForAll(files[..k]) + BlocksFor(files[k].data)
  {
    assert files[..k + 1][..k] == files[..k];
  }

  lemma {:induction false} BlocksForPrefix(files: seq<Source>, k: nat)
    requires k <= |files|
    ensures BlocksForAll(files[..k]) <= BlocksForAll(files)
    decreases |files| - k
  {
    if k < |files| {
      BlocksForNext(files, k);
      BlocksForPrefix(files, k + 1);
    } else {
      assert files[..k] == files;
    }
  }

  /** The files fit: the number of blocks is one that fsformat accepts, and there is room for
      the first three blocks, the files, the directory and one more. */
  predicate FitsOn(nblocks: nat, files: seq<Source>) {
    && nblocks <= 1024 && |files| <= MAX_DIR_ENTS
    && (forall k | 0 <= k < |files| :: |files[k].data| < MAXFILESIZE)
    && 3 + BlocksForAll(files) + Blocks(|files| * FILE_BYTES) < nblocks
  }

  lemma FileAdded(m: Image, m': Image, f: File, name: string, data: seq<Byte>)
    requires ImageShape(m) && ImageShape(m') && |m'.blocks| == |m.blocks| && |data| < MAXFILESIZE
    requires m'.ents == m.ents + [f] && Fresh(f, name, data) && Laid(f, m'.blocks, m.pos, Blocks(|data|))
    requires m'.pos == m.pos + Blocks(|data|) + (if Blocks(|data|) >= NDIRECT then 1 else 0) && m'.pos < |m.blocks|
    requires forall b | 0 <= b < |m.blocks| && !(b == m.pos + Blocks(|data|) && Blocks(|data|) >= NDIRECT) ::
               m'.blocks[b] == if m.pos <= b < m.pos + Blocks(|data|) then Piece(data, b - m.pos) else m.blocks[b]
    requires m'.own == WithFile(m.own, |m.ents|, m.pos, Blocks(|data|))
    ensures Added(m, m', name, data)
  {
    hide Laid;
    hide Piece;
    hide Blocks;
    hide ImageShape;
    assert m'.ents[..|m.ents|] == m.ents && m'.ents[|m.ents|] == f;
    AddedBlocks(m, m', data);
    forall b | 0 <= b < |m.own| ensures m'.own[b] ==
        if m.pos <= b < m.pos + Blocks(|data|) then FileBlock(|m.ents|, b - m.pos)
        else if b == m.pos + Blocks(|data|) && Blocks(|data|) >= NDIRECT then FileTable(|m.ents|) else m.own[b] {
      WithFileAt(m.own, |m.ents|, m.pos, Blocks(|data|), b);
    }
  }

  lemma WithFileAt(own: seq<Own>, k: nat, start: nat, n: nat, b: nat)
    requires b < |own|
    ensures WithFile(own, k, start, n)[b] ==
            if start <= b < start + n then FileBlock(k, b - start)
            else if b == start + n && n >= NDIRECT then FileTable(k) else own[b]
  {
  }

  lemma AddedBlocks(m: Image, m': Image, data: seq<Byte>)
    requires |m'.blocks| == |m.blocks| && m.pos + Blocks(|data|) <= |m.blocks|
    requires forall b | 0 <= b < |m.blocks| && !(b == m.pos + Blocks(|data|) && Blocks(|data|) >= NDIRECT) ::
               m'.blocks[b] == if m.pos <= b < m.pos + Blocks(|data|) then Piece(data, b - m.pos) else m.blocks[b]
    ensures forall b | 0 <= b < |m.blocks| && b < m.pos :: m'.blocks[b] == m.blocks[b]
    ensures forall i | 0 <= i < Blocks(|data|) :: m'.blocks[m.pos + i] == Piece(data, i)
  {
    hide Piece;
    hide Blocks;
    forall i | 0 <= i < Blocks(|data|) ensures m'.blocks[m.pos + i] == Piece(data, i) {
      var b := m.pos + i;
      assert m'.blocks[b] == Piece(data, b - m.pos);
    }
  }

  lemma DirSize(n: nat)
    requires n <= MAX_DIR_ENTS
    ensures Blocks(n * FILE_BYTES) < NDIRECT && n <= Blocks(n * FILE_BYTES) * BLKFILES
    ensures 0 < RoundUpInt(n * FILE_BYTES) <= MAXFILESIZE && Blocks(RoundUpInt(n * FILE_BYTES)) < NDIRECT
    ensures n > 0 ==> RoundUpInt(n * FILE_BYTES) == Blocks(n * FILE_BYTES) * BLKSIZE
    ensures n > 0 ==> Blocks(RoundUpInt(n * FILE_BYTES)) == Blocks(n * FILE_BYTES)
    ensures n == 0 ==> RoundUpInt(0) == BLKSIZE && Blocks(0) == 0
  {
    RoundUps(n * FILE_BYTES);
  }

  lemma DirPiecesOk(m: Image)
    requires forall k | 0 <= k < |m.ents| :: |m.ents[k].direct| == NDIRECT
    ensures forall q: nat :: BlockOk(DirPiece(m.ents, q))
  {
    forall q: nat ensures BlockOk(DirPiece(m.ents, q)) {
      var x := DirPiece(m.ents, q).files;
      forall j | 0 <= j < BLKFILES ensures |x[j].direct| == NDIRECT {
        assert x[j] == if q * BLKFILES + j < |m.ents| then m.ents[q * BLKFILES + j] else NoFile();
      }
    }
  }

  ghost function WithFile(own: seq<Own>, k: nat, start: nat, n: nat): (o: seq<Own>)
    ensures |o| == |own|
  {
    seq(|own|, b requires 0 <= b < |own| =>
      if start <= b < start + n then FileBlock(k, b - start)
      else if b == start + n && n >= NDIRECT then FileTable(k) else own[b])
  }

  ghost function Depths(n: nat, db: nat, nd: nat): (d: seq<nat>)
    ensures |d| == n
  {
    seq(n, b requires 0 <= b => if db <= b < db + nd then 0 else 1)
  }

  ghost function Uses(own: seq<Own>, db: nat, nd: nat): (u: seq<Use>)
    ensures |u| == |own|
  {
    seq(|own|, b requires 0 <= b < |own| => if db <= b < db + nd then DataOf(Root, b - db) else UseOf(own[b], db))
  }

  /** Every file holds its data, and is found by its name if the name is short enough for a path. */
  ghost predicate HoldsAll(fs: Fs, db: nat, files: seq<Source>) {
    Shape(fs) && forall k | 0 <= k < |files| :: HoldsFile(fs, RefOf(db, k), files[k])
  }

  ghost predicate HoldsFile(fs: Fs, r: Ref, s: Source)
    requires Shape(fs)
  {
    && Walk(fs, None, Root, [s.name]) == (if |s.name| < MAXNAMELEN then Found(Some(Root), r) else BadPath)
    && Live(fs, r) && FileAt(fs, r).ftype == REG && FileAt(fs, r).size == |s.data| && Holds(fs, r, 0, s.data)
  }

  lemma FinishedHoldsAll(m: Image, files: seq<Source>, fs: Fs, nd: nat)
    requires Finished(m, 3, AsStored(files), fs, nd) && DistinctNames(AsStored(files))
    ensures HoldsAll(fs, m.pos, files)
  {
    hide Finished;
    hide Holds;
    FinishedDirs(m, 3, AsStored(files), fs, nd);
    forall k | 0 <= k < |files| ensures HoldsFile(fs, RefOf(m.pos, k), files[k]) {
      FinishedFile(m, 3, AsStored(files), fs, nd, k);
      FinishedRoot(m, files, fs, nd);
      HoldsBytes(fs, RefOf(m.pos, k), files[k].data);
      var c := [files[k].name];
      if |c[0]| < MAXNAMELEN {
        assert StoredName(c[0]) == c[0];
        assert c[1..] == [] && Walk(fs, Some(Root), RefOf(m.pos, k), c[1..]) == Found(Some(Root), RefOf(m.pos, k));
      }
    }
  }

  lemma FinishedRoot(m: Image, files: seq<Source>, fs: Fs, nd: nat)
    requires Finished(m, 3, AsStored(files), fs, nd) && Shape(fs)
    ensures Live(fs, Root) && FileAt(fs, Root).ftype == DIR
  {
  }

  lemma HoldsBytes(fs: Fs, r: Ref, data: seq<Byte>)
    requires Shape(fs) && Live(fs, r) && |data| <= MAXFILESIZE
    requires forall p | 0 <= p < MAXFILESIZE :: p < |data| ==> ByteAt(fs, r, p) == data[p]
    ensures Holds(fs, r, 0, data)
  {
    forall k | 0 <= k < |data| ensures data[k] == ByteAt(fs, r, 0 + k) {}
  }

  /** The image of no files breaks the invariant, whatever the blocks are said to be used for:
      the root directory's first block is marked free. */
  lemma EmptyImageIsUnsound(fs: Fs)
    requires |fs.free| > 3 && |fs.root.direct| == NDIRECT && fs.root.direct[0] == 3 && fs.free[3]
    ensures !Inv(fs)
  {
    assert Shape(fs) ==> Live(fs, Root) && SlotOf(fs, Root, 0) == 3;
  }

  /** A name that runs on into a slot beyond the file's size breaks it as well. */
  lemma SpoiledImageIsUnsound(fs: Fs, q: nat, j: nat)
    requires |fs.root.direct| == NDIRECT && q < NDIRECT && 0 < fs.root.direct[q] < |fs.blocks|
    requires var x := fs.blocks[fs.root.direct[q]];
             x.Dir? && j < |x.files| == BLKFILES && |x.files[j].direct| == NDIRECT
             && var n := Blocks(x.files[j].size); n < NDIRECT && x.files[j].direct[n] != 0
    ensures !Inv(fs)
  {
    if Shape(fs) && Names(fs) {
      assert SlotOf(fs, Root, q) == fs.root.direct[q];
      var r := Entry(fs.root.direct[q], j);
      assert Live(fs, r) && SlotOf(fs, r, Blocks(FileAt(fs, r).size)) != 0;
    }
  }

  ghost predicate AllRecorded(ents: seq<File>, files: seq<Source>) {
    |ents| <= |files| && forall i | 0 <= i < |ents| :: Recorded(ents[i], files[i].name, files[i].data)
  }

  lemma OneMoreRecorded(ents: seq<File>, ents': seq<File>, files: seq<Source>)
    requires AllRecorded(ents, files) && |ents| < |files| && |ents'| == |ents| + 1 && ents'[..|ents|] == ents
    requires Recorded(ents'[|ents|], files[|ents|].name, files[|ents|].data)
    ensures AllRecorded(ents', files)
  {
    assert forall i | 0 <= i < |ents| :: ents'[i] == ents'[..|ents|][i];
  }

  /** The files, one after the other. */
  method WriteFiles(d: Formatter, files: seq<Source>) returns (ok: bool)
    requires Sound(d.M(), 3) && d.ents == [] && d.diskpos == 3 < |d.blocks| == d.nblocks
    modifies d
    ensures ok <==> && |files| <= MAX_DIR_ENTS && (forall k | 0 <= k < |files| :: |files[k].data| < MAXFILESIZE)
                    && 3 + BlocksForAll(files) < d.nblocks
    ensures ok ==> ImageShape(d.M()) && |d.blocks| == d.nblocks && 3 <= d.diskpos == 3 + BlocksForAll(files)
    ensures ok ==> |d.ents| == |files| && AllRecorded(d.ents, files)
    ensures ok && AllNamesFit(files) ==> Sound(d.M(), 3) && Complete(d.M(), AsStored(files))
  {
    hide Sound;
    hide Complete;
    hide Added;
    hide Recorded;
    hide NameFits;
    hide Written;
    NothingWritten(d.M(), d.nblocks, files);
    for k := 0 to |files|
      invariant Written(d.M(), d.nblocks, files, k)
    {
      ghost var m := d.M();
      WrittenSoFar(m, d.nblocks, files, k);
      ok := d.WriteFile(files[k].name, files[k].data);
      if !ok {
        return;
      }
      WrittenNext(m, d.M(), d.nblocks, files, k);
    }
    AllWritten(d.M(), d.nblocks, files);
    ok := true;
  }

  /** The first k files have been written. */
  ghost predicate Written(m: Image, nblocks: nat, files: seq<Source>, k: nat) {
    && ImageShape(m) && |m.blocks| == nblocks && 3 <= m.pos < nblocks && |m.ents| == k <= |files| && k <= MAX_DIR_ENTS
    && m.pos == 3 + BlocksForAll(files[..k]) && (forall i | 0 <= i < k :: |files[i].data| < MAXFILESIZE)
    && AllRecorded(m.ents, files)
    && (AllNamesFit(files[..k]) ==> Sound(m, 3) && Complete(m, AsStored(files)[..k]))
  }

  lemma NothingWritten(m: Image, nblocks: nat, files: seq<Source>)
    requires Sound(m, 3) && m.ents == [] && m.pos == 3 < |m.blocks| == nblocks
    ensures Written(m, nblocks, files, 0)
  {
    CompleteNone(m);
    assert files[..0] == [] && AsStored(files)[..0] == [];
  }

  /** What writefile needs to know, and why it may fail. */
  lemma WrittenSoFar(m: Image, nblocks: nat, files: seq<Source>, k: nat)
    requires Written(m, nblocks, files, k) && k < |files|
    ensures ImageShape(m) && |m.blocks| == nblocks && 3 <= m.pos < nblocks && |m.ents| == k
    ensures (&& |files| <= MAX_DIR_ENTS && (forall i | 0 <= i < |files| :: |files[i].data| < MAXFILESIZE)
             && 3 + BlocksForAll(files) < nblocks) ==>
              && |files[k].data| < MAXFILESIZE && |m.ents| < MAX_DIR_ENTS
              && m.pos + BlocksFor(files[k].data) < nblocks
  {
    BlocksForNext(files, k);
    BlocksForPrefix(files, k + 1);
  }

  lemma WrittenNext(m: Image, m': Image, nblocks: nat, files: seq<Source>, k: nat)
    requires Written(m, nblocks, files, k) && k < |files| && ImageShape(m') && |m'.blocks| == nblocks
    requires m'.pos < nblocks && |m'.ents| <= MAX_DIR_ENTS
    requires |files[k].data| < MAXFILESIZE && m'.pos == m.pos + BlocksFor(files[k].data) && |m'.ents| == k + 1
    requires m'.ents[..k] == m.ents && Recorded(m'.ents[k], files[k].name, files[k].data)
    requires NameFits(files[k].name, Blocks(|files[k].data|)) && Sound(m, 3) ==>
               Added(m, m', StoredName(files[k].name), files[k].data) && Sound(m', 3)
    ensures Written(m', nblocks, files, k + 1)
  {
    hide Sound;
    hide Complete;
    hide Added;
    hide Recorded;
    hide NameFits;
    BlocksForNext(files, k);
    FitNext(files, k);
    OneMoreRecorded(m.ents, m'.ents, files);
    if AllNamesFit(files[..k + 1]) { StillComplete(m, m', AsStored(files), k); }
  }

  lemma AllWritten(m: Image, nblocks: nat, files: seq<Source>)
    requires Written(m, nblocks, files, |files|)
    ensures |files| <= MAX_DIR_ENTS && (forall k | 0 <= k < |files| :: |files[k].data| < MAXFILESIZE)
    ensures 3 + BlocksForAll(files) < nblocks
    ensures ImageShape(m) && |m.blocks| == nblocks && 3 <= m.pos == 3 + BlocksForAll(files) && |m.ents| == |files|
    ensures AllRecorded(m.ents, files)
    ensures AllNamesFit(files) ==> Sound(m, 3) && Complete(m, AsStored(files))
  {
    assert files[..|files|] == files && AsStored(files)[..|files|] == AsStored(files);
  }

  lemma FitNext(files: seq<Source>, k: nat)
    requires k < |files|
    ensures AllNamesFit(files[..k + 1]) <==> AllNamesFit(files[..k]) && NameFits(files[k].name, Blocks(|files[k].data|))
  {
    assert forall i | 0 <= i < k :: files[..k + 1][i] == files[..k][i] == files[i];
    assert files[..k + 1][k] == files[k];
  }

  /** fsformat.  False is a usage error or a panic.  The image satisfies the file system's
      invariant exactly if there is at least one file and no name runs on into a slot that its
      file does not use; db is where the directory starts. */
  method FsFormat(nblocks: nat, files: seq<Source>) returns (ok: bool, fs: FileSystem?, db: nat)
    ensures ok <==> FitsOn(nblocks, files)
    ensures ok ==> fs != null && fresh(fs) && |fs.bitmap| == nblocks
    ensures ok && |files| > 0 && AllNamesFit(files) ==> fs.Valid()
    ensures ok && |files| > 0 && AllNamesFit(files) && DistinctNames(AsStored(files)) ==>
              DirsOk(fs.S()) && HoldsAll(fs.S(), db, files)
    ensures ok && HostNames(files) && (|files| == 0 || !AllNamesFit(files)) ==>
              forall use, depth :: !Inv(fs.S().(use := use, depth := depth))
  {
    hide Sound;
    hide Complete;
    hide Added;
    hide Laid;
    hide Inv;
    hide DirsOk;
    hide HoldsAll;
    hide DirPiece;
    hide AllNamesFit;
    hide AllRecorded;
    hide Finishing;
    fs, db := null, 0;
    if nblocks < 2 || nblocks > 1024 {
      return false, null, 0;
    }
    if nblocks <= 3 {
      return false, null, 0;
    }
    var d := new Formatter.OpenDisk(nblocks);
    ok := WriteFiles(d, files);
    if !ok {
      return;
    }
    ghost var m := d.M();
    ghost var nd := Blocks(|m.ents| * FILE_BYTES);
    db := d.diskpos;
    ok, fs := Finish(d);
    if !ok {
      return;
    }
    if |files| > 0 && AllNamesFit(files) {
      FinishedProperly(m, files, fs.S(), nd);
    }
    if HostNames(files) && (|files| == 0 || !AllNamesFit(files)) {
      FinishedBadly(m, files, fs.S(), nd);
    }
  }

  /** finishdir and finishdisk. */
  method Finish(d: Formatter) returns (ok: bool, fs: FileSystem?)
    requires ImageShape(d.M()) && |d.blocks| == d.nblocks <= 1024 && 3 <= d.diskpos < d.nblocks
    requires |d.ents| <= MAX_DIR_ENTS
    modifies d
    ensures ok <==> old(d.diskpos) + Blocks(|old(d.ents)| * FILE_BYTES) < d.nblocks
    ensures ok ==> fs != null && fresh(fs) && |fs.bitmap| == d.nblocks
    ensures ok ==> Finishing(old(d.M()), fs.S(), Blocks(|old(d.ents)| * FILE_BYTES))
  {
    hide DirPiece;
    hide Laid;
    ghost var m := d.M();
    fs := null;
    var root;
    root, ok := d.FinishDir();
    if !ok {
      return;
    }
    var bitmap := d.FinishDisk();
    ghost var nd := d.diskpos - m.pos;
    fs := new FileSystem(bitmap, d.blocks, root, Uses(m.own, m.pos, nd), Depths(d.nblocks, m.pos, nd));
  }

  lemma CompleteNone(m: Image)
    requires m.ents == []
    ensures Complete(m, [])
  {
  }

  lemma StillComplete(m: Image, m': Image, files: seq<Source>, k: nat)
    requires k < |files| && Complete(m, files[..k]) && Sound(m, 3) && Added(m, m', files[k].name, files[k].data)
    ensures Complete(m', files[..k + 1])
  {
    AddedData(m, m', files[k].name, files[k].data, 3);
    var f, f' := files[..k], files[..k + 1];
    forall i | 0 <= i < k + 1 ensures HasData(m', i, f'[i].name, f'[i].data) {
      if i < k { assert f'[i] == f[i]; }
    }
  }

  /** finishdir and finishdisk have been done. */
  ghost predicate Finishing(m: Image, fs: Fs, nd: nat) {
    && ImageShape(m) && |m.ents| <= MAX_DIR_ENTS && m.pos + nd < |m.blocks| <= 1024
    && nd == Blocks(|m.ents| * FILE_BYTES)
    && |fs.blocks| == |fs.free| == |m.blocks| && fs.use == Uses(m.own, m.pos, nd)
    && fs.depth == Depths(|m.blocks|, m.pos, nd)
    && fs.root.ftype == DIR && fs.root.name == "/" && fs.root.size == RoundUpInt(|m.ents| * FILE_BYTES)
    && Laid(fs.root, fs.blocks, m.pos, Blocks(fs.root.size))
    && (forall b | 0 <= b < |fs.blocks| ::
          fs.blocks[b] == if m.pos <= b < m.pos + nd then DirPiece(m.ents, b - m.pos) else m.blocks[b])
    && (forall b | 0 <= b < |fs.blocks| :: fs.free[b] <==> b >= m.pos + nd)
  }

  lemma FinishedProperly(m: Image, files: seq<Source>, fs: Fs, nd: nat)
    requires Finishing(m, fs, nd) && Sound(m, 3) && Complete(m, AsStored(files)) && |files| > 0
    ensures Inv(fs) && (DistinctNames(AsStored(files)) ==> DirsOk(fs) && HoldsAll(fs, m.pos, files))
  {
    DirSize(|m.ents|);
    assert Finished(m, 3, AsStored(files), fs, nd);
    hide Finishing;
    hide Finished;
    FinishedInv(m, 3, AsStored(files), fs, nd);
    if DistinctNames(AsStored(files)) {
      FinishedDirs(m, 3, AsStored(files), fs, nd);
      FinishedHoldsAll(m, files, fs, nd);
    }
  }

  lemma FinishedBadly(m: Image, files: seq<Source>, fs: Fs, nd: nat)
    requires Finishing(m, fs, nd) && |m.ents| == |files| && HostNames(files) && (files == [] ==> m.pos == 3)
    requires 3 <= m.pos
    requires AllRecorded(m.ents, files)
    requires |files| == 0 || !AllNamesFit(files)
    ensures forall use, depth :: !Inv(fs.(use := use, depth := depth))
  {
    DirSize(|m.ents|);
    if |files| == 0 {
      assert SlotIn(fs.root, fs.blocks, 0) == 3;
      forall use, depth
        ensures !Inv(fs.(use := use, depth := depth))
      {
        EmptyImageIsUnsound(fs.(use := use, depth := depth));
      }
    } else {
      var k :| 0 <= k < |files| && !NameFits(files[k].name, Blocks(|files[k].data|));
      assert Recorded(m.ents[k], files[k].name, files[k].data);
      var q, j := k / BLKFILES, k % BLKFILES;
      assert SlotIn(fs.root, fs.blocks, q) == m.pos + q;
      assert fs.blocks[m.pos + q] == DirPiece(m.ents, q) && DirPiece(m.ents, q).files[j] == m.ents[k];
      forall use, depth
        ensures !Inv(fs.(use := use, depth := depth))
      {
        SpoiledImageIsUnsound(fs.(use := use, depth := depth), q, j);
      }
    }
  }

  /** A two-byte file, cut to one byte and extended again to two, reads the byte that was cut
      off and not zero: what FsTheorems.GrownPartIsZeroIff excludes does happen. */
  method StaleByte(nblocks: nat) returns (fs: FileSystem, r: Ref)
    requires 6 <= nblocks <= 1024
    ensures fs.Valid() && Live(fs.S(), r) && FileAt(fs.S(), r).size == 2 && ByteAt(fs.S(), r, 1) == 1
  {
    hide FitsOn;
    hide HoldsAll;
    hide Inv;
    hide DirsOk;
    hide Resized;
    hide BlockBytes;
    var data: seq<Byte> := [1, 1];
    var files := [Source("f", data)];
    TwoBytesFit(nblocks, files);
    var ok, disk, db := FsFormat(nblocks, files);
    fs, r := disk, RefOf(db, 0);
    ghost var fs0 := fs.S();
    FirstFile(fs0, db, files);
    var e := fs.FileSetSize(r, 1);
    ghost var fs1 := fs.S();
    ResizedBytes(fs0, fs1, r, 1, 1);
    StillRegular(fs0, fs1, r, 1);
    e := fs.FileSetSize(r, 2);
    StillRegular(fs1, fs.S(), r, 2);
    ResizedBytes(fs1, fs.S(), r, 2, 1);
  }

  /** A file is written, set to the largest size and flushed: the byte is not on the disk. */
  method ByteNotFlushed(nblocks: nat) returns (c: Cache, r: Ref, ghost fs: Fs)
    requires 6 <= nblocks <= 1024
    ensures c.Shows(fs) && Live(fs, r) && FileAt(fs, r).size == OFF_MAX
    ensures SlotOf(fs, r, 0) != 0 && !c.OnDisk(SlotOf(fs, r, 0))
  {
    hide FitsOn;
    hide HoldsAll;
    hide Inv;
    hide DirsOk;
    hide Resized;
    hide BlockBytes;
    var data: seq<Byte> := [1, 1];
    var files := [Source("f", data)];
    TwoBytesFit(nblocks, files);
    var ok, disk, db := FsFormat(nblocks, files);
    r := RefOf(db, 0);
    FirstFile(disk.S(), db, files);
    ghost var fs0 := disk.S();
    var e := disk.FileSetSize(r, OFF_MAX);
    fs := disk.S();
    StretchedByte(fs0, fs, r);
    var f := disk.GetFile(r);
    var b := f.direct[0];
    c := new Cache(disk.blocks[b := Data(Zeros())], disk.bitmap);
    ok := c.Store(b, disk.blocks[b]);
    assert c.View() == disk.blocks;
    FlushMisses(c, r, disk.root, 0, fs);
  }

  /** The byte is still there after the file has grown, in a block in use. */
  lemma StretchedByte(fs: Fs, fs': Fs, r: Ref)
    requires Shape(fs) && Live(fs, r) && ByteAt(fs, r, 1) == 1 && Resized(fs, fs', r, OFF_MAX) && Inv(fs')
    ensures Shape(fs') && Live(fs', r) && FileAt(fs', r).size == OFF_MAX && |fs'.free| > SUPER
    ensures var b := FileAt(fs', r).direct[0];
            && b == SlotOf(fs', r, 0) && 0 < b < |fs'.blocks| && !fs'.free[b] && fs'.blocks[b] != Data(Zeros())
  {
    ResizedBytes(fs, fs', r, OFF_MAX, 1);
    assert SlotOf(fs', r, 0) != 0;
    SlotStays(fs', r, 0);
  }

  /** A one-byte file whose name has 200 bytes gives an image that breaks the invariant. */
  method LongName(nblocks: nat) returns (fs: FileSystem)
    requires 6 <= nblocks <= 1024
    ensures forall use, depth :: !Inv(fs.S().(use := use, depth := depth))
  {
    hide FitsOn;
    hide Inv;
    hide HoldsAll;
    var data: seq<Byte> := [1];
    var files := [Source(seq(200, _ => 'a'), data)];
    ShortFits(nblocks, files);
    assert HostName(files[0].name) && !NameFits(files[0].name, Blocks(1));
    var ok, disk, db := FsFormat(nblocks, files);
    fs := disk;
  }

  /** Emptying a root directory that holds a file with a block leaves that block without owner. */
  method RootCutOff(nblocks: nat) returns (fs: FileSystem)
    requires 6 <= nblocks <= 1024
    ensures forall use, depth :: !Inv(fs.S().(use := use, depth := depth))
  {
    hide FitsOn;
    hide HoldsAll;
    hide Inv;
    hide DirsOk;
    hide DropsBare;
    hide Sized;
    hide Shrunk;
    hide Resized;
    var data: seq<Byte> := [1, 1];
    var files := [Source("f", data)];
    TwoBytesFit(nblocks, files);
    var ok, disk, db := FsFormat(nblocks, files);
    fs := disk;
    RootNotBare(fs.S(), db, files);
    var e := fs.FileSetSize(Root, 0);
  }

  lemma RootNotBare(fs: Fs, db: nat, files: seq<Source>)
    requires Inv(fs) && HoldsAll(fs, db, files) && |files| > 0 && |files[0].data| == 2 && files[0].data[1] == 1
    requires files[0].name == "f"
    ensures Shape(fs) && Live(fs, Root) && !DropsBare(fs, Root, Blocks(0))
  {
    var r := RefOf(db, 0);
    assert HoldsFile(fs, r, files[0]);
    FirstFile(fs, db, files);
    assert SlotOf(fs, r, 0) == FileAt(fs, r).direct[0] != 0;
    hide Inv;
    FoundInRoot(fs, r, "f");
    var i: nat, j: nat :| Listed(fs, Root, i, j, "f") && r == Entry(SlotOf(fs, Root, i), j);
    SlotStays(fs, Root, i);
    assert !OwnsNothing(fs.blocks[r.b].files[j]);
  }

  lemma FoundInRoot(fs: Fs, r: Ref, name: string)
    requires Shape(fs) && Walk(fs, None, Root, [name]) == Found(Some(Root), r)
    ensures Finds(fs, Root, name, r)
  {
    var c := [name];
    assert Walk(fs, None, Root, c) == Walk(fs, Some(Root), Find(fs, Root, name).value, c[1..]);
    assert c[1..] == [];
  }

  lemma ShortFits(nblocks: nat, files: seq<Source>)
    requires 6 <= nblocks <= 1024 && |files| == 1 && 0 < |files[0].data| <= 2
    ensures FitsOn(nblocks, files)
  {
    BlocksForNext(files, 0);
    assert files[..1] == files;
  }

  lemma TwoBytesFit(nblocks: nat, files: seq<Source>)
    requires 6 <= nblocks <= 1024 && |files| == 1 && |files[0].data| == 2 && files[0].name != ""
    ensures FitsOn(nblocks, files) && DistinctNames(AsStored(files))
  {
    ShortFits(nblocks, files);
  }

  lemma FirstFile(fs: Fs, db: nat, files: seq<Source>)
    requires HoldsAll(fs, db, files) && |files| > 0 && |files[0].data| == 2
    ensures Shape(fs) && Live(fs, RefOf(db, 0)) && FileAt(fs, RefOf(db, 0)).ftype == REG
    ensures ByteAt(fs, RefOf(db, 0), 1) == files[0].data[1]
  {
    assert Holds(fs, RefOf(db, 0), 0, files[0].data);
    assert files[0].data[1] == ByteAt(fs, RefOf(db, 0), 0 + 1);
  }

  lemma StillRegular(fs: Fs, fs': Fs, r: Ref, n: nat)
    requires Resized(fs, fs', r, n) && FileAt(fs, r).ftype == REG
    ensures Shape(fs') && Live(fs', r) && FileAt(fs', r).ftype == REG && FileAt(fs', r).size == n
  {
  }
}
