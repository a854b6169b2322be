/** The image that fsformat lays out, block after block, as a value. */
module FormatSpec {
  import opened FsSpec
  import opened FsBytes
  import opened FsDirs

  // ---------------------------------------------------------------- ROUNDUP

  const TWO32 := 0x1_0000_0000

  /** ROUNDUP(n, BLKSIZE) in unsigned 32-bit arithmetic. */
  function RoundUp32(n: nat): (m: nat)
    requires n < TWO32
  {
    var a := (n + TWO32 - 1) % TWO32;
    (a + BLKSIZE - a % BLKSIZE) % TWO32
  }

  /** ROUNDUP(n, BLKSIZE) for an int, whose remainder takes the sign of the dividend. */
  function RoundUpInt(n: nat): int {
    var a := n - 1;
    a + BLKSIZE - (if a < 0 then -(-a % BLKSIZE) else a % BLKSIZE)
  }

  /** The two agree but for 0, which the int version rounds up to a whole block. */
  lemma RoundUps(n: nat)
    requires n <= TWO32 - BLKSIZE
    ensures RoundUp32(n) == Blocks(n) * BLKSIZE
    ensures RoundUpInt(n) == if n == 0 then BLKSIZE else Blocks(n) * BLKSIZE
  {
    if n > 0 {
      assert (n + TWO32 - 1) % TWO32 == n - 1;
      var q := (n - 1) / BLKSIZE;
      assert n - 1 == q * BLKSIZE + (n - 1) % BLKSIZE;
      assert Blocks(n) == q + 1 by { assert n + BLKSIZE - 1 == (q + 1) * BLKSIZE + (n - 1) % BLKSIZE; }
    }
  }

  // ---------------------------------------------------------------- the image so far

  /** What a block of the image has been laid out for.  Files are numbered as they were added. */
  datatype Own = Nobody | System | FileBlock(k: nat, i: nat) | FileTable(k: nat)

  datatype Image = Image(pos: nat, blocks: seq<Block>, ents: seq<File>, own: seq<Own>)

  predicate ImageShape(m: Image) {
    && |m.own| == |m.blocks| && m.pos <= |m.blocks|
    && (forall b | 0 <= b < |m.blocks| :: BlockOk(m.blocks[b]))
    && (forall k | 0 <= k < |m.ents| :: |m.ents[k].direct| == NDIRECT)
  }

  /** Block i of a file whose record is f. */
  function SlotIn(f: File, blocks: seq<Block>, i: nat): nat
    requires |f.direct| == NDIRECT && i < NBLOCKS && forall b | 0 <= b < |blocks| :: BlockOk(blocks[b])
  {
    if i < NDIRECT then f.direct[i]
    else if 0 < f.indirect < |blocks| && blocks[f.indirect].Table? then
      assert BlockOk(blocks[f.indirect]);
      blocks[f.indirect].ptrs[i - NDIRECT]
    else 0
  }

  /** The i-th block of a file's data, filled up with zeros. */
  function Piece(data: seq<Byte>, i: nat): (x: Block)
    ensures BlockOk(x) && x.Data?
  {
    Data(seq(BLKSIZE, q requires 0 <= q => if i * BLKSIZE + q < |data| then data[i * BLKSIZE + q] else 0))
  }

  /** A record laid out by finishfile: n blocks from `start`, then the indirect block if the
      direct slots are all used. */
  ghost predicate Laid(f: File, blocks: seq<Block>, start: nat, n: nat) {
    && |f.direct| == NDIRECT && n <= NBLOCKS && (forall b | 0 <= b < |blocks| :: BlockOk(blocks[b]))
    && f.indirect == (if n >= NDIRECT then start + n else 0)
    && (n >= NDIRECT ==> 0 < start + n < |blocks| && blocks[start + n].Table?)
    && (forall i | 0 <= i < NBLOCKS :: SlotIn(f, blocks, i) == if i < n then start + i else 0)
  }

  /** Every slot of every file names a block of its own, and the blocks up to pos are exactly
      the system's and the named ones. */
  ghost predicate Sound(m: Image, sys: nat) {
    && ImageShape(m) && 0 < sys <= m.pos
    && (forall b | 0 <= b < |m.own| :: (m.own[b] == Nobody <==> b >= m.pos) && (m.own[b] == System <==> b < sys))
    && (forall k | 0 <= k < |m.ents| && m.ents[k].indirect != 0 ::
          && m.ents[k].indirect < m.pos && m.own[m.ents[k].indirect] == FileTable(k)
          && m.blocks[m.ents[k].indirect].Table?)
    && (forall k, i | 0 <= k < |m.ents| && 0 <= i < NBLOCKS && SlotIn(m.ents[k], m.blocks, i) != 0 ::
          var b := SlotIn(m.ents[k], m.blocks, i); b < m.pos && m.own[b] == FileBlock(k, i) && m.blocks[b].Data?)
    && (forall b | 0 <= b < |m.own| && m.own[b].FileTable? :: m.own[b].k < |m.ents| && m.ents[m.own[b].k].indirect == b)
    && (forall b | 0 <= b < |m.own| && m.own[b].FileBlock? ::
          m.own[b].k < |m.ents| && m.own[b].i < NBLOCKS && SlotIn(m.ents[m.own[b].k], m.blocks, m.own[b].i) == b)
  }

  /** File k has the name and the data it was added with. */
  ghost predicate HasData(m: Image, k: nat, name: string, data: seq<Byte>) {
    && ImageShape(m) && k < |m.ents| && |data| < MAXFILESIZE
    && m.ents[k].name == name && m.ents[k].size == |data| && m.ents[k].ftype == REG
    && (m.ents[k].indirect != 0 ==> NDIRECT <= Blocks(|data|))
    && forall i | 0 <= i < NBLOCKS ::
         var b := SlotIn(m.ents[k], m.blocks, i);
         if i < Blocks(|data|) then 0 < b < |m.blocks| && m.blocks[b] == Piece(data, i) else b == 0
  }

  predicate Fresh(f: File, name: string, data: seq<Byte>) {
    f.name == name && f.size == |data| && f.ftype == REG
  }

  /** The image after writing one more file. */
  ghost predicate Added(m: Image, m': Image, name: string, data: seq<Byte>) {
    var n := Blocks(|data|);
    && ImageShape(m) && ImageShape(m') && |m'.blocks| == |m.blocks| && |m'.ents| == |m.ents| + 1 && |data| < MAXFILESIZE
    && m'.pos == m.pos + n + (if n >= NDIRECT then 1 else 0) && m'.pos < |m.blocks|
    && m'.ents[..|m.ents|] == m.ents
    && Fresh(m'.ents[|m.ents|], name, data) && Laid(m'.ents[|m.ents|], m'.blocks, m.pos, n)
    && (forall b | 0 <= b < |m.blocks| && b < m.pos :: m'.blocks[b] == m.blocks[b])
    && (forall i | 0 <= i < n :: m'.blocks[m.pos + i] == Piece(data, i))
    && (forall b | 0 <= b < |m.own| :: m'.own[b] ==
          if m.pos <= b < m.pos + n then FileBlock(|m.ents|, b - m.pos)
          else if b == m.pos + n && n >= NDIRECT then FileTable(|m.ents|) else m.own[b])
  }

  lemma AddedOld(m: Image, m': Image, name: string, data: seq<Byte>, sys: nat)
    requires Sound(m, sys) && Added(m, m', name, data)
    ensures forall k | 0 <= k < |m.ents| :: m'.ents[k] == m.ents[k]
    ensures forall k, i | 0 <= k < |m.ents| && 0 <= i < NBLOCKS ::
              SlotIn(m'.ents[k], m'.blocks, i) == SlotIn(m.ents[k], m.blocks, i)
  {
    forall k | 0 <= k < |m.ents| ensures m'.ents[k] == m.ents[k] { assert m'.ents[..|m.ents|][k] == m.ents[k]; }
  }

  lemma AddedSlot(m: Image, m': Image, name: string, data: seq<Byte>, sys: nat, k: nat, i: nat)
    requires Sound(m, sys) && Added(m, m', name, data) && k < |m'.ents| && i < NBLOCKS
    requires SlotIn(m'.ents[k], m'.blocks, i) != 0
    ensures var b := SlotIn(m'.ents[k], m'.blocks, i); b < m'.pos && m'.own[b] == FileBlock(k, i) && m'.blocks[b].Data?
  {
    AddedOld(m, m', name, data, sys);
    if k == |m.ents| {
      assert m'.blocks[m.pos + i] == Piece(data, i);
    }
  }

  lemma AddedTable(m: Image, m': Image, name: string, data: seq<Byte>, sys: nat, k: nat)
    requires Sound(m, sys) && Added(m, m', name, data) && k < |m'.ents| && m'.ents[k].indirect != 0
    ensures m'.ents[k].indirect < m'.pos && m'.own[m'.ents[k].indirect] == FileTable(k)
    ensures m'.blocks[m'.ents[k].indirect].Table?
  {
    AddedOld(m, m', name, data, sys);
  }

  lemma AddedOwn(m: Image, m': Image, name: string, data: seq<Byte>, sys: nat, b: nat)
    requires Sound(m, sys) && Added(m, m', name, data) && b < |m'.own|
    ensures (m'.own[b] == Nobody <==> b >= m'.pos) && (m'.own[b] == System <==> b < sys)
    ensures m'.own[b].FileTable? ==> m'.own[b].k < |m'.ents| && m'.ents[m'.own[b].k].indirect == b
    ensures m'.own[b].FileBlock? ==>
              && m'.own[b].k < |m'.ents| && m'.own[b].i < NBLOCKS
              && SlotIn(m'.ents[m'.own[b].k], m'.blocks, m'.own[b].i) == b
  {
    AddedOld(m, m', name, data, sys);
  }

  lemma AddedSound(m: Image, m': Image, name: string, data: seq<Byte>, sys: nat)
    requires Sound(m, sys) && Added(m, m', name, data) && ImageShape(m') && 0 < sys <= m.pos <= m'.pos
    ensures Sound(m', sys)
  {
    hide Added;
    hide Laid;
    forall b | 0 <= b < |m'.own|
      ensures (m'.own[b] == Nobody <==> b >= m'.pos) && (m'.own[b] == System <==> b < sys)
      ensures m'.own[b].FileTable? ==> m'.own[b].k < |m'.ents| && m'.ents[m'.own[b].k].indirect == b
      ensures m'.own[b].FileBlock? ==>
                && m'.own[b].k < |m'.ents| && m'.own[b].i < NBLOCKS
                && SlotIn(m'.ents[m'.own[b].k], m'.blocks, m'.own[b].i) == b
    {
      AddedOwn(m, m', name, data, sys, b);
    }
    forall k | 0 <= k < |m'.ents| && m'.ents[k].indirect != 0
      ensures m'.ents[k].indirect < m'.pos && m'.own[m'.ents[k].indirect] == FileTable(k)
      ensures m'.blocks[m'.ents[k].indirect].Table?
    {
      AddedTable(m, m', name, data, sys, k);
    }
    forall k, i | 0 <= k < |m'.ents| && 0 <= i < NBLOCKS && SlotIn(m'.ents[k], m'.blocks, i) != 0
      ensures var b := SlotIn(m'.ents[k], m'.blocks, i);
              b < m'.pos && m'.own[b] == FileBlock(k, i) && m'.blocks[b].Data?
    {
      AddedSlot(m, m', name, data, sys, k, i);
    }
  }

  lemma AddedData(m: Image, m': Image, name: string, data: seq<Byte>, sys: nat)
    requires Sound(m, sys) && Added(m, m', name, data)
    ensures HasData(m', |m.ents|, name, data)
    ensures forall k, name', data' | HasData(m, k, name', data') :: HasData(m', k, name', data')
  {
    AddedOld(m, m', name, data, sys);
    var f, n := m'.ents[|m.ents|], Blocks(|data|);
    forall i | 0 <= i < NBLOCKS ensures
        var b := SlotIn(f, m'.blocks, i);
        if i < n then 0 < b < |m'.blocks| && m'.blocks[b] == Piece(data, i) else b == 0 {
    }
  }

  // ---------------------------------------------------------------- the finished disk

  const FILE_BYTES := 256
  const MAX_DIR_ENTS := 128

  /** Where the record of file k ends up when the directory starts at block db. */
  function RefOf(db: nat, k: nat): Ref {
    Entry(db + k / BLKFILES, k % BLKFILES)
  }

  function IndexOf(db: nat, b: nat, j: nat): nat
    requires db <= b
  {
    (b - db) * BLKFILES + j
  }

  lemma RefIndex(db: nat, k: nat, b: nat, j: nat)
    requires db <= b && j < BLKFILES
    ensures RefOf(db, k) == Entry(b, j) <==> k == IndexOf(db, b, j)
  {
  }

  /** The q-th block of the directory. */
  function DirPiece(ents: seq<File>, q: nat): Block {
    Dir(seq(BLKFILES, j requires 0 <= j => if q * BLKFILES + j < |ents| then ents[q * BLKFILES + j] else NoFile()))
  }

  function UseOf(o: Own, db: nat): Use {
    match o
    case Nobody => Unused
    case System => Reserved
    case FileBlock(k, i) => DataOf(RefOf(db, k), i)
    case FileTable(k) => TableOf(RefOf(db, k))
  }

  /** What the image is made from: a name and the data for each file. */
  datatype Source = Source(name: string, data: seq<Byte>)

  ghost predicate Complete(m: Image, files: seq<Source>) {
    |files| == |m.ents| && forall k | 0 <= k < |files| :: HasData(m, k, files[k].name, files[k].data)
  }

  /** finishdir and finishdisk have been done: nd directory blocks follow the files. */
  ghost predicate Finished(m: Image, sys: nat, files: seq<Source>, fs: Fs, nd: nat) {
    && Sound(m, sys) && Complete(m, files) && m.pos + nd < |m.blocks| && 0 < |m.ents| <= nd * BLKFILES && nd < NDIRECT
    && |fs.blocks| == |fs.free| == |fs.use| == |fs.depth| == |m.blocks| && sys == SysBlocks(|fs.free|)
    && (forall b | 0 <= b < |fs.depth| :: fs.depth[b] == if m.pos <= b < m.pos + nd then 0 else 1)
    && fs.root.ftype == DIR && fs.root.size == nd * BLKSIZE && Laid(fs.root, fs.blocks, m.pos, nd) && fs.root.name != ""
    && (forall b | 0 <= b < |fs.blocks| ::
          fs.blocks[b] == if m.pos <= b < m.pos + nd then DirPiece(m.ents, b - m.pos) else m.blocks[b])
    && (forall b | 0 <= b < |fs.blocks| :: fs.free[b] <==> b >= m.pos + nd)
    && (forall b | 0 <= b < |fs.blocks| ::
          fs.use[b] == if m.pos <= b < m.pos + nd then DataOf(Root, b - m.pos) else UseOf(m.own[b], m.pos))
  }

  predicate InDir(db: nat, nd: nat, r: Ref) {
    r.Entry? && db <= r.b < db + nd && r.j < BLKFILES
  }

  function Record(m: Image, r: Ref): File
    requires r.Entry? && m.pos <= r.b
  {
    var k := IndexOf(m.pos, r.b, r.j);
    if k < |m.ents| then m.ents[k] else NoFile()
  }

  lemma FinishedShape(m: Image, sys: nat, files: seq<Source>, fs: Fs, nd: nat)
    requires Finished(m, sys, files, fs, nd)
    ensures Shape(fs)
  {
    forall b | 0 <= b < |fs.blocks| ensures BlockOk(fs.blocks[b]) {
      if m.pos <= b < m.pos + nd { assert fs.blocks[b] == DirPiece(m.ents, b - m.pos); }
    }
  }

  lemma FinishedLive(m: Image, sys: nat, files: seq<Source>, fs: Fs, nd: nat, r: Ref)
    requires Finished(m, sys, files, fs, nd) && Shape(fs)
    ensures Live(fs, r) <==> r.Root? || InDir(m.pos, nd, r)
    ensures InDir(m.pos, nd, r) ==> FileAt(fs, r) == Record(m, r)
  {
    if r.Entry? && r.b < |fs.blocks| && !(m.pos <= r.b < m.pos + nd) && fs.use[r.b].DataOf? {
      assert m.own[r.b].FileBlock?;
      assert m.blocks[SlotIn(m.ents[m.own[r.b].k], m.blocks, m.own[r.b].i)].Data?;
    }
  }

  lemma FinishedAt(m: Image, sys: nat, files: seq<Source>, fs: Fs, nd: nat)
    requires Finished(m, sys, files, fs, nd)
    ensures Shape(fs)
    ensures forall r :: Live(fs, r) <==> r.Root? || InDir(m.pos, nd, r)
    ensures forall r | InDir(m.pos, nd, r) :: FileAt(fs, r) == Record(m, r)
  {
    hide Finished;
    hide Record;
    FinishedShape(m, sys, files, fs, nd);
    forall r
      ensures Live(fs, r) <==> r.Root? || InDir(m.pos, nd, r)
      ensures InDir(m.pos, nd, r) ==> FileAt(fs, r) == Record(m, r) {
      FinishedLive(m, sys, files, fs, nd, r);
    }
  }

  /** The slots of a record of the directory are those that fsformat gave the file. */
  lemma FinishedSlots(m: Image, sys: nat, files: seq<Source>, fs: Fs, nd: nat, r: Ref, i: nat)
    requires Finished(m, sys, files, fs, nd) && Shape(fs) && Live(fs, r) && i < NBLOCKS
    ensures r.Root? ==> SlotOf(fs, r, i) == if i < nd then m.pos + i else 0
    ensures r.Entry? ==> InDir(m.pos, nd, r)
    ensures r.Entry? ==>
              var k := IndexOf(m.pos, r.b, r.j);
              SlotOf(fs, r, i) == if k < |m.ents| then SlotIn(m.ents[k], m.blocks, i) else 0
  {
    FinishedAt(m, sys, files, fs, nd);
    assert r.Root? ==> SlotOf(fs, r, i) == SlotIn(fs.root, fs.blocks, i);
  }

  /** What a record's slot names is the record's, of the right type, and below its size. */
  lemma FinishedSlot(m: Image, sys: nat, files: seq<Source>, fs: Fs, nd: nat, r: Ref, i: nat)
    requires Finished(m, sys, files, fs, nd) && Shape(fs) && Live(fs, r) && i < NBLOCKS && SlotOf(fs, r, i) != 0
    ensures var b := SlotOf(fs, r, i);
            && b < |fs.blocks| && fs.use[b] == DataOf(r, i) && Fits(FileAt(fs, r).ftype, fs.blocks[b])
            && i < Blocks(FileAt(fs, r).size)
  {
    FinishedAt(m, sys, files, fs, nd);
    FinishedSlots(m, sys, files, fs, nd, r, i);
    if r.Entry? {
      var k := IndexOf(m.pos, r.b, r.j);
      RefIndex(m.pos, k, r.b, r.j);
      assert HasData(m, k, files[k].name, files[k].data);
    } else {
      WholeBlocks(nd * BLKSIZE);
    }
  }

  lemma FinishedTable(m: Image, sys: nat, files: seq<Source>, fs: Fs, nd: nat, r: Ref)
    requires Finished(m, sys, files, fs, nd) && Shape(fs) && Live(fs, r) && FileAt(fs, r).indirect != 0
    ensures HasTable(fs, r) && fs.use[FileAt(fs, r).indirect] == TableOf(r) && NDIRECT <= Blocks(FileAt(fs, r).size)
  {
    FinishedAt(m, sys, files, fs, nd);
    if r.Entry? {
      var k := IndexOf(m.pos, r.b, r.j);
      RefIndex(m.pos, k, r.b, r.j);
      assert HasData(m, k, files[k].name, files[k].data);
    }
  }

  lemma FinishedNamed(m: Image, sys: nat, files: seq<Source>, fs: Fs, nd: nat, b: nat)
    requires Finished(m, sys, files, fs, nd) && Shape(fs) && b < |fs.use|
    ensures fs.use[b].TableOf? ==> Live(fs, fs.use[b].r) && FileAt(fs, fs.use[b].r).indirect == b
    ensures fs.use[b].DataOf? ==>
              Live(fs, fs.use[b].r) && fs.use[b].i < NBLOCKS && SlotOf(fs, fs.use[b].r, fs.use[b].i) == b
    ensures (fs.free[b] <==> fs.use[b] == Unused) && (fs.use[b] == Reserved <==> b < sys)
    ensures fs.use[b].DataOf? && fs.use[b].r.Entry? ==>
              fs.use[b].r.b < |fs.depth| && fs.depth[fs.use[b].r.b] < fs.depth[b]
  {
    FinishedAt(m, sys, files, fs, nd);
    var u := fs.use[b];
    if m.pos <= b < m.pos + nd {
      FinishedSlots(m, sys, files, fs, nd, Root, b - m.pos);
    } else if m.own[b].FileBlock? || m.own[b].FileTable? {
      var k := m.own[b].k;
      RefIndex(m.pos, k, u.r.b, u.r.j);
      assert k / BLKFILES < nd;
      assert InDir(m.pos, nd, u.r);
      if m.own[b].FileBlock? { FinishedSlots(m, sys, files, fs, nd, u.r, u.i); }
    }
  }

  /** fsformat's image, given at least one file, satisfies the invariant. */
  lemma FinishedInv(m: Image, sys: nat, files: seq<Source>, fs: Fs, nd: nat)
    requires Finished(m, sys, files, fs, nd)
    ensures Inv(fs)
  {
    FinishedAt(m, sys, files, fs, nd);
    FinishedBitmap(m, sys, files, fs, nd);
    forall r | Live(fs, r) && FileAt(fs, r).indirect != 0
      ensures HasTable(fs, r) && fs.use[FileAt(fs, r).indirect] == TableOf(r) && NDIRECT <= Blocks(FileAt(fs, r).size) {
      FinishedTable(m, sys, files, fs, nd, r);
    }
    forall r, i | Live(fs, r) && 0 <= i < NBLOCKS && SlotOf(fs, r, i) != 0
      ensures SlotOf(fs, r, i) < |fs.blocks| && fs.use[SlotOf(fs, r, i)] == DataOf(r, i)
      ensures Fits(FileAt(fs, r).ftype, fs.blocks[SlotOf(fs, r, i)]) && i < Blocks(FileAt(fs, r).size) {
      FinishedSlot(m, sys, files, fs, nd, r, i);
    }
  }

  lemma FinishedBitmap(m: Image, sys: nat, files: seq<Source>, fs: Fs, nd: nat)
    requires Finished(m, sys, files, fs, nd)
    ensures Shape(fs) && Bitmap(fs) && Named(fs) && Rooted(fs)
  {
    FinishedAt(m, sys, files, fs, nd);
    forall b | 0 <= b < |fs.use|
      ensures fs.use[b].TableOf? ==> Live(fs, fs.use[b].r) && FileAt(fs, fs.use[b].r).indirect == b
      ensures fs.use[b].DataOf? ==>
                Live(fs, fs.use[b].r) && fs.use[b].i < NBLOCKS && SlotOf(fs, fs.use[b].r, fs.use[b].i) == b
      ensures (fs.free[b] <==> fs.use[b] == Unused) && (fs.use[b] == Reserved <==> b < sys)
      ensures fs.use[b].DataOf? && fs.use[b].r.Entry? ==>
                fs.use[b].r.b < |fs.depth| && fs.depth[fs.use[b].r.b] < fs.depth[b]
    {
      FinishedNamed(m, sys, files, fs, nd, b);
    }
  }

  lemma FinishedListed(m: Image, sys: nat, files: seq<Source>, fs: Fs, nd: nat, d: Ref, i: nat, j: nat, name: string)
    requires Finished(m, sys, files, fs, nd) && Shape(fs) && Live(fs, d) && FileAt(fs, d).ftype == DIR && j < BLKFILES
    requires name != ""
    ensures d == Root
    ensures Listed(fs, Root, i, j, name) <==> i * BLKFILES + j < |files| && files[i * BLKFILES + j].name == name
  {
    hide Finished;
    EntriesAreFiles(m, sys, files, fs, nd, d);
    FinishedSize(m, sys, files, fs, nd);
    if i < nd {
      FinishedEntry(m, sys, files, fs, nd, i, j);
    }
  }

  lemma FinishedSize(m: Image, sys: nat, files: seq<Source>, fs: Fs, nd: nat)
    requires Finished(m, sys, files, fs, nd) && Shape(fs)
    ensures FileAt(fs, Root).size / BLKSIZE == nd < NBLOCKS && |files| <= nd * BLKFILES
  {
  }

  lemma FinishedEntry(m: Image, sys: nat, files: seq<Source>, fs: Fs, nd: nat, i: nat, j: nat)
    requires Finished(m, sys, files, fs, nd) && Shape(fs) && i < nd < NBLOCKS && j < BLKFILES
    ensures SlotOf(fs, Root, i) == m.pos + i != 0 && Live(fs, Entry(m.pos + i, j))
    ensures var k := i * BLKFILES + j; FileAt(fs, Entry(m.pos + i, j)).name == if k < |files| then files[k].name else ""
  {
    hide Finished;
    FinishedAt(m, sys, files, fs, nd);
    FinishedSlots(m, sys, files, fs, nd, Root, i);
    assert InDir(m.pos, nd, Entry(m.pos + i, j));
    RecordName(m, sys, files, fs, nd, i * BLKFILES + j);
  }

  lemma RecordName(m: Image, sys: nat, files: seq<Source>, fs: Fs, nd: nat, k: nat)
    requires Finished(m, sys, files, fs, nd)
    ensures m.pos > 0 && |m.ents| == |files| && (k < |files| ==> m.ents[k].name == files[k].name)
  {
    assert k < |files| ==> HasData(m, k, files[k].name, files[k].data);
  }

  lemma EntriesAreFiles(m: Image, sys: nat, files: seq<Source>, fs: Fs, nd: nat, d: Ref)
    requires Finished(m, sys, files, fs, nd) && Shape(fs) && Live(fs, d)
    ensures d.Entry? ==> FileAt(fs, d).ftype == REG
  {
    FinishedAt(m, sys, files, fs, nd);
    if d.Entry? {
      var k := IndexOf(m.pos, d.b, d.j);
      assert k < |files| ==> HasData(m, k, files[k].name, files[k].data);
    }
  }

  /** No two files of the same name, and none without. */
  predicate DistinctNames(files: seq<Source>) {
    && (forall k | 0 <= k < |files| :: files[k].name != "")
    && (forall k, k' | 0 <= k < k' < |files| :: files[k].name != files[k'].name)
  }

  lemma ListedOnce(m: Image, sys: nat, files: seq<Source>, fs: Fs, nd: nat, d: Ref, i: nat, j: nat, i': nat, j': nat,
                   name: string)
    requires Finished(m, sys, files, fs, nd) && DistinctNames(files) && Shape(fs) && Live(fs, d)
    requires FileAt(fs, d).ftype == DIR
    requires name != "" && Listed(fs, d, i, j, name) && Listed(fs, d, i', j', name)
    ensures i == i' && j == j'
  {
    hide Finished;
    FinishedListed(m, sys, files, fs, nd, d, i, j, name);
    FinishedListed(m, sys, files, fs, nd, d, i', j', name);
    var k, k' := i * BLKFILES + j, i' * BLKFILES + j';
    assert k == k';
  }

  lemma FinishedDirs(m: Image, sys: nat, files: seq<Source>, fs: Fs, nd: nat)
    requires Finished(m, sys, files, fs, nd) && DistinctNames(files)
    ensures Shape(fs) && DirsOk(fs)
  {
    hide Finished;
    hide Listed;
    hide DistinctNames;
    FinishedAt(m, sys, files, fs, nd);
    FinishedSizes(m, sys, files, fs, nd);
    forall d, i, j, i', j', name | Live(fs, d) && FileAt(fs, d).ftype == DIR && name != ""
      && Listed(fs, d, i, j, name) && Listed(fs, d, i', j', name) ensures i == i' && j == j' {
      ListedOnce(m, sys, files, fs, nd, d, i, j, i', j', name);
    }
    forall r | Live(fs, r) && FileAt(fs, r).name == "" ensures SameMeta(NoFile(), FileAt(fs, r)) {
      BlankIsNoFile(m, sys, files, fs, nd, r);
    }
  }

  lemma FinishedSizes(m: Image, sys: nat, files: seq<Source>, fs: Fs, nd: nat)
    requires Finished(m, sys, files, fs, nd) && Shape(fs)
    ensures forall d | Live(fs, d) && FileAt(fs, d).ftype == DIR :: FileAt(fs, d).size % BLKSIZE == 0
    ensures FileAt(fs, Root).name != ""
  {
    forall d | Live(fs, d) && FileAt(fs, d).ftype == DIR ensures FileAt(fs, d).size % BLKSIZE == 0 {
      EntriesAreFiles(m, sys, files, fs, nd, d);
    }
  }

  lemma BlankIsNoFile(m: Image, sys: nat, files: seq<Source>, fs: Fs, nd: nat, r: Ref)
    requires Finished(m, sys, files, fs, nd) && DistinctNames(files) && Shape(fs) && Live(fs, r)
    requires FileAt(fs, r).name == ""
    ensures SameMeta(NoFile(), FileAt(fs, r))
  {
    FinishedAt(m, sys, files, fs, nd);
    var k := IndexOf(m.pos, r.b, r.j);
    assert k < |files| ==> HasData(m, k, files[k].name, files[k].data);
  }

  lemma FinishedRecord(m: Image, sys: nat, files: seq<Source>, fs: Fs, nd: nat, k: nat)
    requires Finished(m, sys, files, fs, nd) && DistinctNames(files) && k < |files|
    ensures Shape(fs) && Find(fs, Root, files[k].name) == Some(RefOf(m.pos, k)) && Live(fs, RefOf(m.pos, k))
    ensures FileAt(fs, RefOf(m.pos, k)).ftype == REG
    ensures FileAt(fs, RefOf(m.pos, k)).size == |files[k].data| < MAXFILESIZE
  {
    hide Finished;
    FinishedDirs(m, sys, files, fs, nd);
    RecordIs(m, sys, files, fs, nd, k);
    var r := RefOf(m.pos, k);
    FinishedListed(m, sys, files, fs, nd, Root, k / BLKFILES, k % BLKFILES, files[k].name);
    FinishedSlots(m, sys, files, fs, nd, Root, k / BLKFILES);
    FindIs(fs, Root, files[k].name, r);
  }

  lemma RecordIs(m: Image, sys: nat, files: seq<Source>, fs: Fs, nd: nat, k: nat)
    requires Finished(m, sys, files, fs, nd) && k < |files|
    ensures Shape(fs) && Live(fs, RefOf(m.pos, k)) && Fresh(FileAt(fs, RefOf(m.pos, k)), files[k].name, files[k].data)
    ensures k / BLKFILES < nd < NBLOCKS && |files[k].data| < MAXFILESIZE && FileAt(fs, Root).ftype == DIR
  {
    FinishedAt(m, sys, files, fs, nd);
    var r := RefOf(m.pos, k);
    RefIndex(m.pos, k, r.b, r.j);
    assert InDir(m.pos, nd, r);
    assert HasData(m, k, files[k].name, files[k].data);
  }

  /** The round trip: every file is found under its name and holds the data it was made from. */
  lemma FinishedFile(m: Image, sys: nat, files: seq<Source>, fs: Fs, nd: nat, k: nat)
    requires Finished(m, sys, files, fs, nd) && DistinctNames(files) && k < |files|
    ensures Shape(fs) && Find(fs, Root, files[k].name) == Some(RefOf(m.pos, k)) && Live(fs, RefOf(m.pos, k))
    ensures FileAt(fs, RefOf(m.pos, k)).ftype == REG
    ensures FileAt(fs, RefOf(m.pos, k)).size == |files[k].data| < MAXFILESIZE
    ensures forall p | 0 <= p < MAXFILESIZE ::
              ByteAt(fs, RefOf(m.pos, k), p) == if p < |files[k].data| then files[k].data[p] else 0
  {
    FinishedRecord(m, sys, files, fs, nd, k);
    var r := RefOf(m.pos, k);
    hide Finished;
    forall p | 0 <= p < MAXFILESIZE ensures ByteAt(fs, r, p) == if p < |files[k].data| then files[k].data[p] else 0 {
      FinishedByte(m, sys, files, fs, nd, k, p);
    }
  }

  lemma FinishedBlock(m: Image, sys: nat, files: seq<Source>, fs: Fs, nd: nat, k: nat, i: nat)
    requires Finished(m, sys, files, fs, nd) && Shape(fs) && k < |files| && i < NBLOCKS && Live(fs, RefOf(m.pos, k))
    ensures BlockBytes(fs, RefOf(m.pos, k), i) ==
            if i < Blocks(|files[k].data|) then Piece(files[k].data, i).bytes else Zeros()
  {
    FinishedAt(m, sys, files, fs, nd);
    var r := RefOf(m.pos, k);
    RefIndex(m.pos, k, r.b, r.j);
    assert HasData(m, k, files[k].name, files[k].data);
    FinishedSlots(m, sys, files, fs, nd, r, i);
  }

  lemma FinishedByte(m: Image, sys: nat, files: seq<Source>, fs: Fs, nd: nat, k: nat, p: nat)
    requires Finished(m, sys, files, fs, nd) && Shape(fs) && k < |files| && p < MAXFILESIZE && Live(fs, RefOf(m.pos, k))
    ensures ByteAt(fs, RefOf(m.pos, k), p) == if p < |files[k].data| then files[k].data[p] else 0
  {
    hide Finished;
    hide BlockBytes;
    hide RefOf;
    FinishedBlock(m, sys, files, fs, nd, k, p / BLKSIZE);
    assert (p / BLKSIZE) * BLKSIZE + p % BLKSIZE == p;
    PastTheEnd(|files[k].data|, p);
  }

  lemma PastTheEnd(n: nat, p: nat)
    ensures p / BLKSIZE >= Blocks(n) ==> p >= n
  {
  }
}
