/** The file system as one value: the bitmap, the blocks with their contents, and the root
    directory's record.  File records live in directory blocks, which are blocks of the same
    disk, so every step is justified by who owns each block. */
module FsSpec {
  const BLKSIZE := 4096
  const NDIRECT := 10
  const NINDIRECT := 1024
  const NBLOCKS := NDIRECT + NINDIRECT
  const MAXFILESIZE := NBLOCKS * BLKSIZE
  const BLKFILES := 16
  const MAXNAMELEN := 128
  /** The blocks that one block of the bitmap covers. */
  const BLKBITSIZE := 8 * BLKSIZE

  type Byte = bv8

  datatype Type = REG | DIR

  datatype File = File(name: string, size: nat, ftype: Type, direct: seq<nat>, indirect: nat)

  /** What a block holds, by the way the code uses it. */
  datatype Block = Data(bytes: seq<Byte>) | Table(ptrs: seq<nat>) | Dir(files: seq<File>)

  /** Where a file's record is: the root's is in the super block, every other one in a
      directory block. */
  datatype Ref = Root | Entry(b: nat, j: nat)

  /** What a block is used for. */
  datatype Use = Unused | Reserved | DataOf(r: Ref, i: nat) | TableOf(r: Ref)

  /** The disk, with who uses each block and how deep below the root directory that is. */
  datatype Fs = Fs(free: seq<bool>, use: seq<Use>, depth: seq<nat>, blocks: seq<Block>, root: File)

  predicate BlockOk(x: Block) {
    match x
    case Data(bytes) => |bytes| == BLKSIZE
    case Table(ptrs) => |ptrs| == NINDIRECT
    case Dir(files) => |files| == BLKFILES && forall j | 0 <= j < BLKFILES :: |files[j].direct| == NDIRECT
  }

  predicate Shape(fs: Fs) {
    && |fs.free| == |fs.use| == |fs.depth| == |fs.blocks| && |fs.root.direct| == NDIRECT
    && forall b | 0 <= b < |fs.blocks| :: BlockOk(fs.blocks[b])
  }

  /** The record exists: it is the root's, or lies in a directory block in use. */
  predicate Live(fs: Fs, r: Ref)
    requires Shape(fs)
  {
    r.Root? || (r.b < |fs.blocks| && r.j < BLKFILES && fs.use[r.b].DataOf? && fs.blocks[r.b].Dir?)
  }

  function FileAt(fs: Fs, r: Ref): (f: File)
    requires Shape(fs) && Live(fs, r)
    ensures |f.direct| == NDIRECT
  {
    if r.Root? then fs.root else
      assert BlockOk(fs.blocks[r.b]);
      fs.blocks[r.b].files[r.j]
  }

  predicate HasTable(fs: Fs, r: Ref)
    requires Shape(fs) && Live(fs, r)
  {
    var t := FileAt(fs, r).indirect;
    t != 0 && t < |fs.blocks| && fs.blocks[t].Table?
  }

  /** The disk block of block i of the file, 0 for none. */
  function SlotOf(fs: Fs, r: Ref, i: nat): nat
    requires Shape(fs) && Live(fs, r) && i < NBLOCKS
  {
    if i < NDIRECT then FileAt(fs, r).direct[i]
    else if HasTable(fs, r) then
      assert BlockOk(fs.blocks[FileAt(fs, r).indirect]);
      fs.blocks[FileAt(fs, r).indirect].ptrs[i - NDIRECT]
    else 0
  }

  /** The number of blocks that a file of n bytes covers. */
  function Blocks(n: nat): nat {
    (n + BLKSIZE - 1) / BLKSIZE
  }

  predicate Fits(ftype: Type, x: Block) {
    if ftype == DIR then x.Dir? else x.Data?
  }

  /** Every block that a file names is the file's and is of the right type. */
  ghost predicate Names(fs: Fs)
    requires Shape(fs)
  {
    && (forall r | Live(fs, r) && FileAt(fs, r).indirect != 0 ::
          HasTable(fs, r) && fs.use[FileAt(fs, r).indirect] == TableOf(r))
    && (forall r, i | Live(fs, r) && 0 <= i < NBLOCKS && SlotOf(fs, r, i) != 0 ::
          SlotOf(fs, r, i) < |fs.blocks| && fs.use[SlotOf(fs, r, i)] == DataOf(r, i)
          && Fits(FileAt(fs, r).ftype, fs.blocks[SlotOf(fs, r, i)]))
  }

  /** Every block in use is named by the slot it is used for. */
  ghost predicate Named(fs: Fs)
    requires Shape(fs)
  {
    && (forall b | 0 <= b < |fs.use| && fs.use[b].TableOf? ::
          Live(fs, fs.use[b].r) && FileAt(fs, fs.use[b].r).indirect == b)
    && (forall b | 0 <= b < |fs.use| && fs.use[b].DataOf? ::
          Live(fs, fs.use[b].r) && fs.use[b].i < NBLOCKS && SlotOf(fs, fs.use[b].r, fs.use[b].i) == b)
  }

  /** The number of reserved blocks on a disk of n blocks: the boot block, the super block and
      the bitmap. */
  function SysBlocks(n: nat): (k: nat)
    ensures k >= 2
  {
    2 + (n + BLKBITSIZE - 1) / BLKBITSIZE
  }

  /** A block is marked free exactly if it is not in use, and the reserved blocks are the first
      ones and no others. */
  predicate Bitmap(fs: Fs)
    requires Shape(fs)
  {
    && |fs.free| > 0 && fs.use[0] == Reserved
    && (forall b | 0 <= b < |fs.free| :: fs.free[b] <==> fs.use[b] == Unused)
    && (forall b | 0 <= b < |fs.use| :: fs.use[b] == Reserved <==> b < SysBlocks(|fs.free|))
  }

  /** A block lies deeper than the record that names it. */
  predicate Rooted(fs: Fs)
    requires Shape(fs)
  {
    forall b | 0 <= b < |fs.use| && fs.use[b].DataOf? && fs.use[b].r.Entry? ::
      fs.use[b].r.b < |fs.depth| && fs.depth[fs.use[b].r.b] < fs.depth[b]
  }

  /** No file has a block beyond its size. */
  ghost predicate Below(fs: Fs)
    requires Shape(fs)
  {
    && (forall r, i | Live(fs, r) && 0 <= i < NBLOCKS && SlotOf(fs, r, i) != 0 :: i < Blocks(FileAt(fs, r).size))
    && (forall r | Live(fs, r) && FileAt(fs, r).indirect != 0 :: NDIRECT <= Blocks(FileAt(fs, r).size))
  }

  ghost predicate Inv(fs: Fs) {
    Shape(fs) && Names(fs) && Named(fs) && Bitmap(fs) && Below(fs) && Rooted(fs) && fs.root.ftype == DIR
  }

  // ---------------------------------------------------------------- single steps

  function PutFile(fs: Fs, r: Ref, f: File): Fs
    requires Shape(fs) && Live(fs, r) && |f.direct| == NDIRECT
  {
    if r.Root? then fs.(root := f)
    else fs.(blocks := fs.blocks[r.b := Dir(fs.blocks[r.b].files[r.j := f])])
  }

  function PutSlot(fs: Fs, r: Ref, i: nat, x: nat): Fs
    requires Shape(fs) && Live(fs, r) && i < NBLOCKS && (i >= NDIRECT ==> HasTable(fs, r))
  {
    var f := FileAt(fs, r);
    if i < NDIRECT then PutFile(fs, r, f.(direct := f.direct[i := x]))
    else fs.(blocks := fs.blocks[f.indirect := Table(fs.blocks[f.indirect].ptrs[i - NDIRECT := x])])
  }

  /** The same but for the blocks. */
  predicate SameMeta(f: File, f': File) {
    f'.name == f.name && f'.size == f.size && f'.ftype == f.ftype
  }

  /** The record of no file: all zero. */
  function NoFile(): File {
    File("", 0, REG, seq(NDIRECT, _ => 0), 0)
  }

  /** A cleared block, read as the use it is put to. */
  function ZeroBlock(ftype: Type): Block {
    if ftype == DIR then Dir(seq(BLKFILES, _ => NoFile())) else Data(seq(BLKSIZE, _ => 0))
  }

  function ZeroTable(): Block {
    Table(seq(NINDIRECT, _ => 0))
  }

  /** Block b goes into use with contents x, at depth d. */
  function Claim(fs: Fs, b: nat, u: Use, x: Block, d: nat): Fs
    requires Shape(fs) && b < |fs.blocks|
  {
    fs.(free := fs.free[b := false], use := fs.use[b := u], blocks := fs.blocks[b := x], depth := fs.depth[b := d])
  }

  /** The depth of the blocks of a file. */
  function Under(fs: Fs, r: Ref): nat
    requires Shape(fs) && Live(fs, r)
  {
    if r.Root? then 0 else fs.depth[r.b] + 1
  }

  /** file_get_block's allocation of block i of the file. */
  function NewData(fs: Fs, r: Ref, i: nat, b: nat): Fs
    requires Shape(fs) && Live(fs, r) && i < NBLOCKS && (i >= NDIRECT ==> HasTable(fs, r)) && b < |fs.blocks|
    requires fs.use[b] == Unused
  {
    var fs1 := PutSlot(fs, r, i, b);
    Claim(fs1, b, DataOf(r, i), ZeroBlock(FileAt(fs, r).ftype), Under(fs, r))
  }

  /** file_block_walk's allocation of the indirect block. */
  function NewTable(fs: Fs, r: Ref, b: nat): Fs
    requires Shape(fs) && Live(fs, r) && b < |fs.blocks| && fs.use[b] == Unused
  {
    var f := FileAt(fs, r);
    Claim(PutFile(fs, r, f.(indirect := b)), b, TableOf(r), ZeroTable(), Under(fs, r))
  }

  /** file_free_block, for a slot in use: the block is marked free and no longer named. */
  function Unmark(fs: Fs, r: Ref, i: nat): Fs
    requires Shape(fs) && Live(fs, r) && i < NBLOCKS && 0 < SlotOf(fs, r, i) < |fs.blocks|
  {
    PutSlot(fs, r, i, 0).(free := fs.free[SlotOf(fs, r, i) := true])
  }

  /** file_truncate_blocks' last step. */
  function UnmarkTable(fs: Fs, r: Ref): Fs
    requires Shape(fs) && Live(fs, r) && HasTable(fs, r)
  {
    var f := FileAt(fs, r);
    PutFile(fs, r, f.(indirect := 0)).(free := fs.free[f.indirect := true])
  }
}
