/** fs/bc.c, and the flushing part of fs/fs.c: disk blocks are paged in on demand and written
    back when dirty, and nobody can tell the cache from the plain disk. */
module BlockCache {
  import opened FsSpec
  import opened FsLemmas
  import opened FsBytes
  import opened Files

  /** A page of the disk map: mapped or not, its contents, and PTE_D. */
  datatype Page = Unmapped | Mapped(data: Block, dirty: bool)

  /** What the file system sees of a block. */
  function Seen(p: Page, onDisk: Block): Block {
    if p.Mapped? then p.data else onDisk
  }

  function Overlay(pages: seq<Page>, disk: seq<Block>): (v: seq<Block>)
    requires |pages| == |disk|
    ensures |v| == |disk| && forall b | 0 <= b < |v| :: v[b] == Seen(pages[b], disk[b])
  {
    seq(|disk|, b requires 0 <= b < |disk| => Seen(pages[b], disk[b]))
  }

  class Cache {
    var disk: seq<Block>
    var pages: seq<Page>
    /** What block_is_free says. */
    var free: seq<bool>

    /** A clean page holds what the disk holds. */
    predicate Valid()
      reads this
    {
      |pages| == |disk| && forall b | 0 <= b < |disk| && pages[b].Mapped? && !pages[b].dirty :: pages[b].data == disk[b]
    }

    function View(): seq<Block>
      requires |pages| == |disk|
      reads this
    {
      Overlay(pages, disk)
    }

    /** A fresh server, with nothing paged in. */
    constructor (disk: seq<Block>, free: seq<bool>)
      ensures Valid() && this.disk == disk && View() == disk && this.free == free
    {
      this.disk := disk;
      this.free := free;
      pages := seq(|disk|, _ => Unmapped);
    }

    /** diskaddr: -1 stands for its panic, and a block number for the block's address. */
    function DiskAddr(b: nat): (r: int)
      reads this
      ensures r == b || r == -1
      ensures r == -1 <==> b == 0 || b >= |disk|
    {
      if b == 0 || b >= |disk| then -1 else b
    }

    predicate BlockIsFree(b: nat)
      reads this
    {
      b < |free| && free[b]
    }

    predicate VaIsMapped(b: nat)
      requires b < |pages|
      reads this
    {
      pages[b].Mapped?
    }

    predicate VaIsDirty(b: nat)
      requires b < |pages|
      reads this
    {
      pages[b].Mapped? && pages[b].dirty
    }

    /** sys_page_map of a page onto itself: the new page-table entry is not dirty. */
    method ClearDirty(b: nat)
      requires b < |pages| && pages[b].Mapped?
      modifies this`pages
      ensures pages == old(pages)[b := Mapped(old(pages[b].data), false)]
    {
      pages := pages[b := Mapped(pages[b].data, false)];
    }

    /** bc_pgfault, for a block that is not mapped.  False is its panic: the block is not on the
        disk, or is a free one according to the bitmap. */
    method BcPgfault(b: nat) returns (ok: bool)
      requires Valid() && (b < |pages| ==> !pages[b].Mapped?)
      modifies this`pages
      ensures Valid() && View() == old(View())
      ensures ok <==> b < |disk| && !BlockIsFree(b)
      ensures b < |disk| ==> pages == old(pages)[b := Mapped(disk[b], false)]
      ensures b >= |disk| ==> pages == old(pages)
    {
      if b >= |disk| {
        return false;
      }
      // sys_page_alloc, then ide_read into the page, which the processor marks as written to.
      pages := pages[b := Mapped(Data(Zeros()), false)];
      pages := pages[b := Mapped(disk[b], true)];
      ClearDirty(b);
      ok := !BlockIsFree(b);
      assert View() == old(View());
    }

    /** flush_block. */
    method FlushBlock(b: nat)
      requires Valid() && b < |disk|
      modifies this`disk, this`pages
      ensures Valid() && View() == old(View()) && |disk| == |old(disk)|
      ensures disk == old(disk)[b := View()[b]]
      ensures !VaIsDirty(b) && forall c | 0 <= c < |pages| && c != b :: pages[c] == old(pages)[c]
    {
      if VaIsMapped(b) && VaIsDirty(b) {
        disk := disk[b := pages[b].data];
        ClearDirty(b);
      }
      assert View() == old(View());
    }

    /** A load or store instruction faults the block in first.  False is the panic on a block that
        is free. */
    method Touch(b: nat) returns (ok: bool)
      requires Valid() && b < |disk|
      modifies this`pages
      ensures Valid() && View() == old(View()) && pages[b].Mapped?
      ensures ok <==> old(pages[b].Mapped?) || !BlockIsFree(b)
      ensures forall c | 0 <= c < |pages| && c != b :: pages[c] == old(pages)[c]
    {
      ok := true;
      if !pages[b].Mapped? {
        ok := BcPgfault(b);
      }
    }

    method Load(b: nat) returns (ok: bool, x: Block)
      requires Valid() && b < |disk|
      modifies this`pages
      ensures Valid() && View() == old(View()) && x == View()[b]
      ensures ok <==> old(pages[b].Mapped?) || !BlockIsFree(b)
      ensures forall c | 0 <= c < |pages| && c != b :: pages[c] == old(pages)[c]
    {
      ok := Touch(b);
      x := pages[b].data;
    }

    method Store(b: nat, x: Block) returns (ok: bool)
      requires Valid() && b < |disk|
      modifies this`pages
      ensures Valid() && View() == if ok then old(View())[b := x] else old(View())
      ensures ok <==> old(pages[b].Mapped?) || !BlockIsFree(b)
    {
      ok := Touch(b);
      if ok {
        pages := pages[b := Mapped(x, true)];
        assert View() == old(View())[b := x];
      }
    }

    /** sys_page_unmap of a clean page. */
    method Evict(b: nat)
      requires Valid() && b < |disk| && !VaIsDirty(b)
      modifies this`pages
      ensures Valid() && View() == old(View())
    {
      pages := pages[b := Unmapped];
      assert View() == old(View());
    }

    /** The disk holds what the file system sees. */
    ghost predicate OnDisk(b: nat)
      requires |pages| == |disk|
      reads this
    {
      b < |disk| ==> disk[b] == View()[b]
    }

    /** So are the first n data blocks of the file. */
    ghost predicate DataOnDisk(fs: Fs, r: Ref, n: nat)
      requires |pages| == |disk| && Shape(fs) && Live(fs, r)
      reads this
    {
      forall i | 0 <= i < n && i < NBLOCKS && SlotOf(fs, r, i) != 0 :: OnDisk(SlotOf(fs, r, i))
    }

    /** The file system that the cache shows. */
    ghost predicate Shows(fs: Fs)
      reads this
    {
      Valid() && Shape(fs) && Inv(fs) && View() == fs.blocks && free == fs.free && |disk| > SUPER
    }

    /** The file's record, read through the cache. */
    method Record(r: Ref, root: File, ghost fs: Fs) returns (ok: bool, f: File)
      requires Shows(fs) && Live(fs, r) && root == fs.root
      modifies this`pages
      ensures Shows(fs) && ok && f == FileAt(fs, r)
      ensures forall b | 0 <= b < |pages| && b != RecordBlock(r) :: pages[b] == old(pages)[b]
    {
      RecordInUse(fs, r);
      if r.Root? {
        ok := Touch(SUPER);
        f := root;
      } else {
        var x;
        ok, x := Load(r.b);
        assert BlockOk(fs.blocks[r.b]);
        f := x.files[r.j];
      }
    }

    /** Slot i of the file, read through the cache; 0 if there is none. */
    method Slot(r: Ref, i: nat, f: File, ghost fs: Fs) returns (ok: bool, x: nat)
      requires Shows(fs) && Live(fs, r) && f == FileAt(fs, r) && i < NBLOCKS
      modifies this`pages
      ensures Shows(fs) && ok && x == SlotOf(fs, r, i)
    {
      TableUsedBy(fs, r);
      ok, x := true, 0;
      if i < NDIRECT {
        x := f.direct[i];
      } else if f.indirect != 0 {
        TableInUse(fs, r);
        var t;
        ok, t := Load(f.indirect);
        assert BlockOk(fs.blocks[f.indirect]);
        x := t.ptrs[i - NDIRECT];
      }
    }

    /** file_flush's loop. */
    method FlushData(r: Ref, f: File, ghost fs: Fs) returns (ok: bool)
      requires Shows(fs) && Live(fs, r) && f == FileAt(fs, r)
      modifies this`disk, this`pages
      ensures Shows(fs) && ok
      ensures f.size <= FLUSH_MAX ==> DataOnDisk(fs, r, NBLOCKS)
      ensures FLUSH_MAX < f.size <= OFF_MAX ==> pages == old(pages) && disk == old(disk)
    {
      hide Inv;
      ok := true;
      var bound, i := FlushBound(f.size), 0;
      while i < bound
        invariant Shows(fs) && ok && 0 <= i
        invariant bound < 0 ==> pages == old(pages) && disk == old(disk)
        invariant DataOnDisk(fs, r, i)
      {
        if i < NBLOCKS {
          var x;
          ok, x := Slot(r, i, f, fs);
          if x != 0 {
            SlotStays(fs, r, i);
            FlushBlock(x);
          }
        }
        i := i + 1;
      }
      forall k | 0 <= k < NBLOCKS && SlotOf(fs, r, k) != 0 ensures k < Blocks(f.size) { SlotStays(fs, r, k); }
    }

    /** Flushing file r has left the pages and the disk alone, but for the block of its record and
        its indirect block. */
    ghost predicate LeavesAlone(pages0: seq<Page>, disk0: seq<Block>, r: Ref, indirect: nat)
      reads this
    {
      |pages| == |pages0| == |disk| == |disk0|
      && forall b | 0 <= b < |disk| && b != RecordBlock(r) && b != indirect ::
           pages[b] == pages0[b] && disk[b] == disk0[b]
    }

    /** file_flush.  It reads no free block.  The record and the indirect block always reach the
        disk; the data blocks do exactly when the bound on their numbers is not negative. */
    method FileFlush(r: Ref, root: File, ghost fs: Fs) returns (ok: bool)
      requires Shows(fs) && Live(fs, r) && root == fs.root
      modifies this`disk, this`pages
      ensures Shows(fs) && ok
      ensures OnDisk(RecordBlock(r)) && (FileAt(fs, r).indirect != 0 ==> OnDisk(FileAt(fs, r).indirect))
      ensures FileAt(fs, r).size <= FLUSH_MAX ==> DataOnDisk(fs, r, NBLOCKS)
      ensures FLUSH_MAX < FileAt(fs, r).size <= OFF_MAX ==>
                LeavesAlone(old(pages), old(disk), r, FileAt(fs, r).indirect)
    {
      hide Inv;
      var f;
      ok, f := Record(r, root, fs);
      ok := FlushData(r, f, fs);
      RecordInUse(fs, r);
      FlushBlock(RecordBlock(r));
      if f.indirect != 0 {
        TableUsedBy(fs, r);
        FlushBlock(f.indirect);
      }
    }

    /** fs_sync. */
    method FsSync()
      requires Valid()
      modifies this`disk, this`pages
      ensures Valid() && View() == old(View()) && |disk| == |old(disk)|
      ensures forall b | 1 <= b < |disk| :: disk[b] == View()[b]
    {
      ghost var v := View();
      var i := 1;
      while i < |disk|
        invariant Valid() && View() == v && 1 <= i && |disk| == |old(disk)|
        invariant forall b | 1 <= b < i && b < |disk| :: disk[b] == v[b]
      {
        FlushBlock(i);
        i := i + 1;
      }
    }
  }

  /** The super block, which holds the root directory's record. */
  const SUPER := 1

  /** The largest size whose blocks file_flush can count. */
  const FLUSH_MAX := OFF_MAX + 1 - BLKSIZE

  /** file_flush's bound on the block numbers of a file: the sum is a signed 32-bit integer, which
      wraps, and the division goes toward zero. */
  function FlushBound(size: nat): (n: int)
    ensures size <= FLUSH_MAX ==> n == Blocks(size)
    ensures FLUSH_MAX < size <= OFF_MAX ==> n < 0
  {
    var sum := (size + BLKSIZE - 1 + 0x8000_0000) % 0x1_0000_0000 - 0x8000_0000;
    if sum < 0 then -(-sum / BLKSIZE) else sum / BLKSIZE
  }

  function RecordBlock(r: Ref): nat {
    if r.Root? then SUPER else r.b
  }

  lemma RecordInUse(fs: Fs, r: Ref)
    requires Inv(fs) && Live(fs, r) && |fs.free| > SUPER
    ensures RecordBlock(r) < |fs.free| && !fs.free[RecordBlock(r)]
  {
  }

  lemma TableInUse(fs: Fs, r: Ref)
    requires Inv(fs) && Live(fs, r) && FileAt(fs, r).indirect != 0
    ensures FileAt(fs, r).indirect < |fs.free| && !fs.free[FileAt(fs, r).indirect]
  {
    TableUsedBy(fs, r);
  }

  /** A file's data blocks are not where its record is, nor its indirect block. */
  lemma DataApart(fs: Fs, r: Ref, i: nat)
    requires Inv(fs) && Live(fs, r) && i < NBLOCKS && SlotOf(fs, r, i) != 0 && |fs.free| > SUPER
    ensures SlotOf(fs, r, i) < |fs.free|
    ensures SlotOf(fs, r, i) != RecordBlock(r) && SlotOf(fs, r, i) != FileAt(fs, r).indirect
  {
    SlotStays(fs, r, i);
    TableUsedBy(fs, r);
  }

  /** At a size for which the bound wraps, a dirty block of the file is not on disk after
      file_flush either. */
  method FlushMisses(c: Cache, r: Ref, root: File, i: nat, ghost fs: Fs)
    requires c.Shows(fs) && Live(fs, r) && root == fs.root && i < NBLOCKS && SlotOf(fs, r, i) != 0
    requires FLUSH_MAX < FileAt(fs, r).size <= OFF_MAX && !c.OnDisk(SlotOf(fs, r, i))
    modifies c
    ensures c.Shows(fs) && !c.OnDisk(SlotOf(fs, r, i))
  {
    hide Inv;
    DataApart(fs, r, i);
    var ok := c.FileFlush(r, root, fs);
  }

  /** What the file system goes by: reserved blocks, and those that a record, a slot or an indirect
      block number leads to. */
  ghost predicate Reached(fs: Fs, b: nat)
    requires Shape(fs)
  {
    || (0 < b < |fs.free| && b < SysBlocks(|fs.free|))
    || (exists j :: Live(fs, Entry(b, j)))
    || (exists r, i: nat :: Live(fs, r) && i < NBLOCKS && b != 0 && SlotOf(fs, r, i) == b)
    || (exists r :: Live(fs, r) && b != 0 && FileAt(fs, r).indirect == b)
  }

  /** No block that the file system comes to is free, so that paging it in never panics. */
  lemma ReachedInUse(fs: Fs, b: nat)
    requires Inv(fs) && Reached(fs, b)
    ensures 0 < b < |fs.free| && !fs.free[b]
  {
    if r, i: nat :| Live(fs, r) && i < NBLOCKS && b != 0 && SlotOf(fs, r, i) == b { SlotStays(fs, r, i); }
    if r :| Live(fs, r) && b != 0 && FileAt(fs, r).indirect == b { TableInUse(fs, r); }
  }

  // ---------------------------------------------------------------- runs

  datatype Op = LoadOp(b: nat) | StoreOp(b: nat, x: Block) | FlushOp(b: nat) | EvictOp(b: nat) | SyncOp
              | MarkOp(b: nat, isFree: bool)

  /** A disk without a cache, and its bitmap. */
  datatype Bare = Bare(disk: seq<Block>, free: seq<bool>)

  /** What it would hold after the operation. */
  function Plain(d: Bare, op: Op): (d': Bare)
    ensures |d'.disk| == |d.disk| && |d'.free| == |d.free|
  {
    match op
    case StoreOp(b, x) => if b < |d.disk| then d.(disk := d.disk[b := x]) else d
    case MarkOp(b, isFree) => if b < |d.free| then d.(free := d.free[b := isFree]) else d
    case _ => d
  }

  function PlainAll(d: Bare, ops: seq<Op>): (d': Bare)
    ensures |d'.disk| == |d.disk| && |d'.free| == |d.free|
  {
    if ops == [] then d else Plain(PlainAll(d, ops[..|ops| - 1]), ops[|ops| - 1])
  }

  /** The operation reads or writes a block that is free. */
  predicate TouchesFree(d: Bare, op: Op) {
    (op.LoadOp? || op.StoreOp?) && op.b < |d.disk| && op.b < |d.free| && d.free[op.b]
  }

  /** Transparency over whole runs: whatever is loaded, stored, flushed, evicted and marked in
      whatever order, every load returns what a plain disk would hold at that point; and the run
      ends early, with a panic, only at a load or store of a block that is free then. */
  method RunAll(c: Cache, ops: seq<Op>) returns (n: nat, loads: seq<Block>)
    requires c.Valid()
    modifies c
    ensures n <= |ops| && c.Valid() && Bare(c.View(), c.free) == PlainAll(Bare(old(c.View()), old(c.free)), ops[..n])
    ensures |loads| == n && forall k | 0 <= k < n && ops[k].LoadOp? && ops[k].b < |old(c.disk)| ::
              loads[k] == PlainAll(Bare(old(c.View()), old(c.free)), ops[..k]).disk[ops[k].b]
    ensures n < |ops| ==> TouchesFree(PlainAll(Bare(old(c.View()), old(c.free)), ops[..n]), ops[n])
  {
    ghost var d := Bare(c.View(), c.free);
    loads, n := [], 0;
    while n < |ops|
      invariant n <= |ops| && c.Valid() && |c.disk| == |old(c.disk)| && Bare(c.View(), c.free) == PlainAll(d, ops[..n])
      invariant |loads| == n
      invariant forall i | 0 <= i < n && ops[i].LoadOp? && ops[i].b < |old(c.disk)| ::
                  loads[i] == PlainAll(d, ops[..i]).disk[ops[i].b]
    {
      assert ops[..n + 1][..n] == ops[..n];
      var ok, x := Perform(c, ops[n]);
      if !ok {
        return;
      }
      loads, n := loads + [x], n + 1;
    }
  }

  method Perform(c: Cache, op: Op) returns (ok: bool, x: Block)
    requires c.Valid()
    modifies c
    ensures c.Valid() && |c.disk| == |old(c.disk)|
    ensures Bare(c.View(), c.free) ==
            if ok then Plain(Bare(old(c.View()), old(c.free)), op) else Bare(old(c.View()), old(c.free))
    ensures !ok ==> TouchesFree(Bare(old(c.View()), old(c.free)), op)
    ensures op.LoadOp? && op.b < |c.disk| ==> x == old(c.View())[op.b]
  {
    ok, x := true, Data(Zeros());
    match op {
      case LoadOp(b) => if b < |c.disk| { ok, x := c.Load(b); }
      case StoreOp(b, y) => if b < |c.disk| { ok := c.Store(b, y); }
      case FlushOp(b) => if b < |c.disk| { c.FlushBlock(b); }
      case EvictOp(b) => if b < |c.disk| && !c.VaIsDirty(b) { c.Evict(b); }
      case SyncOp => c.FsSync();
      case MarkOp(b, isFree) => if b < |c.free| { c.free := c.free[b := isFree]; }
    }
  }
}
