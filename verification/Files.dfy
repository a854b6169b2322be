/** fs/fs.c: the block allocator, the block map of a file, and reading, writing and resizing. */
module Files {
  import opened Errors
  import opened FsSpec
  import opened FsLemmas
  import opened FsBytes

  /** The largest off_t. */
  const OFF_MAX := 0x7fff_ffff

  function Min(a: nat, b: nat): nat {
    if a < b then a else b
  }

  function Max(a: nat, b: nat): nat {
    if a < b then b else a
  }

  /** Block b is the first free one. */
  predicate FirstFree(free: seq<bool>, b: nat) {
    0 < b < |free| && free[b] && forall c | 0 < c < b :: !free[c]
  }

  predicate DiskFull(free: seq<bool>) {
    forall b | 0 < b < |free| :: !free[b]
  }

  lemma FirstFreeIsUnused(fs: Fs, b: nat)
    requires Inv(fs) && FirstFree(fs.free, b)
    ensures b < |fs.blocks| && fs.use[b] == Unused
  {
  }

  lemma NewDataStep(fs: Fs, r: Ref, i: nat, b: nat)
    requires Inv(fs) && Live(fs, r) && i < NBLOCKS && (i >= NDIRECT ==> HasTable(fs, r)) && b < |fs.blocks|
    requires fs.use[b] == Unused
    requires SlotOf(fs, r, i) == 0 && i < Blocks(FileAt(fs, r).size)
    ensures var fs' := NewData(fs, r, i, b);
            && Inv(fs') && Grown(fs, fs') && Live(fs', r) && SlotOf(fs', r, i) == b
            && b > 0 && Fits(FileAt(fs', r).ftype, fs'.blocks[b]) && FileAt(fs', r).indirect == FileAt(fs, r).indirect
  {
    NewDataInv(fs, r, i, b);
    NewDataAt(fs, r, i, b);
    NewDataGrown(fs, r, i, b);
  }

  /** The blocks of s that were free are no longer so; nothing else about the bitmap changed. */
  ghost predicate Takes(fs: Fs, fs': Fs, s: set<nat>) {
    |fs'.free| == |fs.free| && forall x | 0 <= x < |fs.free| :: fs'.free[x] <==> fs.free[x] && x !in s
  }

  lemma TakesTable(fs: Fs, fs': Fs, r: Ref, i: nat)
    requires Inv(fs) && Inv(fs') && Live(fs, r) && Live(fs', r) && i < NBLOCKS && SlotOf(fs', r, i) == SlotOf(fs, r, i)
    requires fs' == fs || Takes(fs, fs', {FileAt(fs', r).indirect})
    ensures Takes(fs, fs', {SlotOf(fs', r, i), FileAt(fs', r).indirect})
  {
  }

  lemma TakesBoth(fs: Fs, fs1: Fs, fs2: Fs, r: Ref, i: nat, b: nat)
    requires Shape(fs1) && Shape(fs2) && Live(fs1, r) && Live(fs2, r) && i < NBLOCKS && SlotOf(fs1, r, i) == 0
    requires Inv(fs) && Takes(fs, fs1, {0, FileAt(fs1, r).indirect}) && Takes(fs1, fs2, {b})
    requires SlotOf(fs2, r, i) == b && FileAt(fs2, r).indirect == FileAt(fs1, r).indirect
    ensures Takes(fs, fs2, {SlotOf(fs2, r, i), FileAt(fs2, r).indirect})
  {
    assert !fs.free[0];
  }

  class FileSystem {
    /** One flag per block: bit b % 32 of word b / 32 of the bitmap blocks. */
    var bitmap: seq<bool>
    var blocks: seq<Block>
    var root: File
    ghost var use: seq<Use>
    ghost var depth: seq<nat>

    constructor (bitmap: seq<bool>, blocks: seq<Block>, root: File, ghost use: seq<Use>, ghost depth: seq<nat>)
      ensures S() == Fs(bitmap, use, depth, blocks, root)
    {
      this.bitmap := bitmap;
      this.blocks := blocks;
      this.root := root;
      this.use := use;
      this.depth := depth;
    }

    ghost function S(): Fs
      reads this
    {
      Fs(bitmap, use, depth, blocks, root)
    }

    ghost predicate Valid()
      reads this
    {
      Inv(S())
    }

    // ---------------------------------------------------------------- the bitmap

    predicate BlockIsFree(b: nat)
      reads this
    {
      b < |bitmap| && bitmap[b]
    }

    method FreeBlock(b: nat)
      requires 0 < b < |bitmap|
      modifies this`bitmap
      ensures bitmap == old(bitmap)[b := true]
    {
      bitmap := bitmap[b := true];
    }

    method AllocBlock() returns (b: int)
      modifies this`bitmap
      ensures b == -E_NO_DISK || b > 0
      ensures b == -E_NO_DISK <==> DiskFull(old(bitmap))
      ensures b < 0 ==> bitmap == old(bitmap)
      ensures b > 0 ==> FirstFree(old(bitmap), b) && bitmap == old(bitmap)[b := false]
    {
      b := 1;
      while b < |bitmap|
        invariant 1 <= b && bitmap == old(bitmap)
        invariant forall c | 0 < c < b && c < |bitmap| :: !bitmap[c]
      {
        if BlockIsFree(b) {
          bitmap := bitmap[b := false];
          return;
        }
        b := b + 1;
      }
      b := -E_NO_DISK;
    }

    // ---------------------------------------------------------------- records and slots

    method GetFile(r: Ref) returns (f: File)
      requires Shape(S()) && Live(S(), r)
      ensures f == FileAt(S(), r)
    {
      match r {
        case Root => f := root;
        case Entry(b, j) => assert BlockOk(blocks[b]); f := blocks[b].files[j];
      }
    }

    method SetFile(r: Ref, f: File)
      requires Shape(S()) && Live(S(), r) && |f.direct| == NDIRECT
      modifies this`root, this`blocks
      ensures S() == PutFile(old(S()), r, f)
    {
      match r {
        case Root => root := f;
        case Entry(b, j) => assert BlockOk(blocks[b]); blocks := blocks[b := Dir(blocks[b].files[j := f])];
      }
    }

    method GetSlot(r: Ref, i: nat) returns (x: nat)
      requires Shape(S()) && Live(S(), r) && i < NBLOCKS && (i >= NDIRECT ==> HasTable(S(), r))
      ensures x == SlotOf(S(), r, i)
    {
      var f := GetFile(r);
      if i < NDIRECT {
        x := f.direct[i];
      } else {
        assert BlockOk(blocks[f.indirect]);
        x := blocks[f.indirect].ptrs[i - NDIRECT];
      }
    }

    method SetSlot(r: Ref, i: nat, x: nat)
      requires Shape(S()) && Live(S(), r) && i < NBLOCKS && (i >= NDIRECT ==> HasTable(S(), r))
      modifies this`root, this`blocks
      ensures S() == PutSlot(old(S()), r, i, x)
    {
      var f := GetFile(r);
      if i < NDIRECT {
        SetFile(r, f.(direct := f.direct[i := x]));
      } else {
        assert BlockOk(blocks[f.indirect]);
        blocks := blocks[f.indirect := Table(blocks[f.indirect].ptrs[i - NDIRECT := x])];
      }
    }

    // ---------------------------------------------------------------- the block map

    /** file_block_walk.  The slot it finds is slot i of the file. */
    method FileBlockWalk(r: Ref, i: nat, alloc: bool) returns (e: int)
      requires Shape(S()) && Names(S()) && Live(S(), r) && (alloc ==> Valid() && i < Blocks(FileAt(S(), r).size))
      modifies this
      ensures Shape(S()) && Live(S(), r) && (alloc ==> Valid()) && e in {0, -E_INVAL, -E_NOT_FOUND, -E_NO_DISK}
      ensures var none := NDIRECT <= i < NBLOCKS && old(FileAt(S(), r).indirect) == 0;
              && (e == -E_INVAL <==> i >= NBLOCKS)
              && (e == -E_NOT_FOUND <==> none && !alloc)
              && (e == -E_NO_DISK <==> none && alloc && DiskFull(old(bitmap)))
              && (!(none && e == 0) ==> S() == old(S()))
              && (none && e == 0 ==> Takes(old(S()), S(), {FileAt(S(), r).indirect}))
      ensures Grown(old(S()), S())
      ensures e == 0 ==>
                i < NBLOCKS && SlotOf(S(), r, i) == old(SlotOf(S(), r, i)) && (i >= NDIRECT ==> HasTable(S(), r))
    {
      if i >= NBLOCKS {
        return -E_INVAL;
      }
      if i < NDIRECT {
        return 0;
      }
      var f := GetFile(r);
      if f.indirect == 0 {
        if !alloc {
          return -E_NOT_FOUND;
        }
        e := AddTable(r, f);
        return;
      }
      e := 0;
    }

    method AddTable(r: Ref, f: File) returns (e: int)
      requires Valid() && Live(S(), r) && f == FileAt(S(), r) && f.indirect == 0 && NDIRECT <= Blocks(f.size)
      modifies this
      ensures Valid() && Live(S(), r) && (e == 0 || e == -E_NO_DISK)
      ensures e == -E_NO_DISK <==> DiskFull(old(bitmap))
      ensures e < 0 ==> S() == old(S())
      ensures e == 0 ==> HasTable(S(), r) && Takes(old(S()), S(), {FileAt(S(), r).indirect})
      ensures forall i | 0 <= i < NBLOCKS :: SlotOf(S(), r, i) == old(SlotOf(S(), r, i))
      ensures Grown(old(S()), S())
    {
      hide Grown;
      hide Names;
      hide Named;
      hide Below;
      ghost var fs := S();
      GrownNot(fs);
      var b := AllocBlock();
      if b < 0 {
        return b;
      }
      FirstFreeIsUnused(fs, b);
      NewTableInv(fs, r, b);
      NewTableAt(fs, r, b);
      NewTableGrown(fs, r, b);
      SetFile(r, f.(indirect := b));
      blocks := blocks[b := ZeroTable()];
      use, depth := use[b := TableOf(r)], depth[b := Under(fs, r)];
      assert S() == NewTable(fs, r, b);
      e := 0;
    }

    /** file_get_block: afterwards the file has its block i, unless the disk is full; nothing
        that any file contains has changed either way. */
    method FileGetBlock(r: Ref, i: nat) returns (e: int, b: nat)
      requires Valid() && Live(S(), r) && i < Blocks(FileAt(S(), r).size)
      modifies this
      ensures Valid() && Live(S(), r) && e in {0, -E_INVAL, -E_NO_DISK}
      ensures e == -E_INVAL <==> i >= NBLOCKS
      ensures i < NBLOCKS && old(SlotOf(S(), r, i)) != 0 ==> e == 0 && S() == old(S())
      ensures e == -E_NO_DISK ==> DiskFull(bitmap) && i < NBLOCKS && SlotOf(S(), r, i) == 0
      ensures e == 0 ==>
                i < NBLOCKS && b == SlotOf(S(), r, i) && 0 < b < |blocks| && Fits(FileAt(S(), r).ftype, blocks[b])
      ensures Grown(old(S()), S())
      ensures i < NBLOCKS ==> Takes(old(S()), S(), {SlotOf(S(), r, i), FileAt(S(), r).indirect})
    {
      b := 0;
      ghost var fs0 := S();
      e := FileBlockWalk(r, i, true);
      ghost var fs1 := S();
      if i < NBLOCKS { TakesTable(fs0, fs1, r, i); }
      if e < 0 {
        return;
      }
      b := GetSlot(r, i);
      if b == 0 {
        e, b := AddBlock(r, i);
        GrownTwice(fs0, fs1, S());
        if e == 0 { TakesBoth(fs0, fs1, S(), r, i, b); }
      }
    }

    method AddBlock(r: Ref, i: nat) returns (e: int, b: nat)
      requires Valid() && Live(S(), r) && i < NBLOCKS && i < Blocks(FileAt(S(), r).size)
      requires (i >= NDIRECT ==> HasTable(S(), r)) && SlotOf(S(), r, i) == 0
      modifies this
      ensures Valid() && Live(S(), r) && e in {0, -E_NO_DISK}
      ensures e == -E_NO_DISK <==> DiskFull(old(bitmap))
      ensures e < 0 ==> S() == old(S())
      ensures e == 0 ==> b == SlotOf(S(), r, i) && 0 < b < |blocks| && Fits(FileAt(S(), r).ftype, blocks[b])
      ensures e == 0 ==> Takes(old(S()), S(), {b}) && FileAt(S(), r).indirect == old(FileAt(S(), r).indirect)
      ensures Grown(old(S()), S())
    {
      hide Grown;
      hide Names;
      hide Named;
      hide Below;
      b := 0;
      ghost var fs := S();
      GrownNot(fs);
      var f := GetFile(r);
      var x := AllocBlock();
      if x < 0 {
        return x, 0;
      }
      FirstFreeIsUnused(fs, x);
      NewDataStep(fs, r, i, x);
      PlaceBlock(fs, r, i, x, f.ftype);
      return 0, x;
    }

    method PlaceBlock(ghost fs: Fs, r: Ref, i: nat, x: nat, ftype: Type)
      requires Shape(fs) && Live(fs, r) && i < NBLOCKS && (i >= NDIRECT ==> HasTable(fs, r)) && x < |fs.blocks|
      requires fs.use[x] == Unused && S() == fs.(free := fs.free[x := false]) && ftype == FileAt(fs, r).ftype
      modifies this
      ensures S() == NewData(fs, r, i, x)
    {
      SetSlot(r, i, x);
      blocks := blocks[x := ZeroBlock(ftype)];
      use, depth := use[x := DataOf(r, i)], depth[x := Under(fs, r)];
    }

    // ---------------------------------------------------------------- resizing

    /** file_free_block. */
    method FileFreeBlock(r: Ref, i: nat) returns (e: int)
      requires Shape(S()) && Names(S()) && Live(S(), r)
      modifies this
      ensures S() == if i < NBLOCKS && old(SlotOf(S(), r, i)) != 0 then Unmark(old(S()), r, i) else old(S())
      ensures e == -E_INVAL <==> i >= NBLOCKS
      ensures e == -E_NOT_FOUND <==> NDIRECT <= i < NBLOCKS && old(FileAt(S(), r).indirect) == 0
      ensures e in {0, -E_INVAL, -E_NOT_FOUND}
    {
      hide Grown;
      e := FileBlockWalk(r, i, false);
      if e < 0 {
        return;
      }
      var b := GetSlot(r, i);
      if b != 0 {
        FreeBlock(b);
        SetSlot(r, i, 0);
      }
    }

    /** file_truncate_blocks' loop: the file's blocks from `lo` on go back to the disk. */
    method FreeBlocksFrom(r: Ref, lo: nat)
      requires Shape(S()) && Valid() && Live(S(), r)
      modifies this
      ensures Cleared(old(S()), S(), r, lo, NBLOCKS, false, old(FileAt(S(), r).size)) && Shape(S()) && Live(S(), r)
    {
      hide Cleared;
      hide Inv;
      hide Names;
      ghost var fs := S();
      var f := GetFile(r);
      var hi := (f.size + BLKSIZE - 1) / BLKSIZE;
      ClearedNot(fs, r, lo);
      var i := lo;
      while i < hi
        invariant lo <= i && Cleared(fs, S(), r, lo, i, false, f.size)
      {
        ghost var fs1 := S();
        ClearedNames(fs, fs1, r, lo, i, f.size);
        if i < NBLOCKS && SlotOf(fs1, r, i) != 0 {
          ClearedMore(fs, fs1, r, lo, i, f.size);
        } else {
          ClearedSkip(fs, fs1, r, lo, i, f.size);
        }
        var e := FileFreeBlock(r, i);
        i := i + 1;
      }
      ClearedAll(fs, S(), r, lo, i, f.size);
      ClearedNames(fs, S(), r, lo, NBLOCKS, f.size);
    }

    /** file_truncate_blocks: the blocks that a file of the new size does not need are marked
        free and no longer named. */
    method FileTruncateBlocks(r: Ref, newsize: nat)
      requires Shape(S()) && Valid() && Live(S(), r)
      modifies this
      ensures Cleared(old(S()), S(), r, Blocks(newsize), NBLOCKS, Blocks(newsize) <= NDIRECT, old(FileAt(S(), r).size))
      ensures Shape(S()) && Live(S(), r)
    {
      hide Cleared;
      hide Inv;
      ghost var fs, size := S(), FileAt(S(), r).size;
      var n := (newsize + BLKSIZE - 1) / BLKSIZE;
      FreeBlocksFrom(r, n);
      var f := GetFile(r);
      if n <= NDIRECT && f.indirect != 0 {
        ClearedTable(fs, S(), r, n, size);
        FreeBlock(f.indirect);
        SetFile(r, f.(indirect := 0));
      } else if n <= NDIRECT {
        ClearedNoTable(fs, S(), r, n, size);
      }
      ClearedLive(fs, S(), r, n, n <= NDIRECT, size);
    }

    /** file_set_size.  When the file shrinks, the blocks beyond the new size, and the indirect
        block if it is not needed, go back to the disk.  Every block still has its owner
        afterwards exactly if no block given back holds a record that has blocks. */
    method FileSetSize(r: Ref, newsize: nat) returns (e: int)
      requires Shape(S()) && Valid() && Live(S(), r)
      modifies this
      ensures e == 0 && Sized(old(S()), S().(use := old(use)), r, newsize)
      ensures DropsBare(old(S()), r, Blocks(newsize)) ==>
                && Valid() && Shrunk(old(S()), S(), r, Blocks(newsize))
                && Shape(S()) && Live(S(), r) && FileAt(S(), r).size == newsize
      ensures !DropsBare(old(S()), r, Blocks(newsize)) ==> forall use, depth :: !Inv(S().(use := use, depth := depth))
      ensures old(FileAt(S(), r).ftype) == REG ==> Valid() && Resized(old(S()), S(), r, newsize)
    {
      hide Cleared;
      hide Inv;
      hide Resized;
      hide Shrunk;
      hide DropsBare;
      ghost var fs := S();
      var f := GetFile(r);
      if f.size > newsize {
        FileTruncateBlocks(r, newsize);
      } else {
        NothingToClear(fs, r, newsize);
      }
      ClearedSize(fs, S(), r, Blocks(newsize), NBLOCKS, TableGoes(f, newsize), f.size, newsize);
      f := GetFile(r);
      SetFile(r, f.(size := newsize));
      ghost var fs1 := S();
      if DropsBare(fs, r, Blocks(newsize)) {
        SizedKeeps(fs, fs1, r, newsize);
        use := Without(use, r, Blocks(newsize), NBLOCKS, TableGoes(FileAt(fs, r), newsize));
        assert S() == Forget(fs1, r, Blocks(newsize), TableGoes(FileAt(fs, r), newsize));
      } else {
        SizedLoses(fs, fs1, r, newsize);
      }
      assert S().(use := fs.use) == fs1;
      e := 0;
    }

    // ---------------------------------------------------------------- reading and writing

    /** One turn of file_read's loop. */
    method ReadChunk(r: Ref, pos: nat, most: nat) returns (e: int, chunk: seq<Byte>)
      requires Covers(S(), r, pos + most) && most > 0
      modifies this
      ensures Grown(old(S()), S()) && Covers(S(), r, pos + most) && e in {0, -E_INVAL, -E_NO_DISK}
      ensures e < 0 ==> Stops(e, S(), r, pos)
      ensures e == 0 ==> 0 < |chunk| <= most && Holds(old(S()), r, pos, chunk) && PresentTo(S(), r, pos, pos + |chunk|)
    {
      chunk := [];
      ghost var fs := S();
      InBlocks(pos, FileAt(S(), r).size);
      var b;
      e, b := FileGetBlock(r, pos / BLKSIZE);
      if e < 0 {
        return;
      }
      GrownKeeps(fs, S(), r);
      var bn := ChunkLength(pos, most);
      ChunkHolds(fs, S(), r, pos, bn);
      ChunkPresent(S(), r, pos, bn);
      chunk := blocks[b].bytes[pos % BLKSIZE..pos % BLKSIZE + bn];
    }

    /** file_read's loop, for a range inside the file. */
    method ReadAll(r: Ref, len: nat, offset: nat) returns (n: int, buf: seq<Byte>)
      requires Covers(S(), r, offset + len)
      modifies this
      ensures Grown(old(S()), S()) && Covers(S(), r, offset + len)
      ensures n >= 0 ==> n == |buf| == len && Holds(old(S()), r, offset, buf)
      ensures Outcome(n, S(), r, offset, offset + len)
    {
      hide Covers;
      hide Grown;
      hide Holds;
      hide PresentTo;
      hide Outcome;
      hide Stops;
      ghost var fs := S();
      ReadNothing(fs, r, offset, offset + len);
      buf := [];
      while |buf| < len
        invariant |buf| <= len && Grown(fs, S()) && Covers(S(), r, offset + len) && Holds(fs, r, offset, buf)
        invariant PresentTo(S(), r, offset, offset + |buf|)
      {
        ghost var fs1 := S();
        var e, chunk := ReadChunk(r, offset + |buf|, len - |buf|);
        GrownTwice(fs, fs1, S());
        GrownSlots(fs1, S(), r, offset, offset + |buf|);
        if e < 0 {
          StopsOutcome(e, fs1, S(), r, offset, offset + |buf|, offset + len);
          return e, [];
        }
        HoldsMore(fs, fs1, r, offset, buf, chunk);
        PresentMore(fs1, S(), r, offset, offset + |buf|, offset + |buf| + |chunk|);
        buf := buf + chunk;
      }
      n := len;
      AllOutcome(n, S(), r, offset, offset + len);
    }

    /** file_read on a regular file.  Holes on the way get blocks, which no one can tell from
        the outside; the disk may run out of them. */
    method FileRead(r: Ref, count: nat, offset: nat) returns (n: int, buf: seq<Byte>)
      requires Valid() && Live(S(), r) && FileAt(S(), r).ftype == REG
      modifies this
      ensures Valid() && Grown(old(S()), S())
      ensures n >= 0 ==>
                n == |buf| == ReadLength(old(FileAt(S(), r).size), count, offset) && Holds(old(S()), r, offset, buf)
      ensures Outcome(n, S(), r, offset, offset + ReadLength(old(FileAt(S(), r).size), count, offset))
      ensures offset >= old(FileAt(S(), r).size) ==> n == 0
      ensures PresentTo(old(S()), r, offset, offset + ReadLength(old(FileAt(S(), r).size), count, offset)) ==> n >= 0
    {
      hide Grown;
      ghost var fs := S();
      var f := GetFile(r);
      if offset >= f.size {
        GrownNot(S());
        return 0, [];
      }
      n, buf := ReadAll(r, Min(count, f.size - offset), offset);
      GrownStay(fs, S(), r);
      PresentSucceeds(n, fs, S(), r, offset, offset + Min(count, f.size - offset));
    }

    /** One turn of file_write's loop. */
    method WriteChunk(r: Ref, pos: nat, chunk: seq<Byte>) returns (e: int)
      requires Covers(S(), r, pos + |chunk|) && InOneBlock(pos, |chunk|)
      modifies this
      ensures Stored(old(S()), S(), r, pos, if e == 0 then chunk else []) && e <= 0
      ensures e < 0 ==> Stops(e, S(), r, pos)
      ensures e == 0 ==> PresentTo(S(), r, pos, pos + |chunk|)
    {
      ghost var fs := S();
      InBlocks(pos, FileAt(S(), r).size);
      var b;
      e, b := FileGetBlock(r, pos / BLKSIZE);
      ghost var fs1 := S();
      if e < 0 {
        GrownStored(fs, fs1, r, pos);
        return;
      }
      StoreChunk(fs, fs1, r, pos, chunk);
      hide Stored;
      hide PresentTo;
      blocks := blocks[b := Data(Patch(blocks[b].bytes, pos % BLKSIZE, chunk))];
    }

    /** file_write's loop, for a range inside the file. */
    method WriteAll(r: Ref, buf: seq<Byte>, offset: nat) returns (n: int, ghost done: nat)
      requires Covers(S(), r, offset + |buf|)
      modifies this
      ensures done <= |buf| && Stored(old(S()), S(), r, offset, buf[..done])
      ensures n >= 0 ==> n == |buf| == done
      ensures Outcome(n, S(), r, offset, offset + |buf|)
    {
      hide Covers;
      hide Stored;
      hide InOneBlock;
      hide PresentTo;
      hide Outcome;
      hide Stops;
      ghost var fs := S();
      StoredNothing(fs, r, offset, offset + |buf|);
      var k := 0;
      while k < |buf|
        invariant k <= |buf| && Stored(fs, S(), r, offset, buf[..k]) && PresentTo(S(), r, offset, offset + k)
      {
        var bn := ChunkLength(offset + k, |buf| - k);
        var chunk := buf[k..k + bn];
        ghost var fs1 := S();
        StoredCovers(fs, fs1, r, offset, buf[..k], offset + |buf|, offset + k + bn);
        n := WriteChunk(r, offset + k, chunk);
        StoredMore(fs, fs1, S(), r, offset, buf[..k], offset + k, if n == 0 then chunk else []);
        StoredStay(fs1, S(), r, offset + k, if n == 0 then chunk else []);
        if n < 0 {
          StopsOutcome(n, fs1, S(), r, offset, offset + k, offset + |buf|);
          assert buf[..k] + [] == buf[..k];
          return n, k;
        }
        assert buf[..k] + chunk == buf[..k + bn];
        PresentMore(fs1, S(), r, offset, offset + k, offset + k + bn);
        k := k + bn;
      }
      AllOutcome(|buf|, S(), r, offset, offset + |buf|);
      return |buf|, |buf|;
    }

    /** file_write on a regular file.  `done` bytes have been written; that is all of them
        unless the call fails. */
    method FileWrite(r: Ref, buf: seq<Byte>, offset: nat) returns (n: int, ghost done: nat)
      requires Shape(S()) && Valid() && Live(S(), r) && FileAt(S(), r).ftype == REG && offset + |buf| <= OFF_MAX
      modifies this
      ensures Shape(S()) && Valid() && Live(S(), r) && done <= |buf|
      ensures FileAt(S(), r).size == Max(old(FileAt(S(), r).size), offset + |buf|)
      ensures Wrote(old(S()), S(), r, offset, buf[..done])
      ensures n >= 0 ==> n == |buf| == done
      ensures Outcome(n, S(), r, offset, offset + |buf|)
      ensures PresentTo(old(S()), r, offset, offset + |buf|) ==> n >= 0
    {
      hide Outcome;
      hide PresentTo;
      hide Sized;
      hide DropsBare;
      hide Shrunk;
      hide Resized;
      hide Inv;
      hide Wrote;
      ghost var fs := S();
      var f := GetFile(r);
      if offset + |buf| > f.size {
        n := FileSetSize(r, offset + |buf|);
        GrowWrote(fs, S(), r, offset, offset + |buf|);
      } else {
        WroteNothing(fs, r, offset);
      }
      ghost var fs1 := S();
      WroteKeeps(fs, fs1, r, offset, []);
      n, done := WriteAll(r, buf, offset);
      StoredInv(fs1, S(), r, offset, buf[..done]);
      WroteThen(fs, fs1, S(), r, offset, buf[..done]);
      WroteStay(fs, S(), r, offset, buf[..done]);
      PresentSucceeds(n, fs, S(), r, offset, offset + |buf|);
    }
  }

  // ---------------------------------------------------------------- start-up

  const FS_MAGIC := 0x4A0530AE
  /** The number of blocks that fit the address range of the block cache. */
  const MAX_BLOCKS := 0xC000_0000 / BLKSIZE

  /** The invariant, but for what the bitmap says of the reserved blocks. */
  ghost predicate InvBeyond(fs: Fs) {
    && Shape(fs) && Names(fs) && Named(fs) && Below(fs) && Rooted(fs) && fs.root.ftype == DIR && |fs.free| > 0
    && forall b | 0 <= b < |fs.use| ::
         if b < SysBlocks(|fs.free|) then fs.use[b] == Reserved
         else fs.use[b] != Reserved && (fs.free[b] <==> fs.use[b] == Unused)
  }

  /** No reserved block is marked free. */
  predicate ReservedInUse(bitmap: seq<bool>) {
    forall b | 0 <= b < |bitmap| && b < SysBlocks(|bitmap|) :: !bitmap[b]
  }

  /** The bitmap blocks are those that the loop of check_bitmap looks at. */
  lemma LastBitmapBlock(n: nat, i: nat)
    requires n <= i * BLKBITSIZE && (i > 0 ==> (i - 1) * BLKBITSIZE < n)
    ensures SysBlocks(n) == 2 + i
  {
  }

  /** check_bitmap.  False is a failed assertion. */
  method CheckBitmap(bitmap: seq<bool>) returns (ok: bool)
    ensures ok <==> ReservedInUse(bitmap)
  {
    var n, i := |bitmap|, 0;
    while i * BLKBITSIZE < n
      invariant i > 0 ==> (i - 1) * BLKBITSIZE < n
      invariant forall b | 2 <= b < 2 + i && b < n :: !bitmap[b]
      decreases n - i
    {
      if 2 + i < n && bitmap[2 + i] {
        BitmapBlock(n, i);
        return false;
      }
      i := i + 1;
    }
    LastBitmapBlock(n, i);
    ok := !(n > 0 && bitmap[0]) && !(n > 1 && bitmap[1]);
  }

  lemma BitmapBlock(n: nat, i: nat)
    requires i * BLKBITSIZE < n
    ensures 2 + i < SysBlocks(n)
  {
  }

  /** fs_init with check_super and check_bitmap; false is a panic.  Given records and a bitmap
      that agree from the first block after the reserved ones on, the invariant holds of every
      disk that passes, and every such disk within the limits passes. */
  method FsInit(magic: nat, bitmap: seq<bool>, blocks: seq<Block>, root: File, ghost use: seq<Use>,
                ghost depth: seq<nat>)
    returns (ok: bool, fs: FileSystem?)
    ensures ok <==> magic == FS_MAGIC && |bitmap| <= MAX_BLOCKS && ReservedInUse(bitmap)
    ensures ok ==> fs != null && fresh(fs) && fs.S() == Fs(bitmap, use, depth, blocks, root)
    ensures ok ==> (fs.Valid() <==> InvBeyond(fs.S()))
    ensures Inv(Fs(bitmap, use, depth, blocks, root)) && magic == FS_MAGIC && |bitmap| <= MAX_BLOCKS ==> ok
  {
    fs, ok := null, false;
    if magic != FS_MAGIC || |bitmap| > MAX_BLOCKS {
      return;
    }
    ok := CheckBitmap(bitmap);
    if ok {
      fs := new FileSystem(bitmap, blocks, root, use, depth);
    }
  }

  // ---------------------------------------------------------------- resizing

  /** The indirect block is not needed for n bytes. */
  predicate TableGoes(f: File, n: nat) {
    n < f.size && Blocks(n) <= NDIRECT
  }

  /** file_set_size on the disk. */
  ghost predicate Sized(fs: Fs, fs': Fs, r: Ref, n: nat) {
    Shape(fs) && Live(fs, r) && Cleared(fs, fs', r, Blocks(n), NBLOCKS, TableGoes(FileAt(fs, r), n), n)
  }

  lemma ClearedLive(fs: Fs, fs': Fs, r: Ref, lo: nat, table: bool, size: nat)
    requires Cleared(fs, fs', r, lo, NBLOCKS, table, size)
    ensures Shape(fs') && Live(fs', r)
  {
  }

  lemma NothingToClear(fs: Fs, r: Ref, n: nat)
    requires Inv(fs) && Live(fs, r) && FileAt(fs, r).size <= n
    ensures Cleared(fs, fs, r, Blocks(n), NBLOCKS, false, FileAt(fs, r).size)
  {
    ClearedNot(fs, r, Blocks(n));
    ClearedAll(fs, fs, r, Blocks(n), Blocks(n), FileAt(fs, r).size);
  }

  /** The file has lost its blocks lo <= i < hi and kept the others. */
  ghost predicate Cut(fs: Fs, fs': Fs, r: Ref, lo: nat, hi: nat)
    requires Shape(fs) && Shape(fs') && Live(fs, r) && Live(fs', r)
  {
    forall i | 0 <= i < NBLOCKS ::
      && SlotOf(fs', r, i) == (if lo <= i < hi then 0 else SlotOf(fs, r, i))
      && BlockBytes(fs', r, i) == if lo <= i < hi then Zeros() else BlockBytes(fs, r, i)
  }

  /** file_set_size on a regular file as one step. */
  ghost predicate Resized(fs: Fs, fs': Fs, r: Ref, newsize: nat) {
    && Shape(fs) && Shape(fs') && Changed(fs, fs', r) && Live(fs, r) && Live(fs', r) && FileAt(fs', r).size == newsize
    && fs'.use == Without(fs.use, r, Blocks(newsize), NBLOCKS, TableGoes(FileAt(fs, r), newsize))
    && Cut(fs, fs', r, Blocks(newsize), NBLOCKS)
  }

  lemma NewSizeCovers(fs: Fs, r: Ref, n: nat)
    requires Inv(fs) && Live(fs, r)
    ensures Covered(FileAt(fs, r), Blocks(n), TableGoes(FileAt(fs, r), n), n)
  {
    if FileAt(fs, r).indirect != 0 { TableStays(fs, r); }
  }

  lemma SizedKeeps(fs: Fs, fs1: Fs, r: Ref, n: nat)
    requires Inv(fs) && Sized(fs, fs1, r, n) && DropsBare(fs, r, Blocks(n))
    ensures var fs' := Forget(fs1, r, Blocks(n), TableGoes(FileAt(fs, r), n));
            && Inv(fs') && Shrunk(fs, fs', r, Blocks(n)) && Shape(fs') && Live(fs', r) && FileAt(fs', r).size == n
            && (FileAt(fs, r).ftype == REG ==> Resized(fs, fs', r, n))
  {
    hide Inv;
    hide DropsBare;
    hide Shrunk;
    hide Changed;
    var table := TableGoes(FileAt(fs, r), n);
    NewSizeCovers(fs, r, n);
    ForgottenInv(fs, fs1, r, Blocks(n), table, n);
    ForgottenShrunk(fs, fs1, r, Blocks(n), table, n);
    ForgetAt(fs1, r, Blocks(n), table);
    if FileAt(fs, r).ftype == REG {
      ShrunkResized(fs, fs1, r, n);
    }
  }

  lemma ShrunkResized(fs: Fs, fs1: Fs, r: Ref, n: nat)
    requires Shape(fs) && Inv(fs) && Sized(fs, fs1, r, n) && FileAt(fs, r).ftype == REG
    requires Shrunk(fs, Forget(fs1, r, Blocks(n), TableGoes(FileAt(fs, r), n)), r, Blocks(n))
    ensures Resized(fs, Forget(fs1, r, Blocks(n), TableGoes(FileAt(fs, r), n)), r, n)
  {
    hide Inv;
    hide Changed;
    ShrunkChanged(fs, Forget(fs1, r, Blocks(n), TableGoes(FileAt(fs, r), n)), r, Blocks(n));
  }

  lemma SizedLoses(fs: Fs, fs1: Fs, r: Ref, n: nat)
    requires Inv(fs) && Sized(fs, fs1, r, n) && !DropsBare(fs, r, Blocks(n))
    ensures FileAt(fs, r).ftype != REG && forall use, depth :: !Inv(fs1.(use := use, depth := depth))
  {
    hide Inv;
    hide Cleared;
    if FileAt(fs, r).ftype == REG { RegularDropsBare(fs, r, Blocks(n)); }
    forall use, depth ensures !Inv(fs1.(use := use, depth := depth)) {
      LostOwner(fs, fs1, r, Blocks(n), TableGoes(FileAt(fs, r), n), n, fs1.(use := use, depth := depth));
    }
  }

  // ---------------------------------------------------------------- bytes in and out

  function ReadLength(size: nat, count: nat, offset: nat): nat {
    if offset >= size then 0 else Min(count, size - offset)
  }

  /** The file has the block that byte p lies in. */
  predicate HasBlock(fs: Fs, r: Ref, p: nat)
    requires Shape(fs) && Live(fs, r)
  {
    p / BLKSIZE < NBLOCKS && SlotOf(fs, r, p / BLKSIZE) != 0
  }

  ghost predicate PresentTo(fs: Fs, r: Ref, lo: nat, hi: nat) {
    Shape(fs) && Live(fs, r) && forall p | lo <= p < hi :: HasBlock(fs, r, p)
  }

  /** Why file_get_block fails for byte p: it lies beyond the largest file, or in a hole for which
      there is no block left. */
  predicate Stops(e: int, fs: Fs, r: Ref, p: nat) {
    && Shape(fs) && Live(fs, r)
    && (|| (e == -E_INVAL && p >= MAXFILESIZE)
        || (e == -E_NO_DISK && p < MAXFILESIZE && DiskFull(fs.free) && !HasBlock(fs, r, p)))
  }

  /** How file_read and file_write end that go through the bytes offset <= p < end: well exactly if
      they have their blocks by then; for want of a block only if one is missing and the disk is
      full; and at the largest file only if that is what they come to. */
  ghost predicate Outcome(n: int, fs: Fs, r: Ref, offset: nat, end: nat) {
    && Shape(fs) && Live(fs, r) && (n >= 0 || n == -E_INVAL || n == -E_NO_DISK)
    && (n >= 0 ==> PresentTo(fs, r, offset, end))
    && (n == -E_INVAL ==> offset < end && end > MAXFILESIZE && PresentTo(fs, r, offset, MAXFILESIZE))
    && (n == -E_NO_DISK ==>
          DiskFull(fs.free) && exists p :: offset <= p < end && p < MAXFILESIZE && !HasBlock(fs, r, p))
  }

  lemma StopsOutcome(e: int, fs: Fs, fs': Fs, r: Ref, offset: nat, pos: nat, end: nat)
    requires PresentTo(fs, r, offset, pos) && SlotsStay(fs, fs', r) && Stops(e, fs', r, pos) && offset <= pos < end
    ensures Outcome(e, fs', r, offset, end)
  {
    PresentStays(fs, fs', r, offset, pos);
  }

  lemma AllOutcome(n: int, fs: Fs, r: Ref, offset: nat, end: nat)
    requires PresentTo(fs, r, offset, end) && n >= 0
    ensures Outcome(n, fs, r, offset, end)
  {
  }

  /** The file keeps the blocks that it has. */
  ghost predicate SlotsStay(fs: Fs, fs': Fs, r: Ref) {
    && Shape(fs) && Shape(fs') && Live(fs, r) && Live(fs', r)
    && forall i | 0 <= i < NBLOCKS && SlotOf(fs, r, i) != 0 :: SlotOf(fs', r, i) == SlotOf(fs, r, i)
  }

  lemma GrownStay(fs: Fs, fs': Fs, r: Ref)
    requires Grown(fs, fs') && Live(fs, r)
    ensures SlotsStay(fs, fs', r)
  {
  }

  lemma GrownSlots(fs: Fs, fs': Fs, r: Ref, lo: nat, hi: nat)
    requires Grown(fs, fs') && PresentTo(fs, r, lo, hi)
    ensures SlotsStay(fs, fs', r)
  {
    GrownStay(fs, fs', r);
  }

  lemma PresentStays(fs: Fs, fs': Fs, r: Ref, lo: nat, hi: nat)
    requires SlotsStay(fs, fs', r) && PresentTo(fs, r, lo, hi)
    ensures PresentTo(fs', r, lo, hi)
  {
    forall p | lo <= p < hi ensures HasBlock(fs', r, p) { assert HasBlock(fs, r, p); }
  }

  lemma PresentMore(fs: Fs, fs': Fs, r: Ref, lo: nat, mid: nat, hi: nat)
    requires SlotsStay(fs, fs', r) && PresentTo(fs, r, lo, mid) && PresentTo(fs', r, mid, hi)
    ensures PresentTo(fs', r, lo, hi)
  {
    PresentStays(fs, fs', r, lo, mid);
  }

  lemma ChunkPresent(fs: Fs, r: Ref, pos: nat, bn: nat)
    requires Shape(fs) && Live(fs, r) && InOneBlock(pos, bn) && HasBlock(fs, r, pos)
    ensures PresentTo(fs, r, pos, pos + bn)
  {
    forall p | pos <= p < pos + bn ensures HasBlock(fs, r, p) { SameBlock(pos, p - pos); }
  }

  /** With all its blocks there to begin with, the call succeeds. */
  lemma PresentSucceeds(n: int, fs: Fs, fs': Fs, r: Ref, offset: nat, end: nat)
    requires Outcome(n, fs', r, offset, end) && SlotsStay(fs, fs', r) && offset <= end
    ensures PresentTo(fs, r, offset, end) ==> n >= 0
  {
    if PresentTo(fs, r, offset, end) {
      PresentStays(fs, fs', r, offset, end);
      if offset < end { assert HasBlock(fs', r, end - 1) && end <= MAXFILESIZE; }
    }
  }

  /** The file holds these bytes at this offset. */
  ghost predicate Holds(fs: Fs, r: Ref, offset: nat, buf: seq<Byte>) {
    && Shape(fs) && Live(fs, r) && (buf != [] ==> offset + |buf| <= MAXFILESIZE)
    && forall k | 0 <= k < |buf| :: buf[k] == ByteAt(fs, r, offset + k)
  }

  /** A regular file of at least `end` bytes. */
  ghost predicate Covers(fs: Fs, r: Ref, end: nat) {
    Inv(fs) && Live(fs, r) && FileAt(fs, r).ftype == REG && end <= FileAt(fs, r).size
  }

  lemma GrownNot(fs: Fs)
    requires Shape(fs)
    ensures Grown(fs, fs)
  {
  }

  lemma GrownKeeps(fs: Fs, fs': Fs, r: Ref)
    requires Grown(fs, fs') && Live(fs, r)
    ensures Live(fs', r) && SameMeta(FileAt(fs, r), FileAt(fs', r))
  {
  }

  lemma InBlocks(pos: nat, size: nat)
    requires pos < size
    ensures pos / BLKSIZE < Blocks(size)
  {
  }

  lemma SameBlock(pos: nat, k: nat)
    requires k < BLKSIZE - pos % BLKSIZE
    ensures (pos + k) / BLKSIZE == pos / BLKSIZE && (pos + k) % BLKSIZE == pos % BLKSIZE + k
  {
  }

  /** A block of a regular file holds bytes. */
  lemma SlotBytes(fs: Fs, r: Ref, i: nat)
    requires Inv(fs) && Live(fs, r) && FileAt(fs, r).ftype == REG && i < NBLOCKS && SlotOf(fs, r, i) != 0
    ensures var b := SlotOf(fs, r, i);
            && b < |fs.blocks| && fs.blocks[b].Data? && |fs.blocks[b].bytes| == BLKSIZE
            && fs.blocks[b].bytes == BlockBytes(fs, r, i)
  {
    assert Fits(REG, fs.blocks[SlotOf(fs, r, i)]);
  }

  lemma ChunkHolds(fs: Fs, fs': Fs, r: Ref, pos: nat, bn: nat)
    requires Grown(fs, fs') && Inv(fs') && Live(fs, r) && Live(fs', r) && FileAt(fs', r).ftype == REG
    requires pos / BLKSIZE < NBLOCKS && InOneBlock(pos, bn) && SlotOf(fs', r, pos / BLKSIZE) != 0
    ensures var b := SlotOf(fs', r, pos / BLKSIZE);
            && b < |fs'.blocks| && fs'.blocks[b].Data? && |fs'.blocks[b].bytes| == BLKSIZE
            && Holds(fs, r, pos, fs'.blocks[b].bytes[pos % BLKSIZE..pos % BLKSIZE + bn])
  {
    SlotBytes(fs', r, pos / BLKSIZE);
    assert BlockBytes(fs', r, pos / BLKSIZE) == BlockBytes(fs, r, pos / BLKSIZE);
    hide Inv;
    hide Grown;
    BlockHolds(fs, r, pos, bn);
  }

  lemma BlockHolds(fs: Fs, r: Ref, pos: nat, bn: nat)
    requires Shape(fs) && Live(fs, r) && pos / BLKSIZE < NBLOCKS && InOneBlock(pos, bn)
    ensures Holds(fs, r, pos, BlockBytes(fs, r, pos / BLKSIZE)[pos % BLKSIZE..pos % BLKSIZE + bn])
  {
    var chunk := BlockBytes(fs, r, pos / BLKSIZE)[pos % BLKSIZE..pos % BLKSIZE + bn];
    forall k | 0 <= k < |chunk| ensures pos + k < MAXFILESIZE && chunk[k] == ByteAt(fs, r, pos + k) {
      SameBlock(pos, k);
    }
  }

  predicate InOneBlock(pos: nat, n: nat) {
    0 < n <= BLKSIZE - pos % BLKSIZE
  }

  function ChunkLength(pos: nat, most: nat): (bn: nat)
    requires most > 0
    ensures InOneBlock(pos, bn) && 0 < bn <= most
  {
    Min(BLKSIZE - pos % BLKSIZE, most)
  }

  lemma ReadNothing(fs: Fs, r: Ref, offset: nat, end: nat)
    requires Covers(fs, r, end)
    ensures Grown(fs, fs) && Holds(fs, r, offset, []) && PresentTo(fs, r, offset, offset)
  {
  }

  lemma HoldsMore(fs: Fs, fs': Fs, r: Ref, offset: nat, buf: seq<Byte>, chunk: seq<Byte>)
    requires Grown(fs, fs') && Holds(fs, r, offset, buf) && Holds(fs', r, offset + |buf|, chunk)
    ensures Holds(fs, r, offset, buf + chunk)
  {
    var buf' := buf + chunk;
    forall k | 0 <= k < |buf'| ensures offset + k < MAXFILESIZE && buf'[k] == ByteAt(fs, r, offset + k) {
      if k >= |buf| {
        assert buf'[k] == ByteAt(fs', r, offset + |buf| + (k - |buf|));
      }
    }
  }

  /** buf replaces the bytes of s from o on. */
  function Patch(s: seq<Byte>, o: nat, buf: seq<Byte>): (t: seq<Byte>)
    requires o + |buf| <= |s|
    ensures |t| == |s| && forall k | 0 <= k < |s| :: t[k] == if o <= k < o + |buf| then buf[k - o] else s[k]
  {
    s[..o] + buf + s[o + |buf|..]
  }

  /** The bytes of the file after writing buf at an offset. */
  ghost predicate Overwritten(fs: Fs, fs': Fs, r: Ref, offset: nat, buf: seq<Byte>)
    requires Shape(fs) && Shape(fs') && Live(fs, r) && Live(fs', r)
  {
    forall p | 0 <= p < MAXFILESIZE ::
      ByteAt(fs', r, p) == if offset <= p < offset + |buf| then buf[p - offset] else ByteAt(fs, r, p)
  }

  /** Only those bytes of that file changed; apart from its size, if `Wrote`, nothing at all if `Stored`. */
  ghost predicate Wrote(fs: Fs, fs': Fs, r: Ref, offset: nat, buf: seq<Byte>) {
    && Changed(fs, fs', r) && Live(fs, r) && Live(fs', r) && FileAt(fs, r).ftype == REG
    && (buf != [] ==> offset + |buf| <= MAXFILESIZE) && Overwritten(fs, fs', r, offset, buf) && SlotsStay(fs, fs', r)
  }

  lemma WroteStay(fs: Fs, fs': Fs, r: Ref, offset: nat, buf: seq<Byte>)
    requires Wrote(fs, fs', r, offset, buf)
    ensures SlotsStay(fs, fs', r)
  {
  }

  lemma StoredStay(fs: Fs, fs': Fs, r: Ref, offset: nat, buf: seq<Byte>)
    requires Stored(fs, fs', r, offset, buf)
    ensures SlotsStay(fs, fs', r)
  {
  }

  ghost predicate Stored(fs: Fs, fs': Fs, r: Ref, offset: nat, buf: seq<Byte>) {
    Inv(fs') && Wrote(fs, fs', r, offset, buf) && FileAt(fs', r).size == FileAt(fs, r).size
  }

  lemma GrownStored(fs: Fs, fs': Fs, r: Ref, pos: nat)
    requires Grown(fs, fs') && Inv(fs') && Live(fs, r) && FileAt(fs, r).ftype == REG
    ensures Stored(fs, fs', r, pos, [])
  {
    GrownChanged(fs, fs', r);
  }

  lemma StoreChunk(fs: Fs, fs1: Fs, r: Ref, pos: nat, chunk: seq<Byte>)
    requires Grown(fs, fs1) && Inv(fs1) && Live(fs, r) && Live(fs1, r) && FileAt(fs, r).ftype == REG
    requires pos / BLKSIZE < NBLOCKS && SlotOf(fs1, r, pos / BLKSIZE) != 0 && InOneBlock(pos, |chunk|)
    ensures var b := SlotOf(fs1, r, pos / BLKSIZE);
            && b < |fs1.blocks| && fs1.blocks[b].Data? && |fs1.blocks[b].bytes| == BLKSIZE
            && var fs' := fs1.(blocks := fs1.blocks[b := Data(Patch(fs1.blocks[b].bytes, pos % BLKSIZE, chunk))]);
               Stored(fs, fs', r, pos, chunk) && PresentTo(fs', r, pos, pos + |chunk|)
  {
    var i := pos / BLKSIZE;
    SlotBytes(fs1, r, i);
    var t := Patch(BlockBytes(fs1, r, i), pos % BLKSIZE, chunk);
    PutBytesInv(fs1, r, i, t);
    PutBytesChanged(fs1, r, i, t);
    var fs' := PutBytes(fs1, r, i, t);
    GrownChanged(fs, fs1, r);
    ChangedTwice(fs, fs1, fs', r);
    SameBlock(pos, |chunk| - 1);
    assert Patched(fs, fs', r, pos, chunk);
    assert HasBlock(fs', r, pos) && SlotsStay(fs, fs', r);
    ChunkPresent(fs', r, pos, |chunk|);
    hide Inv;
    hide Grown;
    hide Changed;
    PatchedOverwritten(fs, fs', r, pos, chunk);
  }

  /** One block of the file has been patched. */
  ghost predicate Patched(fs: Fs, fs': Fs, r: Ref, pos: nat, chunk: seq<Byte>)
    requires Shape(fs) && Shape(fs') && Live(fs, r) && Live(fs', r)
    requires pos / BLKSIZE < NBLOCKS && |chunk| <= BLKSIZE - pos % BLKSIZE
  {
    forall i | 0 <= i < NBLOCKS :: BlockBytes(fs', r, i) ==
      if i == pos / BLKSIZE then Patch(BlockBytes(fs, r, i), pos % BLKSIZE, chunk) else BlockBytes(fs, r, i)
  }

  lemma PatchedOverwritten(fs: Fs, fs': Fs, r: Ref, pos: nat, chunk: seq<Byte>)
    requires Shape(fs) && Shape(fs') && Live(fs, r) && Live(fs', r)
    requires pos / BLKSIZE < NBLOCKS && |chunk| <= BLKSIZE - pos % BLKSIZE && Patched(fs, fs', r, pos, chunk)
    ensures Overwritten(fs, fs', r, pos, chunk)
  {
    hide BlockBytes;
    hide Shape;
    hide Live;
    forall p | 0 <= p < MAXFILESIZE
      ensures ByteAt(fs', r, p) == if pos <= p < pos + |chunk| then chunk[p - pos] else ByteAt(fs, r, p) {
      InChunkIff(pos, |chunk|, p);
    }
  }

  lemma InChunkIff(pos: nat, n: nat, p: nat)
    requires n <= BLKSIZE - pos % BLKSIZE
    ensures pos <= p < pos + n <==> p / BLKSIZE == pos / BLKSIZE && pos % BLKSIZE <= p % BLKSIZE < pos % BLKSIZE + n
    ensures pos <= p < pos + n ==> p % BLKSIZE - pos % BLKSIZE == p - pos
  {
    if pos <= p < pos + n { SameBlock(pos, p - pos); }
  }

  lemma WroteNothing(fs: Fs, r: Ref, offset: nat)
    requires Shape(fs) && Live(fs, r) && FileAt(fs, r).ftype == REG
    ensures Wrote(fs, fs, r, offset, [])
  {
  }

  /** A file that only grows keeps all its bytes. */
  lemma GrowWrote(fs: Fs, fs': Fs, r: Ref, offset: nat, n: nat)
    requires Shape(fs) && Inv(fs) && Live(fs, r) && Resized(fs, fs', r, n) && n >= FileAt(fs, r).size
    requires FileAt(fs, r).ftype == REG
    ensures Wrote(fs, fs', r, offset, []) && FileAt(fs', r).size == n
  {
    assert forall i | 0 <= i < NBLOCKS && i >= Blocks(n) :: SlotOf(fs, r, i) == 0;
  }

  lemma WroteKeeps(fs: Fs, fs': Fs, r: Ref, offset: nat, buf: seq<Byte>)
    requires Wrote(fs, fs', r, offset, buf)
    ensures Shape(fs') && Live(fs', r) && FileAt(fs', r).ftype == REG
  {
  }

  lemma StoredNothing(fs: Fs, r: Ref, offset: nat, end: nat)
    requires Covers(fs, r, end)
    ensures Stored(fs, fs, r, offset, []) && PresentTo(fs, r, offset, offset)
  {
  }

  lemma StoredInv(fs: Fs, fs': Fs, r: Ref, offset: nat, buf: seq<Byte>)
    requires Stored(fs, fs', r, offset, buf)
    ensures Shape(fs') && Inv(fs') && Live(fs', r)
  {
  }

  lemma StoredCovers(fs: Fs, fs': Fs, r: Ref, offset: nat, buf: seq<Byte>, end: nat, end': nat)
    requires Covers(fs, r, end) && Stored(fs, fs', r, offset, buf) && end' <= end
    ensures Covers(fs', r, end')
  {
  }

  lemma StoredMore(fs: Fs, fs1: Fs, fs2: Fs, r: Ref, offset: nat, buf: seq<Byte>, pos: nat, chunk: seq<Byte>)
    requires Stored(fs, fs1, r, offset, buf) && Stored(fs1, fs2, r, pos, chunk) && pos == offset + |buf|
    ensures Stored(fs, fs2, r, offset, buf + chunk)
  {
    hide ByteAt;
    hide Inv;
    hide Changed;
    ChangedTwice(fs, fs1, fs2, r);
  }

  lemma WroteThen(fs: Fs, fs1: Fs, fs2: Fs, r: Ref, offset: nat, buf: seq<Byte>)
    requires Wrote(fs, fs1, r, offset, []) && Stored(fs1, fs2, r, offset, buf)
    ensures Wrote(fs, fs2, r, offset, buf) && FileAt(fs2, r).size == FileAt(fs1, r).size
  {
    ChangedTwice(fs, fs1, fs2, r);
  }
}
