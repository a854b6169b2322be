/** What the files contain, and which steps leave that alone. */
module FsBytes {
  import opened FsSpec
  import opened FsLemmas

  function Zeros(): (s: seq<Byte>)
    ensures |s| == BLKSIZE && forall k | 0 <= k < BLKSIZE :: s[k] == 0
  {
    seq(BLKSIZE, _ => 0)
  }

  /** The contents of block i of the file; a missing block is a hole of zeros. */
  function BlockBytes(fs: Fs, r: Ref, i: nat): (s: seq<Byte>)
    requires Shape(fs) && Live(fs, r) && i < NBLOCKS
    ensures |s| == BLKSIZE
  {
    var b := SlotOf(fs, r, i);
    if 0 < b < |fs.blocks| && fs.blocks[b].Data? then
      assert BlockOk(fs.blocks[b]);
      fs.blocks[b].bytes
    else Zeros()
  }

  function ByteAt(fs: Fs, r: Ref, p: nat): Byte
    requires Shape(fs) && Live(fs, r) && p < MAXFILESIZE
  {
    BlockBytes(fs, r, p / BLKSIZE)[p % BLKSIZE]
  }

  /** A directory block without names. */
  ghost predicate Nameless(fs: Fs, b: nat)
    requires Shape(fs)
  {
    forall j | 0 <= j < BLKFILES :: Live(fs, Entry(b, j)) && FileAt(fs, Entry(b, j)).name == ""
  }

  /** Files may have got blocks of zeros where they had none; nothing else changed. */
  ghost predicate Grown(fs: Fs, fs': Fs) {
    && Shape(fs) && Shape(fs') && |fs'.blocks| == |fs.blocks|
    && (forall r | Live(fs, r) :: Live(fs', r) && SameMeta(FileAt(fs, r), FileAt(fs', r)))
    && (forall r | Live(fs', r) && !Live(fs, r) :: SameMeta(NoFile(), FileAt(fs', r)))
    && (forall r, i | Live(fs, r) && 0 <= i < NBLOCKS :: BlockBytes(fs', r, i) == BlockBytes(fs, r, i))
    && (forall r, i | Live(fs, r) && 0 <= i < NBLOCKS && SlotOf(fs, r, i) != 0 :: SlotOf(fs', r, i) == SlotOf(fs, r, i))
    && (forall r, i | Live(fs, r) && FileAt(fs, r).ftype == DIR && 0 <= i < NBLOCKS
                      && SlotOf(fs, r, i) == 0 && SlotOf(fs', r, i) != 0 ::
          Nameless(fs', SlotOf(fs', r, i)))
  }

  lemma GrownTwice(a: Fs, b: Fs, c: Fs)
    requires Grown(a, b) && Grown(b, c)
    ensures Grown(a, c)
  {
    forall r, i | Live(a, r) && FileAt(a, r).ftype == DIR && 0 <= i < NBLOCKS
                  && SlotOf(a, r, i) == 0 && SlotOf(c, r, i) != 0
      ensures Nameless(c, SlotOf(c, r, i)) {
      if SlotOf(b, r, i) != 0 {
        assert Nameless(b, SlotOf(b, r, i));
      }
    }
  }

  lemma NewDataBytes(fs: Fs, r: Ref, i: nat, b: nat, r': Ref, i': nat)
    requires Shape(fs) && Inv(fs) && Live(fs, r) && i < NBLOCKS && (i >= NDIRECT ==> HasTable(fs, r)) && b < |fs.blocks|
    requires fs.use[b] == Unused
    requires SlotOf(fs, r, i) == 0 && Live(fs, r') && i' < NBLOCKS
    ensures Shape(NewData(fs, r, i, b)) && Live(NewData(fs, r, i, b), r')
    ensures BlockBytes(NewData(fs, r, i, b), r', i') == BlockBytes(fs, r', i')
  {
    hide Inv;
    NewDataAt(fs, r, i, b);
    var x := SlotOf(fs, r', i');
    if x != 0 { SlotStays(fs, r', i'); }
  }

  lemma NewDataGrown(fs: Fs, r: Ref, i: nat, b: nat)
    requires Shape(fs) && Inv(fs) && Live(fs, r) && i < NBLOCKS && (i >= NDIRECT ==> HasTable(fs, r)) && b < |fs.blocks|
    requires fs.use[b] == Unused
    requires SlotOf(fs, r, i) == 0
    ensures Grown(fs, NewData(fs, r, i, b))
  {
    hide Inv;
    var fs' := NewData(fs, r, i, b);
    NewDataAt(fs, r, i, b);
    forall r', i' | Live(fs, r') && 0 <= i' < NBLOCKS ensures BlockBytes(fs', r', i') == BlockBytes(fs, r', i') {
      NewDataBytes(fs, r, i, b, r', i');
    }
    if FileAt(fs, r).ftype == DIR {
      forall j | 0 <= j < BLKFILES ensures Live(fs', Entry(b, j)) && FileAt(fs', Entry(b, j)).name == "" {
        assert IsNewEntry(DIR, b, Entry(b, j));
      }
      assert Nameless(fs', b);
    }
  }

  lemma NewTableGrown(fs: Fs, r: Ref, b: nat)
    requires Inv(fs) && Live(fs, r) && FileAt(fs, r).indirect == 0 && b < |fs.blocks| && fs.use[b] == Unused
    ensures Grown(fs, NewTable(fs, r, b))
  {
    hide NewTable;
    hide Named;
    NewTableAt(fs, r, b);
  }

  // ---------------------------------------------------------------- stores

  /** The bytes of block i are replaced. */
  function PutBytes(fs: Fs, r: Ref, i: nat, s: seq<Byte>): Fs
    requires Shape(fs) && Live(fs, r) && i < NBLOCKS && SlotOf(fs, r, i) < |fs.blocks|
  {
    fs.(blocks := fs.blocks[SlotOf(fs, r, i) := Data(s)])
  }

  /** A store to a file changes one block of one file: no record, no slot, no other bytes. */
  lemma PutBytesInv(fs: Fs, r: Ref, i: nat, s: seq<Byte>)
    requires Inv(fs) && Live(fs, r) && FileAt(fs, r).ftype == REG && i < NBLOCKS && SlotOf(fs, r, i) != 0
    requires |s| == BLKSIZE
    ensures SlotOf(fs, r, i) < |fs.blocks| && Inv(PutBytes(fs, r, i, s))
    ensures var fs' := PutBytes(fs, r, i, s);
            && (forall r' :: Live(fs', r') <==> Live(fs, r'))
            && (forall r' | Live(fs, r') :: FileAt(fs', r') == FileAt(fs, r'))
            && (forall r', i' | Live(fs, r') && 0 <= i' < NBLOCKS :: SlotOf(fs', r', i') == SlotOf(fs, r', i'))
            && (forall r', i' | Live(fs, r') && 0 <= i' < NBLOCKS ::
                  BlockBytes(fs', r', i') == if r' == r && i' == i then s else BlockBytes(fs, r', i'))
  {
    PutBytesAt(fs, r, i, s);
  }

  lemma PutBytesAt(fs: Fs, r: Ref, i: nat, s: seq<Byte>)
    requires Inv(fs) && Live(fs, r) && FileAt(fs, r).ftype == REG && i < NBLOCKS && SlotOf(fs, r, i) != 0
    requires |s| == BLKSIZE
    ensures SlotOf(fs, r, i) < |fs.blocks|
    ensures var fs' := PutBytes(fs, r, i, s);
            && Shape(fs') && (forall r' :: Live(fs', r') <==> Live(fs, r'))
            && (forall r' | Live(fs, r') :: FileAt(fs', r') == FileAt(fs, r') && HasTable(fs', r') == HasTable(fs, r'))
            && (forall r', i' | Live(fs, r') && 0 <= i' < NBLOCKS :: SlotOf(fs', r', i') == SlotOf(fs, r', i'))
  {
  }

  // ---------------------------------------------------------------- changes to one file

  /** At most the size, bytes and blocks of the regular file r changed; the other files may
      have got blocks of zeros. */
  ghost predicate Changed(fs: Fs, fs': Fs, r: Ref) {
    && Shape(fs) && Shape(fs') && |fs'.blocks| == |fs.blocks| && Live(fs, r)
    && (forall r' | Live(fs, r') ::
          Live(fs', r') && FileAt(fs', r').name == FileAt(fs, r').name && FileAt(fs', r').ftype == FileAt(fs, r').ftype)
    && (forall r' | Live(fs, r') && r' != r :: FileAt(fs', r').size == FileAt(fs, r').size)
    && (forall r' | Live(fs', r') && !Live(fs, r') :: SameMeta(NoFile(), FileAt(fs', r')))
    && (forall r', i | Live(fs, r') && r' != r && 0 <= i < NBLOCKS :: BlockBytes(fs', r', i) == BlockBytes(fs, r', i))
    && (forall r', i | Live(fs, r') && r' != r && 0 <= i < NBLOCKS && SlotOf(fs, r', i) != 0 ::
          SlotOf(fs', r', i) == SlotOf(fs, r', i))
    && (forall r', i | Live(fs, r') && r' != r && FileAt(fs, r').ftype == DIR && 0 <= i < NBLOCKS
                       && SlotOf(fs, r', i) == 0 && SlotOf(fs', r', i) != 0 ::
          Nameless(fs', SlotOf(fs', r', i)))
  }

  lemma GrownChanged(fs: Fs, fs': Fs, r: Ref)
    requires Grown(fs, fs') && Live(fs, r)
    ensures Changed(fs, fs', r)
  {
  }

  lemma ChangedTwice(a: Fs, b: Fs, c: Fs, r: Ref)
    requires Changed(a, b, r) && Changed(b, c, r)
    ensures Changed(a, c, r)
  {
    forall r', i | Live(a, r') && r' != r && FileAt(a, r').ftype == DIR && 0 <= i < NBLOCKS
                   && SlotOf(a, r', i) == 0 && SlotOf(c, r', i) != 0
      ensures Nameless(c, SlotOf(c, r', i)) {
      if SlotOf(b, r', i) != 0 {
        assert Nameless(b, SlotOf(b, r', i));
      }
    }
  }

  lemma PutBytesChanged(fs: Fs, r: Ref, i: nat, s: seq<Byte>)
    requires Inv(fs) && Live(fs, r) && FileAt(fs, r).ftype == REG && i < NBLOCKS && SlotOf(fs, r, i) != 0
    requires |s| == BLKSIZE
    ensures SlotOf(fs, r, i) < |fs.blocks| && Changed(fs, PutBytes(fs, r, i, s), r)
  {
    PutBytesInv(fs, r, i, s);
  }

  /** A new size that still covers every block the file has. */
  lemma ResizeInv(fs: Fs, r: Ref, n: nat)
    requires Shape(fs) && Inv(fs) && Live(fs, r)
    requires forall i | 0 <= i < NBLOCKS && SlotOf(fs, r, i) != 0 :: i < Blocks(n)
    requires FileAt(fs, r).indirect != 0 ==> NDIRECT <= Blocks(n)
    ensures var fs' := PutFile(fs, r, FileAt(fs, r).(size := n));
            && Inv(fs') && Live(fs', r) && FileAt(fs', r) == FileAt(fs, r).(size := n)
            && (forall r', i | Live(fs, r') && 0 <= i < NBLOCKS :: SlotOf(fs', r', i) == SlotOf(fs, r', i))
  {
    hide Inv;
    var f := FileAt(fs, r).(size := n);
    PutFileAt(fs, r, f);
    PutFileSlots(fs, r, f);
    SameSlotsInv(fs, PutFile(fs, r, f));
  }

  /** The file's size covers its blocks. */
  ghost predicate SizeCovers(fs: Fs, r: Ref)
    requires Shape(fs) && Live(fs, r)
  {
    && (forall i | 0 <= i < NBLOCKS && SlotOf(fs, r, i) != 0 :: i < Blocks(FileAt(fs, r).size))
    && (FileAt(fs, r).indirect != 0 ==> NDIRECT <= Blocks(FileAt(fs, r).size))
  }

  /** A step that changes names and sizes only, and leaves every file its blocks. */
  lemma SameSlotsInv(fs: Fs, fs': Fs)
    requires Inv(fs) && Shape(fs') && fs'.use == fs.use && fs'.depth == fs.depth && fs'.free == fs.free
    requires forall r :: Live(fs', r) <==> Live(fs, r)
    requires forall r | Live(fs, r) ::
               FileAt(fs', r).ftype == FileAt(fs, r).ftype && FileAt(fs', r).indirect == FileAt(fs, r).indirect
    requires forall r, i | Live(fs, r) && 0 <= i < NBLOCKS :: SlotOf(fs', r, i) == SlotOf(fs, r, i)
    requires forall b | 0 <= b < |fs.blocks| :: SameKind(fs'.blocks[b], fs.blocks[b])
    requires forall r | Live(fs, r) :: FileAt(fs', r).size == FileAt(fs, r).size || SizeCovers(fs', r)
    ensures Inv(fs')
  {
    assert FileAt(fs, Root).ftype == FileAt(fs', Root).ftype == DIR;
  }

  // ---------------------------------------------------------------- blocks given back

  /** The file has lost its blocks from lo on, and with them the records in them; every other
      record, slot and byte is as before. */
  ghost predicate Shrunk(fs: Fs, fs': Fs, r: Ref, lo: nat) {
    && Shape(fs) && Shape(fs') && |fs'.blocks| == |fs.blocks| && Live(fs, r) && Live(fs', r)
    && (forall q :: Live(fs', q) <==> Live(fs, q) && !Dropped(fs, r, lo, q))
    && (forall q | Live(fs', q) && q != r :: FileAt(fs', q) == FileAt(fs, q))
    && FileAt(fs', r).name == FileAt(fs, r).name && FileAt(fs', r).ftype == FileAt(fs, r).ftype
    && (forall q, i | Live(fs', q) && 0 <= i < NBLOCKS ::
          SlotOf(fs', q, i) == if q == r && lo <= i then 0 else SlotOf(fs, q, i))
    && (forall q, i | Live(fs', q) && 0 <= i < NBLOCKS ::
          BlockBytes(fs', q, i) == if q == r && lo <= i then Zeros() else BlockBytes(fs, q, i))
  }

  lemma ForgottenShrunk(fs: Fs, fs1: Fs, r: Ref, lo: nat, table: bool, size: nat)
    requires Cleared(fs, fs1, r, lo, NBLOCKS, table, size) && Shape(Forget(fs1, r, lo, table))
    requires Live(Forget(fs1, r, lo, table), r)
    ensures Shrunk(fs, Forget(fs1, r, lo, table), r, lo)
  {
    ForgetAt(fs1, r, lo, table);
    var fs' := Forget(fs1, r, lo, table);
    forall q, i | Live(fs', q) && 0 <= i < NBLOCKS
      ensures BlockBytes(fs', q, i) == if q == r && lo <= i then Zeros() else BlockBytes(fs, q, i) {
      ForgottenBytes(fs, fs1, r, lo, table, size, q, i);
    }
  }

  lemma ForgottenBytes(fs: Fs, fs1: Fs, r: Ref, lo: nat, table: bool, size: nat, q: Ref, i: nat)
    requires Cleared(fs, fs1, r, lo, NBLOCKS, table, size) && Shape(Forget(fs1, r, lo, table))
    requires Live(Forget(fs1, r, lo, table), q)
    requires Live(fs, q) && i < NBLOCKS
    ensures BlockBytes(Forget(fs1, r, lo, table), q, i) == if q == r && lo <= i then Zeros() else BlockBytes(fs, q, i)
  {
    var fs' := Forget(fs1, r, lo, table);
    ForgetAt(fs1, r, lo, table);
    var x := SlotOf(fs', q, i);
    if 0 < x < |fs.blocks| { assert SameKind(fs1.blocks[x], fs.blocks[x]); }
  }

  /** A regular file holds no records to lose. */
  lemma ShrunkChanged(fs: Fs, fs': Fs, r: Ref, lo: nat)
    requires Inv(fs) && Shrunk(fs, fs', r, lo) && FileAt(fs, r).ftype == REG
    ensures Changed(fs, fs', r)
  {
    forall q | Live(fs, q) ensures !Dropped(fs, r, lo, q) {
      if Dropped(fs, r, lo, q) {
        SlotStays(fs, r, fs.use[q.b].i);
      }
    }
  }

  lemma RegularDropsBare(fs: Fs, r: Ref, lo: nat)
    requires Inv(fs) && Live(fs, r) && FileAt(fs, r).ftype == REG
    ensures DropsBare(fs, r, lo)
  {
    forall i | lo <= i < NBLOCKS && 0 < SlotOf(fs, r, i) < |fs.blocks| ensures Bare(fs.blocks[SlotOf(fs, r, i)]) {
      SlotStays(fs, r, i);
    }
  }
}
