/** What each step of the file-system code does to files, slots and block ownership. */
module FsLemmas {
  import opened FsSpec

  lemma PutFileAt(fs: Fs, r: Ref, f: File)
    requires Shape(fs) && Live(fs, r) && |f.direct| == NDIRECT
    ensures Shape(PutFile(fs, r, f))
    ensures forall r' :: Live(PutFile(fs, r, f), r') <==> Live(fs, r')
    ensures forall r' | Live(fs, r') :: FileAt(PutFile(fs, r, f), r') == if r' == r then f else FileAt(fs, r')
    ensures forall b | 0 <= b < |fs.blocks| && !fs.blocks[b].Dir? :: PutFile(fs, r, f).blocks[b] == fs.blocks[b]
    ensures forall b | 0 <= b < |fs.blocks| :: PutFile(fs, r, f).blocks[b].Dir? <==> fs.blocks[b].Dir?
  {
    assert r.Entry? ==> BlockOk(fs.blocks[r.b]);
  }

  /** A record changed in its name or size only keeps every slot of every file. */
  lemma PutFileSlots(fs: Fs, r: Ref, f: File)
    requires Shape(fs) && Live(fs, r) && |f.direct| == NDIRECT
    requires f.direct == FileAt(fs, r).direct && f.indirect == FileAt(fs, r).indirect
    ensures Shape(PutFile(fs, r, f)) && forall r' :: Live(PutFile(fs, r, f), r') <==> Live(fs, r')
    ensures forall r', i | Live(fs, r') && 0 <= i < NBLOCKS :: SlotOf(PutFile(fs, r, f), r', i) == SlotOf(fs, r', i)
    ensures forall r' | Live(fs, r') :: HasTable(PutFile(fs, r, f), r') == HasTable(fs, r')
  {
    PutFileAt(fs, r, f);
  }

  predicate SameKind(x: Block, y: Block) {
    (x.Dir? <==> y.Dir?) && (x.Data? <==> y.Data?) && (x.Data? ==> x == y)
  }

  lemma PutSlotAt(fs: Fs, r: Ref, i: nat, x: nat)
    requires Shape(fs) && Names(fs) && Live(fs, r) && i < NBLOCKS && (i >= NDIRECT ==> HasTable(fs, r))
    ensures var fs' := PutSlot(fs, r, i, x);
            && Shape(fs') && (forall r' :: Live(fs', r') <==> Live(fs, r'))
            && (forall r' | Live(fs, r') :: FileAt(fs', r') ==
                  if r' == r && i < NDIRECT then FileAt(fs, r).(direct := FileAt(fs, r).direct[i := x])
                  else FileAt(fs, r'))
            && (forall r' | Live(fs, r') :: HasTable(fs', r') == HasTable(fs, r'))
            && (forall b | 0 <= b < |fs.blocks| :: SameKind(fs'.blocks[b], fs.blocks[b]))
    ensures var fs' := PutSlot(fs, r, i, x);
            forall r', i' | Live(fs, r') && 0 <= i' < NBLOCKS ::
              SlotOf(fs', r', i') == if r' == r && i' == i then x else SlotOf(fs, r', i')
  {
    var f := FileAt(fs, r);
    if i < NDIRECT {
      PutFileAt(fs, r, f.(direct := f.direct[i := x]));
    } else {
      assert BlockOk(fs.blocks[f.indirect]);
    }
  }

  // ---------------------------------------------------------------- a new data block

  predicate IsNewEntry(ftype: Type, b: nat, r: Ref) {
    ftype == DIR && r.Entry? && r.b == b && r.j < BLKFILES
  }

  /** Taking an unused block into use changes no record and no slot. */
  lemma ClaimAt(fs: Fs, b: nat, r: Ref, i: nat, ftype: Type, d: nat)
    requires Shape(fs) && b < |fs.blocks| && fs.use[b] == Unused
    requires forall r' | Live(fs, r') :: FileAt(fs, r').indirect != b
    ensures var fs' := Claim(fs, b, DataOf(r, i), ZeroBlock(ftype), d);
            && Shape(fs') && (forall r' :: Live(fs', r') <==> Live(fs, r') || IsNewEntry(ftype, b, r'))
            && (forall r' | Live(fs, r') :: FileAt(fs', r') == FileAt(fs, r'))
            && (forall r' | Live(fs, r') :: HasTable(fs', r') == HasTable(fs, r'))
            && (forall r', i' | Live(fs, r') && 0 <= i' < NBLOCKS :: SlotOf(fs', r', i') == SlotOf(fs, r', i'))
            && (forall r' | IsNewEntry(ftype, b, r') :: FileAt(fs', r') == NoFile() && !Live(fs, r'))
            && (forall r', i' | IsNewEntry(ftype, b, r') && 0 <= i' < NBLOCKS :: SlotOf(fs', r', i') == 0)
  {
  }

  /** What a new block does to every record and slot. */
  lemma NewDataAt(fs: Fs, r: Ref, i: nat, b: nat)
    requires Inv(fs) && Live(fs, r) && i < NBLOCKS && (i >= NDIRECT ==> HasTable(fs, r)) && b < |fs.blocks|
    requires fs.use[b] == Unused
    ensures var fs' := NewData(fs, r, i, b);
            && Shape(fs')
            && (forall r' :: Live(fs', r') <==> Live(fs, r') || IsNewEntry(FileAt(fs, r).ftype, b, r'))
            && (forall r' | Live(fs, r') :: FileAt(fs', r') ==
                  if r' == r && i < NDIRECT then FileAt(fs, r).(direct := FileAt(fs, r).direct[i := b])
                  else FileAt(fs, r'))
            && (forall r' | Live(fs, r') :: HasTable(fs', r') == HasTable(fs, r'))
            && (forall r', i' | Live(fs, r') && 0 <= i' < NBLOCKS ::
                  SlotOf(fs', r', i') == if r' == r && i' == i then b else SlotOf(fs, r', i'))
            && (forall r' | IsNewEntry(FileAt(fs, r).ftype, b, r') :: FileAt(fs', r') == NoFile() && !Live(fs, r'))
            && (forall r', i' | IsNewEntry(FileAt(fs, r).ftype, b, r') && 0 <= i' < NBLOCKS :: SlotOf(fs', r', i') == 0)
            && (forall b' | 0 <= b' < |fs.blocks| && b' != b :: SameKind(fs'.blocks[b'], fs.blocks[b']))
  {
    NotATable(fs, b);
    PutSlotAt(fs, r, i, b);
    hide Inv;
    ClaimAt(PutSlot(fs, r, i, b), b, r, i, FileAt(fs, r).ftype, Under(fs, r));
  }

  lemma NotATable(fs: Fs, b: nat)
    requires Inv(fs) && b < |fs.blocks| && fs.use[b] == Unused
    ensures b != 0 && forall r | Live(fs, r) :: FileAt(fs, r).indirect != b
  {
  }

  /** A slot in use names a block of the file below its size. */
  lemma SlotStays(fs: Fs, q: Ref, i: nat)
    requires Inv(fs) && Live(fs, q) && i < NBLOCKS && SlotOf(fs, q, i) != 0
    ensures var x := SlotOf(fs, q, i);
            && x < |fs.blocks| && fs.use[x] == DataOf(q, i) && Fits(FileAt(fs, q).ftype, fs.blocks[x])
            && i < Blocks(FileAt(fs, q).size)
  {
  }

  lemma TableStays(fs: Fs, q: Ref)
    requires Inv(fs) && Live(fs, q) && FileAt(fs, q).indirect != 0
    ensures NDIRECT <= Blocks(FileAt(fs, q).size)
  {
  }

  /** The slots of one record after a new block. */
  lemma NewDataSlot(fs: Fs, r: Ref, i: nat, b: nat, r': Ref, i': nat)
    requires Shape(fs) && Inv(fs) && Live(fs, r) && i < NBLOCKS && (i >= NDIRECT ==> HasTable(fs, r)) && b < |fs.blocks|
    requires fs.use[b] == Unused
    requires SlotOf(fs, r, i) == 0
    ensures Shape(NewData(fs, r, i, b))
    ensures var fs' := NewData(fs, r, i, b);
            Live(fs', r') && i' < NBLOCKS && SlotOf(fs', r', i') != 0 ==>
              var x := SlotOf(fs', r', i');
              x < |fs.blocks| && fs'.use[x] == DataOf(r', i') && Fits(FileAt(fs', r').ftype, fs'.blocks[x])
  {
    hide Inv;
    NewDataAt(fs, r, i, b);
    if Live(fs, r') && i' < NBLOCKS && SlotOf(fs, r', i') != 0 {
      SlotStays(fs, r', i');
    }
  }

  lemma NewDataNames(fs: Fs, r: Ref, i: nat, b: nat)
    requires Shape(fs) && Inv(fs) && Live(fs, r) && i < NBLOCKS && (i >= NDIRECT ==> HasTable(fs, r)) && b < |fs.blocks|
    requires fs.use[b] == Unused
    requires SlotOf(fs, r, i) == 0
    ensures Shape(NewData(fs, r, i, b)) && Names(NewData(fs, r, i, b))
  {
    hide Inv;
    var fs' := NewData(fs, r, i, b);
    NewDataAt(fs, r, i, b);
    forall r' | Live(fs', r') && FileAt(fs', r').indirect != 0
      ensures HasTable(fs', r') && fs'.use[FileAt(fs', r').indirect] == TableOf(r') {
      if Live(fs, r') { TableUsedBy(fs, r'); }
    }
    forall r', i' | Live(fs', r') && 0 <= i' < NBLOCKS && SlotOf(fs', r', i') != 0
      ensures SlotOf(fs', r', i') < |fs'.blocks| && fs'.use[SlotOf(fs', r', i')] == DataOf(r', i')
              && Fits(FileAt(fs', r').ftype, fs'.blocks[SlotOf(fs', r', i')]) {
      NewDataSlot(fs, r, i, b, r', i');
    }
  }

  lemma NewDataNamed(fs: Fs, r: Ref, i: nat, b: nat)
    requires Inv(fs) && Live(fs, r) && i < NBLOCKS && (i >= NDIRECT ==> HasTable(fs, r)) && b < |fs.blocks|
    requires fs.use[b] == Unused
    requires SlotOf(fs, r, i) == 0
    ensures Shape(NewData(fs, r, i, b)) && Named(NewData(fs, r, i, b))
  {
    NewDataAt(fs, r, i, b);
  }

  lemma NewDataInv(fs: Fs, r: Ref, i: nat, b: nat)
    requires Inv(fs) && Live(fs, r) && i < NBLOCKS && (i >= NDIRECT ==> HasTable(fs, r)) && b < |fs.blocks|
    requires fs.use[b] == Unused
    requires SlotOf(fs, r, i) == 0 && i < Blocks(FileAt(fs, r).size)
    ensures Inv(NewData(fs, r, i, b))
  {
    hide Named;
    hide Names;
    hide Below;
    hide Rooted;
    NewDataAt(fs, r, i, b);
    NewDataNames(fs, r, i, b);
    NewDataNamed(fs, r, i, b);
    NewDataBelow(fs, r, i, b);
    NewDataRooted(fs, r, i, b);
  }

  lemma NewDataBelow(fs: Fs, r: Ref, i: nat, b: nat)
    requires Inv(fs) && Live(fs, r) && i < NBLOCKS && (i >= NDIRECT ==> HasTable(fs, r)) && b < |fs.blocks|
    requires fs.use[b] == Unused
    requires SlotOf(fs, r, i) == 0 && i < Blocks(FileAt(fs, r).size)
    ensures Shape(NewData(fs, r, i, b)) && Below(NewData(fs, r, i, b))
  {
    hide Named;
    hide Names;
    hide Rooted;
    NewDataAt(fs, r, i, b);
  }

  lemma NewDataRooted(fs: Fs, r: Ref, i: nat, b: nat)
    requires Inv(fs) && Live(fs, r) && i < NBLOCKS && (i >= NDIRECT ==> HasTable(fs, r)) && b < |fs.blocks|
    requires fs.use[b] == Unused
    ensures Shape(NewData(fs, r, i, b)) && Rooted(NewData(fs, r, i, b))
  {
    hide Names;
    hide Below;
    NewDataAt(fs, r, i, b);
  }

  // ---------------------------------------------------------------- a new indirect block

  lemma NewTableAt(fs: Fs, r: Ref, b: nat)
    requires Shape(fs) && Inv(fs) && Live(fs, r) && FileAt(fs, r).indirect == 0 && b < |fs.blocks|
    requires fs.use[b] == Unused
    ensures var fs' := NewTable(fs, r, b);
            && Shape(fs') && (forall r' :: Live(fs', r') <==> Live(fs, r'))
            && (forall r' | Live(fs, r') ::
                  FileAt(fs', r') == if r' == r then FileAt(fs, r).(indirect := b) else FileAt(fs, r'))
            && (forall r' | Live(fs, r') :: HasTable(fs', r') == (r' == r || HasTable(fs, r')))
            && (forall r', i' | Live(fs, r') && 0 <= i' < NBLOCKS :: SlotOf(fs', r', i') == SlotOf(fs, r', i'))
            && |fs'.blocks| == |fs.blocks|
            && (forall b' | 0 <= b' < |fs.blocks| && b' != b :: SameKind(fs'.blocks[b'], fs.blocks[b']))
  {
    hide Inv;
    NotATable(fs, b);
    PutFileAt(fs, r, FileAt(fs, r).(indirect := b));
    ClaimTableAt(PutFile(fs, r, FileAt(fs, r).(indirect := b)), b, r, Under(fs, r));
    forall r', i' | Live(fs, r') && 0 <= i' < NBLOCKS
      ensures SlotOf(NewTable(fs, r, b), r', i') == SlotOf(fs, r', i') {
      if r' != r { assert FileAt(NewTable(fs, r, b), r').indirect != b; }
    }
  }

  lemma ClaimTableAt(fs: Fs, b: nat, r: Ref, d: nat)
    requires Shape(fs) && b < |fs.blocks| && fs.use[b] == Unused
    ensures var fs' := Claim(fs, b, TableOf(r), ZeroTable(), d);
            && Shape(fs') && (forall r' :: Live(fs', r') <==> Live(fs, r'))
            && (forall r' | Live(fs, r') :: FileAt(fs', r') == FileAt(fs, r'))
            && fs'.blocks[b] == ZeroTable()
            && (forall b' | 0 <= b' < |fs.blocks| && b' != b :: fs'.blocks[b'] == fs.blocks[b'])
  {
  }

  lemma NewTableInv(fs: Fs, r: Ref, b: nat)
    requires Inv(fs) && Live(fs, r) && FileAt(fs, r).indirect == 0 && b < |fs.blocks| && fs.use[b] == Unused
    requires NDIRECT <= Blocks(FileAt(fs, r).size) && b > 0
    ensures Inv(NewTable(fs, r, b))
  {
    hide Named;
    hide Names;
    hide Rooted;
    NewTableAt(fs, r, b);
    NewTableNames(fs, r, b);
    NewTableNamed(fs, r, b);
  }

  lemma NewTableNames(fs: Fs, r: Ref, b: nat)
    requires Inv(fs) && Live(fs, r) && FileAt(fs, r).indirect == 0 && b < |fs.blocks| && fs.use[b] == Unused && b > 0
    ensures Shape(NewTable(fs, r, b)) && Names(NewTable(fs, r, b))
  {
    hide Named;
    hide Below;
    hide Rooted;
    NewTableAt(fs, r, b);
  }

  lemma NewTableNamed(fs: Fs, r: Ref, b: nat)
    requires Inv(fs) && Live(fs, r) && FileAt(fs, r).indirect == 0 && b < |fs.blocks| && fs.use[b] == Unused && b > 0
    ensures Shape(NewTable(fs, r, b)) && Named(NewTable(fs, r, b)) && Rooted(NewTable(fs, r, b))
  {
    hide Names;
    hide Below;
    NewTableAt(fs, r, b);
  }

  // ---------------------------------------------------------------- blocks given back

  /** The uses that remain when blocks lo <= i < hi of the file, and perhaps its indirect block,
      are given back. */
  function Without(use: seq<Use>, r: Ref, lo: nat, hi: nat, table: bool): (u: seq<Use>)
    ensures |u| == |use|
  {
    seq(|use|, b requires 0 <= b < |use| => if Given(use[b], r, lo, hi, table) then Unused else use[b])
  }

  predicate Given(u: Use, r: Ref, lo: nat, hi: nat, table: bool) {
    (u.DataOf? && u.r == r && lo <= u.i < hi) || (table && u == TableOf(r))
  }

  /** Blocks lo <= i < hi of the file, and its indirect block if so said, are marked free and no
      longer named; who used which block is not yet forgotten. */
  ghost predicate Cleared(fs: Fs, fs': Fs, r: Ref, lo: nat, hi: nat, table: bool, size: nat) {
    && Shape(fs) && Shape(fs') && |fs'.blocks| == |fs.blocks| && fs'.use == fs.use && fs'.depth == fs.depth
    && Live(fs, r)
    && (forall r' :: Live(fs', r') <==> Live(fs, r'))
    && (forall r' | Live(fs, r') && r' != r :: FileAt(fs', r') == FileAt(fs, r'))
    && SameMeta(FileAt(fs, r).(size := size), FileAt(fs', r))
    && FileAt(fs', r).indirect == (if table then 0 else FileAt(fs, r).indirect)
    && (forall r', i | Live(fs, r') && 0 <= i < NBLOCKS ::
          SlotOf(fs', r', i) == if r' == r && lo <= i < hi then 0 else SlotOf(fs, r', i))
    && (forall b | 0 <= b < |fs.blocks| :: SameKind(fs'.blocks[b], fs.blocks[b]))
    && (forall b | 0 <= b < |fs.free| :: fs'.free[b] <==> fs.free[b] || Given(fs.use[b], r, lo, hi, table))
  }

  lemma ClearedNot(fs: Fs, r: Ref, lo: nat)
    requires Shape(fs) && Live(fs, r)
    ensures Cleared(fs, fs, r, lo, lo, false, FileAt(fs, r).size)
  {
  }

  lemma ClearedNames(fs: Fs, fs': Fs, r: Ref, lo: nat, hi: nat, size: nat)
    requires Inv(fs) && Cleared(fs, fs', r, lo, hi, false, size)
    ensures Shape(fs') && Live(fs', r) && Names(fs')
    ensures forall r' | Live(fs, r') :: HasTable(fs', r') == HasTable(fs, r')
  {
  }

  /** Block hi of the file is not there. */
  lemma ClearedSkip(fs: Fs, fs': Fs, r: Ref, lo: nat, hi: nat, size: nat)
    requires Inv(fs) && Cleared(fs, fs', r, lo, hi, false, size) && lo <= hi
    requires hi < NBLOCKS ==> SlotOf(fs', r, hi) == 0
    ensures Cleared(fs, fs', r, lo, hi + 1, false, size)
  {
    hide Inv;
    UsedBy(fs, r, hi);
  }

  /** A block is used as block i of the file exactly if the file's slot i names it. */
  lemma UsedBy(fs: Fs, r: Ref, i: nat)
    requires Inv(fs) && Live(fs, r)
    ensures i >= NBLOCKS || SlotOf(fs, r, i) == 0 ==> forall b | 0 <= b < |fs.use| :: fs.use[b] != DataOf(r, i)
    ensures i < NBLOCKS && SlotOf(fs, r, i) != 0 ==>
              && SlotOf(fs, r, i) < |fs.blocks|
              && forall b | 0 <= b < |fs.use| :: fs.use[b] == DataOf(r, i) <==> b == SlotOf(fs, r, i)
  {
  }

  lemma ClearedMore(fs: Fs, fs': Fs, r: Ref, lo: nat, hi: nat, size: nat)
    requires Inv(fs) && Cleared(fs, fs', r, lo, hi, false, size) && lo <= hi < NBLOCKS && SlotOf(fs', r, hi) != 0
    ensures Shape(fs') && Live(fs', r) && SlotOf(fs', r, hi) < |fs'.blocks|
    ensures Cleared(fs, Unmark(fs', r, hi), r, lo, hi + 1, false, size)
  {
    hide Inv;
    hide Names;
    UsedBy(fs, r, hi);
    ClearedNames(fs, fs', r, lo, hi, size);
    PutSlotAt(fs', r, hi, 0);
    Remark(PutSlot(fs', r, hi, 0), fs'.free[SlotOf(fs', r, hi) := true]);
  }

  /** The bitmap plays no part in what the records say. */
  lemma Remark(fs: Fs, free: seq<bool>)
    requires Shape(fs) && |free| == |fs.free|
    ensures var fs' := fs.(free := free);
            && Shape(fs') && (forall r :: Live(fs', r) <==> Live(fs, r))
            && (forall r | Live(fs, r) :: FileAt(fs', r) == FileAt(fs, r) && HasTable(fs', r) == HasTable(fs, r))
            && (forall r, i | Live(fs, r) && 0 <= i < NBLOCKS :: SlotOf(fs', r, i) == SlotOf(fs, r, i))
  {
  }

  /** A file has no blocks beyond its size to lose. */
  lemma ClearedAll(fs: Fs, fs': Fs, r: Ref, lo: nat, hi: nat, size: nat)
    requires Inv(fs) && Cleared(fs, fs', r, lo, hi, false, size) && Blocks(FileAt(fs, r).size) <= hi
    ensures Cleared(fs, fs', r, lo, NBLOCKS, false, size)
  {
    forall b | 0 <= b < |fs.use| && fs.use[b].DataOf? && fs.use[b].r == r
      ensures fs.use[b].i < hi && fs.use[b].i < NBLOCKS
    {
      assert SlotOf(fs, r, fs.use[b].i) == b;
    }
  }

  lemma ClearedTable(fs: Fs, fs': Fs, r: Ref, lo: nat, size: nat)
    requires Inv(fs) && Cleared(fs, fs', r, lo, NBLOCKS, false, size) && lo <= NDIRECT && FileAt(fs', r).indirect != 0
    ensures Shape(fs') && Live(fs', r) && HasTable(fs', r)
    ensures Cleared(fs, UnmarkTable(fs', r), r, lo, NBLOCKS, true, size)
  {
    hide Inv;
    hide Names;
    TableUsedBy(fs, r);
    ClearedNames(fs, fs', r, lo, NBLOCKS, size);
    var f := FileAt(fs', r);
    NoTableAt(fs', r);
    Remark(PutFile(fs', r, f.(indirect := 0)), fs'.free[f.indirect := true]);
  }

  lemma NoTableAt(fs: Fs, r: Ref)
    requires Shape(fs) && Live(fs, r)
    ensures var fs' := PutFile(fs, r, FileAt(fs, r).(indirect := 0));
            && Shape(fs') && (forall r' :: Live(fs', r') <==> Live(fs, r'))
            && (forall r' | Live(fs, r') ::
                  FileAt(fs', r') == if r' == r then FileAt(fs, r).(indirect := 0) else FileAt(fs, r'))
            && (forall r', i | Live(fs, r') && 0 <= i < NBLOCKS ::
                  SlotOf(fs', r', i) == if r' == r && i >= NDIRECT then 0 else SlotOf(fs, r', i))
            && (forall b | 0 <= b < |fs.blocks| :: SameKind(fs'.blocks[b], fs.blocks[b]))
  {
    PutFileAt(fs, r, FileAt(fs, r).(indirect := 0));
  }

  lemma TableUsedBy(fs: Fs, r: Ref)
    requires Inv(fs) && Live(fs, r)
    ensures var t := FileAt(fs, r).indirect;
            && (t != 0 ==> HasTable(fs, r))
            && forall b | 0 <= b < |fs.use| :: fs.use[b] == TableOf(r) <==> t != 0 && b == t
  {
  }

  lemma ClearedNoTable(fs: Fs, fs': Fs, r: Ref, lo: nat, size: nat)
    requires Inv(fs) && Cleared(fs, fs', r, lo, NBLOCKS, false, size) && Live(fs', r) && FileAt(fs', r).indirect == 0
    ensures Cleared(fs, fs', r, lo, NBLOCKS, true, size)
  {
    hide Inv;
    TableUsedBy(fs, r);
  }

  lemma ClearedSize(fs: Fs, fs': Fs, r: Ref, lo: nat, hi: nat, table: bool, size: nat, n: nat)
    requires Cleared(fs, fs', r, lo, hi, table, size) && Live(fs', r)
    ensures Cleared(fs, PutFile(fs', r, FileAt(fs', r).(size := n)), r, lo, hi, table, n)
  {
    var f := FileAt(fs', r).(size := n);
    PutFileAt(fs', r, f);
    PutFileSlots(fs', r, f);
  }

  // ---------------------------------------------------------------- when ownership is kept

  /** None of the records of a directory block has blocks. */
  predicate Bare(x: Block) {
    x.Dir? ==> forall j | 0 <= j < |x.files| :: OwnsNothing(x.files[j])
  }

  predicate OwnsNothing(f: File) {
    f.indirect == 0 && forall i | 0 <= i < |f.direct| :: f.direct[i] == 0
  }

  /** The blocks of the file from lo on hold no record that has blocks of its own. */
  ghost predicate DropsBare(fs: Fs, r: Ref, lo: nat)
    requires Shape(fs) && Live(fs, r)
  {
    forall i | lo <= i < NBLOCKS && 0 < SlotOf(fs, r, i) < |fs.blocks| :: Bare(fs.blocks[SlotOf(fs, r, i)])
  }

  /** The record lies in a block that the file has from lo on. */
  predicate Dropped(fs: Fs, r: Ref, lo: nat, q: Ref)
    requires Shape(fs)
  {
    q.Entry? && q.b < |fs.use| && Given(fs.use[q.b], r, lo, NBLOCKS, false)
  }

  /** The blocks are forgotten. */
  function Forget(fs: Fs, r: Ref, lo: nat, table: bool): Fs {
    fs.(use := Without(fs.use, r, lo, NBLOCKS, table))
  }

  lemma ForgetAt(fs: Fs, r: Ref, lo: nat, table: bool)
    requires Shape(fs)
    ensures var fs' := Forget(fs, r, lo, table);
            && Shape(fs')
            && (forall q :: Live(fs', q) <==> Live(fs, q) && !Dropped(fs, r, lo, q))
            && (forall q | Live(fs', q) :: FileAt(fs', q) == FileAt(fs, q) && HasTable(fs', q) == HasTable(fs, q))
            && (forall q, i | Live(fs', q) && 0 <= i < NBLOCKS :: SlotOf(fs', q, i) == SlotOf(fs, q, i))
  {
  }

  /** A record in a block that goes owns nothing, so that it is not the file's own. */
  lemma DroppedOwnsNothing(fs: Fs, r: Ref, lo: nat, q: Ref)
    requires Inv(fs) && Live(fs, r) && DropsBare(fs, r, lo) && Live(fs, q) && Dropped(fs, r, lo, q)
    ensures OwnsNothing(FileAt(fs, q)) && q != r
  {
    var i := fs.use[q.b].i;
    assert SlotOf(fs, r, i) == q.b && q.b != 0;
    assert Bare(fs.blocks[q.b]);
  }

  /** What is needed of the new size: it covers the blocks that stay. */
  predicate Covered(f: File, lo: nat, table: bool, size: nat) {
    lo <= Blocks(size) && (!table && f.indirect != 0 ==> NDIRECT <= Blocks(size))
  }

  lemma ForgottenNames(fs: Fs, fs1: Fs, r: Ref, lo: nat, table: bool, size: nat)
    requires Inv(fs) && Cleared(fs, fs1, r, lo, NBLOCKS, table, size) && Covered(FileAt(fs, r), lo, table, size)
    ensures var fs' := Forget(fs1, r, lo, table); Shape(fs') && Names(fs') && Below(fs')
  {
    hide Inv;
    var fs' := Forget(fs1, r, lo, table);
    ForgetAt(fs1, r, lo, table);
    forall q, i | Live(fs', q) && 0 <= i < NBLOCKS && SlotOf(fs', q, i) != 0
      ensures SlotOf(fs', q, i) < |fs'.blocks| && fs'.use[SlotOf(fs', q, i)] == DataOf(q, i)
      ensures Fits(FileAt(fs', q).ftype, fs'.blocks[SlotOf(fs', q, i)]) && i < Blocks(FileAt(fs', q).size) {
      SlotStays(fs, q, i);
    }
    forall q | Live(fs', q) && FileAt(fs', q).indirect != 0
      ensures HasTable(fs', q) && fs'.use[FileAt(fs', q).indirect] == TableOf(q)
      ensures NDIRECT <= Blocks(FileAt(fs', q).size)
    {
      TableUsedBy(fs, q);
      TableStays(fs, q);
    }
  }

  lemma ForgottenNamed(fs: Fs, fs1: Fs, r: Ref, lo: nat, table: bool, size: nat)
    requires Inv(fs) && Cleared(fs, fs1, r, lo, NBLOCKS, table, size) && Live(fs, r) && DropsBare(fs, r, lo)
    ensures var fs' := Forget(fs1, r, lo, table); Shape(fs') && Named(fs') && Live(fs', r)
  {
    hide Inv;
    hide DropsBare;
    var fs' := Forget(fs1, r, lo, table);
    ForgetAt(fs1, r, lo, table);
    OwnerStays(fs, r, lo);
    forall b | 0 <= b < |fs'.use| && (fs'.use[b].TableOf? || fs'.use[b].DataOf?)
      ensures Live(fs', fs'.use[b].r)
      ensures fs'.use[b].TableOf? ==> FileAt(fs', fs'.use[b].r).indirect == b
      ensures fs'.use[b].DataOf? ==> fs'.use[b].i < NBLOCKS && SlotOf(fs', fs'.use[b].r, fs'.use[b].i) == b {
      OwnerOf(fs, r, lo, b);
    }
  }

  lemma OwnerStays(fs: Fs, r: Ref, lo: nat)
    requires Inv(fs) && Live(fs, r) && DropsBare(fs, r, lo)
    ensures !Dropped(fs, r, lo, r)
  {
    if Dropped(fs, r, lo, r) { DroppedOwnsNothing(fs, r, lo, r); }
  }

  /** The owner of a block does not lie in a bare block. */
  lemma OwnerOf(fs: Fs, r: Ref, lo: nat, b: nat)
    requires Inv(fs) && Live(fs, r) && DropsBare(fs, r, lo) && b < |fs.use| && (fs.use[b].TableOf? || fs.use[b].DataOf?)
    ensures Live(fs, fs.use[b].r) && !Dropped(fs, r, lo, fs.use[b].r)
    ensures fs.use[b].TableOf? ==> FileAt(fs, fs.use[b].r).indirect == b
    ensures fs.use[b].DataOf? ==> fs.use[b].i < NBLOCKS && SlotOf(fs, fs.use[b].r, fs.use[b].i) == b
  {
    var q := fs.use[b].r;
    if Dropped(fs, r, lo, q) { DroppedOwnsNothing(fs, r, lo, q); }
  }

  /** If the blocks given back hold no record that has blocks, every block still has its owner. */
  lemma ForgottenInv(fs: Fs, fs1: Fs, r: Ref, lo: nat, table: bool, size: nat)
    requires Inv(fs) && Cleared(fs, fs1, r, lo, NBLOCKS, table, size) && Covered(FileAt(fs, r), lo, table, size)
    requires DropsBare(fs, r, lo)
    ensures var fs' := Forget(fs1, r, lo, table); Inv(fs') && Live(fs', r)
  {
    hide Names;
    hide Named;
    hide Below;
    ForgottenNames(fs, fs1, r, lo, table, size);
    ForgottenNamed(fs, fs1, r, lo, table, size);
    ForgetAt(fs1, r, lo, table);
    assert FileAt(fs, Root).ftype == DIR;
    assert FileAt(fs1, Root).ftype == DIR;
  }

  /** Whatever the blocks are said to be used for afterwards, a record that is there was there. */
  lemma LiveBefore(fs: Fs, fs1: Fs, r: Ref, lo: nat, table: bool, size: nat, fs': Fs, q: Ref)
    requires Inv(fs) && Cleared(fs, fs1, r, lo, NBLOCKS, table, size) && Inv(fs')
    requires fs' == fs1.(use := fs'.use, depth := fs'.depth)
    requires Live(fs', q)
    ensures Live(fs, q) && !Dropped(fs, r, lo, q) && Live(fs1, q)
    ensures FileAt(fs', q).indirect in {0, FileAt(fs, q).indirect}
    ensures forall i | 0 <= i < NBLOCKS :: SlotOf(fs', q, i) in {0, SlotOf(fs, q, i)}
  {
    if q.Entry? {
      assert fs.blocks[q.b].Dir? by { assert SameKind(fs1.blocks[q.b], fs.blocks[q.b]); }
      NotBoth(fs, q.b);
    }
    assert Live(fs1, q) && FileAt(fs', q) == FileAt(fs1, q);
    forall i | 0 <= i < NBLOCKS ensures SlotOf(fs', q, i) in {0, SlotOf(fs, q, i)} {
      assert SlotOf(fs', q, i) == SlotOf(fs1, q, i);
    }
  }

  lemma NotBoth(fs: Fs, b: nat)
    requires Inv(fs) && b < |fs.use| && fs.blocks[b].Dir?
    ensures !fs.use[b].TableOf?
  {
  }

  /** A block that a lost record names is in use and named by nobody. */
  lemma Orphaned(fs: Fs, fs1: Fs, r: Ref, lo: nat, table: bool, size: nat, fs': Fs, q: Ref, y: nat)
    requires Inv(fs) && Cleared(fs, fs1, r, lo, NBLOCKS, table, size) && fs' == fs1.(use := fs'.use, depth := fs'.depth)
    requires Live(fs, q) && Dropped(fs, r, lo, q) && q != r && y < |fs.use|
    requires fs.use[y] == TableOf(q) || (fs.use[y].DataOf? && fs.use[y].r == q)
    ensures !Inv(fs')
  {
    if Inv(fs') {
      assert !fs.free[y] && !fs'.free[y] && fs.use[y] != Reserved;
      assert fs'.use[y].DataOf? || fs'.use[y].TableOf?;
      LiveBefore(fs, fs1, r, lo, table, size, fs', fs'.use[y].r);
      assert false;
    }
  }

  /** Otherwise there is a block without an owner, whatever the blocks are said to be used for. */
  lemma LostOwner(fs: Fs, fs1: Fs, r: Ref, lo: nat, table: bool, size: nat, fs': Fs)
    requires Inv(fs) && Cleared(fs, fs1, r, lo, NBLOCKS, table, size) && fs' == fs1.(use := fs'.use, depth := fs'.depth)
    requires Live(fs, r) && !DropsBare(fs, r, lo)
    ensures !Inv(fs')
  {
    var i :| lo <= i < NBLOCKS && 0 < SlotOf(fs, r, i) < |fs.blocks| && !Bare(fs.blocks[SlotOf(fs, r, i)]);
    var x := SlotOf(fs, r, i);
    assert fs.use[x] == DataOf(r, i);
    var j: nat :| j < |fs.blocks[x].files| && !OwnsNothing(fs.blocks[x].files[j]);
    assert BlockOk(fs.blocks[x]);
    var q := Entry(x, j);
    assert Live(fs, q) && Dropped(fs, r, lo, q) && q != r;
    var y := NamedBlock(fs, q);
    Orphaned(fs, fs1, r, lo, table, size, fs', q, y);
  }

  lemma NamedBlock(fs: Fs, q: Ref) returns (y: nat)
    requires Inv(fs) && Live(fs, q) && !OwnsNothing(FileAt(fs, q))
    ensures y < |fs.use| && (fs.use[y] == TableOf(q) || (fs.use[y].DataOf? && fs.use[y].r == q))
  {
    var f := FileAt(fs, q);
    y := f.indirect;
    if y == 0 {
      var k: nat :| k < NDIRECT && f.direct[k] != 0;
      assert SlotOf(fs, q, k) == f.direct[k];
      y := f.direct[k];
    }
  }
}
