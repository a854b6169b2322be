/** What the file operations add up to: block ownership, pread and pwrite, truncation. */
module FsTheorems {
  import opened FsSpec
  import opened FsBytes
  import opened Files

  // ---------------------------------------------------------------- ownership

  /** The places that can hold a block number. */
  datatype Place = SlotPlace(r: Ref, i: nat) | TablePlace(r: Ref)

  predicate Holding(fs: Fs, x: Place, b: nat)
    requires Shape(fs)
  {
    match x
    case SlotPlace(r, i) => Live(fs, r) && i < NBLOCKS && SlotOf(fs, r, i) == b
    case TablePlace(r) => Live(fs, r) && FileAt(fs, r).indirect == b
  }

  /** The reserved blocks are in use and named nowhere; of the others, a free one is named
      nowhere and one in use in exactly one place. */
  lemma OneOwner(fs: Fs, b: nat)
    requires Inv(fs) && 0 < b < |fs.free|
    ensures b < SysBlocks(|fs.free|) ==> !fs.free[b] && forall x: Place :: !Holding(fs, x, b)
    ensures b >= SysBlocks(|fs.free|) ==> (fs.free[b] <==> forall x: Place :: !Holding(fs, x, b))
    ensures forall x: Place, y: Place | Holding(fs, x, b) && Holding(fs, y, b) :: x == y
  {
    match fs.use[b]
    case DataOf(r, i) => assert Holding(fs, SlotPlace(r, i), b);
    case TableOf(r) => assert Holding(fs, TablePlace(r), b);
    case _ =>
  }

  /** No block is lost or used twice. */
  ghost predicate Conserved(fs: Fs) {
    && Shape(fs) && (forall b | 0 <= b < |fs.free| && b < SysBlocks(|fs.free|) :: !fs.free[b])
    && (forall b | 0 <= b < |fs.free| && b >= SysBlocks(|fs.free|) ::
          if fs.free[b] then forall x: Place :: !Holding(fs, x, b)
          else
            && (exists x: Place :: Holding(fs, x, b))
            && forall x: Place, y: Place | Holding(fs, x, b) && Holding(fs, y, b) :: x == y)
  }

  lemma InvConserves(fs: Fs)
    requires Inv(fs)
    ensures Conserved(fs)
  {
    forall b | 0 < b < |fs.free|
      ensures b < SysBlocks(|fs.free|) ==> !fs.free[b]
      ensures b >= SysBlocks(|fs.free|) ==> (fs.free[b] <==> forall x: Place :: !Holding(fs, x, b))
      ensures forall x: Place, y: Place | Holding(fs, x, b) && Holding(fs, y, b) :: x == y {
      OneOwner(fs, b);
    }
  }

  /** The record lies in a block of the directory. */
  ghost predicate Inside(fs: Fs, d: Ref, r: Ref) {
    Shape(fs) && Live(fs, d) && Live(fs, r) && r.Entry? && exists i | 0 <= i < NBLOCKS :: SlotOf(fs, d, i) == r.b
  }

  /** Every record can be reached from the root directory. */
  lemma {:induction false} Reachable(fs: Fs, r: Ref) returns (p: seq<Ref>)
    requires Inv(fs) && Live(fs, r)
    ensures p != [] && p[0] == Root && p[|p| - 1] == r && forall k | 0 < k < |p| :: Inside(fs, p[k - 1], p[k])
    decreases if r.Root? then 0 else fs.depth[r.b] + 1
  {
    if r.Root? {
      p := [Root];
    } else {
      var u := fs.use[r.b];
      assert SlotOf(fs, u.r, u.i) == r.b;
      var q := Reachable(fs, u.r);
      p := q + [r];
      assert Inside(fs, u.r, r);
    }
  }

  /** What file_set_size gives back: exactly the blocks beyond the new size, and the indirect
      block if the new size can do without. */
  lemma TruncateFrees(fs: Fs, fs': Fs, r: Ref, n: nat, b: nat)
    requires Inv(fs) && Sized(fs, fs', r, n) && 0 < b < |fs.free|
    ensures |fs'.free| == |fs.free|
    ensures fs'.free[b] <==>
            || fs.free[b]
            || (exists i | Blocks(n) <= i < NBLOCKS :: SlotOf(fs, r, i) == b)
            || (n < FileAt(fs, r).size && Blocks(n) <= NDIRECT && FileAt(fs, r).indirect == b)
  {
    if fs.use[b].DataOf? && fs.use[b].r == r && fs.use[b].i >= Blocks(n) {
      assert SlotOf(fs, r, fs.use[b].i) == b;
    }
  }

  // ---------------------------------------------------------------- pread and pwrite

  function Contents(fs: Fs, r: Ref): (s: seq<Byte>)
    requires Shape(fs) && Live(fs, r) && FileAt(fs, r).size <= MAXFILESIZE
    ensures |s| == FileAt(fs, r).size && forall p | 0 <= p < |s| :: s[p] == ByteAt(fs, r, p)
  {
    seq(FileAt(fs, r).size, p requires 0 <= p < FileAt(fs, r).size => ByteAt(fs, r, p))
  }

  /** pread on a sequence of bytes. */
  function Pread(s: seq<Byte>, count: nat, offset: nat): seq<Byte> {
    if offset >= |s| then [] else s[offset..Min(offset + count, |s|)]
  }

  /** pwrite on a sequence of bytes; the gap after the old end is filled with zeros. */
  function Pwrite(s: seq<Byte>, buf: seq<Byte>, offset: nat): (t: seq<Byte>)
    ensures |t| == Max(|s|, offset + |buf|)
  {
    seq(Max(|s|, offset + |buf|), p requires 0 <= p =>
      if offset <= p < offset + |buf| then buf[p - offset] else if p < |s| then s[p] else 0)
  }

  lemma ReadIsPread(fs: Fs, r: Ref, count: nat, offset: nat, buf: seq<Byte>)
    requires Holds(fs, r, offset, buf) && FileAt(fs, r).size <= MAXFILESIZE
    requires |buf| == ReadLength(FileAt(fs, r).size, count, offset)
    ensures buf == Pread(Contents(fs, r), count, offset)
  {
  }

  /** file_write is pwrite exactly when the gap it leaves, if any, held zeros. */
  lemma WriteIsPwriteIff(fs: Fs, fs': Fs, r: Ref, offset: nat, buf: seq<Byte>)
    requires Wrote(fs, fs', r, offset, buf) && FileAt(fs, r).size <= MAXFILESIZE && offset + |buf| <= MAXFILESIZE
    requires FileAt(fs', r).size == Max(FileAt(fs, r).size, offset + |buf|)
    ensures Contents(fs', r) == Pwrite(Contents(fs, r), buf, offset) <==>
            forall p | FileAt(fs, r).size <= p < offset :: ByteAt(fs, r, p) == 0
  {
    hide SlotsStay;
    hide ByteAt;
    var t, t' := Pwrite(Contents(fs, r), buf, offset), Contents(fs', r);
    var size := FileAt(fs, r).size;
    assert forall p | 0 <= p < size :: t'[p] == t[p];
    assert forall p | offset <= p < offset + |buf| :: t'[p] == t[p];
    assert forall p | size <= p < offset :: t'[p] == ByteAt(fs, r, p) && t[p] == 0;
  }

  lemma WriteKeepsOthers(fs: Fs, fs': Fs, r: Ref, r': Ref)
    requires Changed(fs, fs', r) && Live(fs, r') && r' != r && FileAt(fs, r').size <= MAXFILESIZE
    ensures Live(fs', r') && FileAt(fs', r').size == FileAt(fs, r').size && Contents(fs', r') == Contents(fs, r')
  {
  }

  // ---------------------------------------------------------------- bytes beyond the end

  /** Whatever the file had beyond its end would read as zero. */
  ghost predicate TailZero(fs: Fs, r: Ref)
    requires Shape(fs) && Live(fs, r)
  {
    forall p | FileAt(fs, r).size <= p < MAXFILESIZE :: ByteAt(fs, r, p) == 0
  }

  lemma ResizedBytes(fs: Fs, fs': Fs, r: Ref, n: nat, p: nat)
    requires Resized(fs, fs', r, n) && p < MAXFILESIZE
    ensures ByteAt(fs', r, p) == if p < Blocks(n) * BLKSIZE then ByteAt(fs, r, p) else 0
  {
    assert p / BLKSIZE < Blocks(n) <==> p < Blocks(n) * BLKSIZE;
  }

  /** A new size keeps the zeros beyond the end exactly when the rest of its last block is
      zero, as it is for every size that is a multiple of the block size. */
  lemma ResizeKeepsTailIff(fs: Fs, fs': Fs, r: Ref, n: nat)
    requires Resized(fs, fs', r, n) && TailZero(fs, r)
    ensures TailZero(fs', r) <==> forall p | n <= p < Blocks(n) * BLKSIZE && p < MAXFILESIZE :: ByteAt(fs, r, p) == 0
  {
    forall p | 0 <= p < MAXFILESIZE
      ensures ByteAt(fs', r, p) == if p < Blocks(n) * BLKSIZE then ByteAt(fs, r, p) else 0
    {
      ResizedBytes(fs, fs', r, n, p);
    }
  }

  /** Shrinking and growing again brings back what the last kept block still holds. */
  lemma GrownPartIsZeroIff(fs: Fs, fs1: Fs, fs2: Fs, r: Ref, n: nat, m: nat)
    requires Resized(fs, fs1, r, n) && Resized(fs1, fs2, r, m) && n <= m <= MAXFILESIZE
    ensures (forall p | n <= p < m :: ByteAt(fs2, r, p) == 0) <==>
            (forall p | n <= p < m && p < Blocks(n) * BLKSIZE :: ByteAt(fs, r, p) == 0)
  {
    forall p | n <= p < m ensures ByteAt(fs2, r, p) == if p < Blocks(n) * BLKSIZE then ByteAt(fs, r, p) else 0 {
      ResizedBytes(fs, fs1, r, n, p);
      ResizedBytes(fs1, fs2, r, m, p);
    }
  }
}
