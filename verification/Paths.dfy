/** Directories and paths of fs/fs.c. */
module Paths {
  import opened Errors
  import opened FsSpec
  import opened FsBytes
  import opened FsDirs
  import opened Files
  import opened PathNames

  ghost predicate IsDir(fs: Fs, d: Ref) {
    Inv(fs) && DirsOk(fs) && Live(fs, d) && FileAt(fs, d).ftype == DIR
  }

  /** Directory d of n blocks, as it was before the search and as it is now. */
  ghost predicate Searching(fs0: Fs, fs: Fs, d: Ref, n: nat) {
    && Grown(fs0, fs) && IsDir(fs0, d) && Inv(fs) && FileAt(fs0, d).size / BLKSIZE == n
  }

  lemma SearchStarts(fs: Fs, d: Ref)
    requires IsDir(fs, d)
    ensures Shape(fs) && Live(fs, d) && Searching(fs, fs, d, FileAt(fs, d).size / BLKSIZE)
    ensures Present(fs, d, 0) && forall name :: NotBefore(fs, d, 0, name)
  {
  }

  lemma SearchNext(fs0: Fs, fs: Fs, d: Ref, n: nat, i: nat)
    requires Searching(fs0, fs, d, n) && i < n
    ensures Shape(fs) && Inv(fs) && Live(fs, d) && i < Blocks(FileAt(fs, d).size) && FileAt(fs, d).ftype == DIR
  {
    WholeBlocks(FileAt(fs0, d).size);
  }

  lemma SearchEnds(fs0: Fs, fs: Fs, d: Ref, n: nat)
    requires Searching(fs0, fs, d, n)
    ensures Shape(fs) && IsDir(fs, d) && Live(fs, d) && FileAt(fs, d).size / BLKSIZE == n && Grown(fs0, fs)
  {
    GrownDirsOk(fs0, fs);
  }

  lemma SearchGoesOn(fs0: Fs, fs1: Fs, fs2: Fs, d: Ref, n: nat)
    requires Searching(fs0, fs1, d, n) && Grown(fs1, fs2) && Inv(fs2)
    ensures Searching(fs0, fs2, d, n)
  {
    GrownTwice(fs0, fs1, fs2);
  }

  /** Block b, the i-th of the directory, has been read. */
  ghost predicate BlockRead(fs: Fs, d: Ref, i: nat, b: nat) {
    Shape(fs) && Live(fs, d) && i < NBLOCKS && b == SlotOf(fs, d, i) && 0 < b < |fs.blocks| && fs.blocks[b].Dir?
  }

  lemma HasEntries(fs: Fs, d: Ref, i: nat, b: nat, j: nat)
    requires BlockRead(fs, d, i, b) && Inv(fs)
    ensures |fs.blocks[b].files| == BLKFILES
    ensures j < BLKFILES ==> Live(fs, Entry(b, j)) && FileAt(fs, Entry(b, j)) == fs.blocks[b].files[j]
  {
    assert BlockOk(fs.blocks[b]);
  }

  lemma FoundHere(fs0: Fs, fs: Fs, d: Ref, n: nat, i: nat, b: nat, j: nat, name: string)
    requires Searching(fs0, fs, d, n) && i < n && BlockRead(fs, d, i, b) && name != ""
    requires j < |fs.blocks[b].files| && fs.blocks[b].files[j].name == name
    ensures Shape(fs0) && Find(fs0, d, name) == Some(Entry(b, j)) && Listed(fs, d, i, j, name)
  {
    HasEntries(fs, d, i, b, j);
    assert Listed(fs, d, i, j, name);
    GrownListed(fs0, fs, d, i, j, name);
    assert Finds(fs0, d, name, Entry(b, j));
    FindIs(fs0, d, name, Entry(b, j));
  }

  lemma NotHere(fs0: Fs, fs: Fs, d: Ref, n: nat, i: nat, b: nat, name: string)
    requires Searching(fs0, fs, d, n) && i < n && BlockRead(fs, d, i, b) && NotBefore(fs0, d, i, name)
    requires forall j | 0 <= j < |fs.blocks[b].files| :: fs.blocks[b].files[j].name != name
    ensures NotBefore(fs0, d, i + 1, name)
  {
    forall j ensures !Listed(fs0, d, i, j, name) {
      GrownListed(fs0, fs, d, i, j, name);
      HasEntries(fs, d, i, b, j);
    }
  }

  lemma NotAnywhere(fs0: Fs, d: Ref, n: nat, name: string)
    requires NotBefore(fs0, d, n, name) && FileAt(fs0, d).size / BLKSIZE <= n
    ensures Find(fs0, d, name) == None
  {
  }

  /** A directory that has no room for another block. */
  ghost predicate TooLong(fs: Fs, d: Ref) {
    Shape(fs) && Live(fs, d) && FileAt(fs, d).size >= MAXFILESIZE
  }

  /** No block of the directory has a record without a name. */
  ghost predicate NoRoom(fs: Fs, d: Ref) {
    Shape(fs) && Live(fs, d) && forall i: nat, j: nat :: !Listed(fs, d, i, j, "")
  }

  /** Why a search may break off: it comes to a missing block and there is none left to fill it
      with, or it comes beyond the largest file. */
  ghost predicate Excused(fs: Fs, d: Ref, name: string, e: int, free: seq<bool>) {
    && (e == -E_NO_DISK ==> Blocked(fs, d, name, true) && DiskFull(free))
    && (e == -E_INVAL ==> Blocked(fs, d, name, false))
  }

  lemma BrokenOff(fs0: Fs, fs: Fs, d: Ref, n: nat, i: nat, name: string, e: int, free: seq<bool>)
    requires Searching(fs0, fs, d, n) && i < n && Live(fs, d) && NotBefore(fs0, d, i, name)
    requires e == -E_NO_DISK ==> DiskFull(free) && i < NBLOCKS && SlotOf(fs, d, i) == 0
    requires e == -E_INVAL ==> i >= NBLOCKS
    ensures Excused(fs0, d, name, e, free)
    ensures e == -E_INVAL ==> TooLong(fs0, d)
  {
    assert Reads(fs0, d, name, i);
    assert i < NBLOCKS && SlotOf(fs0, d, i) != 0 ==> SlotOf(fs, d, i) == SlotOf(fs0, d, i);
    assert i >= NBLOCKS ==> FileAt(fs0, d).size >= MAXFILESIZE;
  }

  /** What a search has passed it has passed for good. */
  lemma NotBeforeStays(fs: Fs, fs': Fs, d: Ref, i: nat, name: string)
    requires Grown(fs, fs') && Inv(fs) && Live(fs, d) && FileAt(fs, d).ftype == DIR
    requires NotBefore(fs, d, i, name) && (name != "" || Present(fs, d, i))
    ensures NotBefore(fs', d, i, name)
  {
    forall i': nat, j: nat | i' < i ensures !Listed(fs', d, i', j, name) {
      if name != "" {
        GrownListed(fs, fs', d, i', j, name);
      } else if Listed(fs', d, i', j, name) {
        assert Live(fs, Entry(SlotOf(fs, d, i'), j)) && Listed(fs, d, i', j, name);
      }
    }
  }

  /** Where the search has broken off, the block is still missing. */
  lemma StillMissing(fs: Fs, d: Ref, i: nat, name: string, e: int)
    requires Shape(fs) && Live(fs, d) && NotBefore(fs, d, i, name) && i < FileAt(fs, d).size / BLKSIZE
    requires e == -E_NO_DISK ==> DiskFull(fs.free) && i < NBLOCKS && SlotOf(fs, d, i) == 0
    requires e == -E_INVAL ==> i >= NBLOCKS
    ensures Excused(fs, d, name, e, fs.free)
  {
    assert Reads(fs, d, name, i);
  }

  lemma SearchSelf(fs0: Fs, fs: Fs, d: Ref, n: nat)
    requires Searching(fs0, fs, d, n)
    ensures Searching(fs, fs, d, n) && Shape(fs) && Inv(fs) && Live(fs, d) && FileAt(fs, d).ftype == DIR
    ensures FileAt(fs, d).size / BLKSIZE == n && IsDir(fs, d)
  {
    SearchEnds(fs0, fs, d, n);
    GrownNot(fs);
  }

  lemma PresentMore(fs: Fs, fs': Fs, d: Ref, i: nat, b: nat)
    requires Grown(fs, fs') && Present(fs, d, i) && BlockRead(fs', d, i, b)
    ensures Present(fs', d, i + 1)
  {
  }

  /** The index of the first record of this name. */
  method IndexOf(files: seq<File>, name: string) returns (j: nat)
    ensures j <= |files| && forall k | 0 <= k < j :: files[k].name != name
    ensures j < |files| ==> files[j].name == name
  {
    j := 0;
    while j < |files|
      invariant j <= |files| && forall k | 0 <= k < j :: files[k].name != name
    {
      if files[j].name == name {
        return;
      }
      j := j + 1;
    }
  }

  /** dir_lookup.  Once it has come to an end, the blocks it has read are all there. */
  method DirLookup(fs: FileSystem, d: Ref, name: string) returns (e: int, r: Ref)
    requires Shape(fs.S()) && IsDir(fs.S(), d) && name != ""
    modifies fs
    ensures Shape(fs.S()) && IsDir(fs.S(), d) && Grown(old(fs.S()), fs.S())
    ensures e in {0, -E_NOT_FOUND, -E_NO_DISK, -E_INVAL}
    ensures e == 0 ==> Find(old(fs.S()), d, name) == Some(r)
    ensures e == -E_NOT_FOUND ==> Find(old(fs.S()), d, name) == None
    ensures Excused(old(fs.S()), d, name, e, fs.bitmap) && Excused(fs.S(), d, name, e, fs.bitmap)
    ensures e == 0 || e == -E_NOT_FOUND ==> Unblocked(fs.S(), d, name)
  {
    hide IsDir;
    hide Blocked;
    hide Unblocked;
    hide Present;
    hide Searching;
    hide NotBefore;
    hide Grown;
    hide Find;
    ghost var fs0 := fs.S();
    SearchStarts(fs0, d);
    var f := fs.GetFile(d);
    var n := f.size / BLKSIZE;
    r := Root;
    var i := 0;
    while i < n
      invariant i <= n && Searching(fs0, fs.S(), d, n) && NotBefore(fs0, d, i, name) && Present(fs.S(), d, i)
    {
      ghost var fs1 := fs.S();
      SearchNext(fs0, fs1, d, n, i);
      var b;
      e, b := fs.FileGetBlock(d, i);
      SearchGoesOn(fs0, fs1, fs.S(), d, n);
      SearchEnds(fs0, fs.S(), d, n);
      if e < 0 {
        BrokenOff(fs0, fs1, d, n, i, name, e, fs.bitmap);
        SearchSelf(fs0, fs0, d, n);
        NotBeforeStays(fs0, fs.S(), d, i, name);
        StillMissing(fs.S(), d, i, name, e);
        return;
      }
      SearchNext(fs0, fs.S(), d, n, i);
      PresentMore(fs1, fs.S(), d, i, b);
      var j := IndexOf(fs.blocks[b].files, name);
      if j < |fs.blocks[b].files| {
        FoundHere(fs0, fs.S(), d, n, i, b, j, name);
        FoundUnblocked(fs.S(), d, i, j, name);
        return 0, Entry(b, j);
      }
      NotHere(fs0, fs.S(), d, n, i, b, name);
      i := i + 1;
    }
    SearchEnds(fs0, fs.S(), d, n);
    NotAnywhere(fs0, d, n, name);
    AllUnblocked(fs.S(), d, name);
    e := -E_NOT_FOUND;
  }

  lemma SearchKeeps(fs0: Fs, fs: Fs, d: Ref, n: nat)
    requires Searching(fs0, fs, d, n)
    ensures Shape(fs) && IsDir(fs, d) && KeepsAll(fs0, fs) && FileAt(fs, d).size / BLKSIZE == n
  {
    GrownDirsOk(fs0, fs);
    GrownKeepsAll(fs0, fs);
  }

  lemma GrownKeepsAll(fs: Fs, fs': Fs)
    requires Grown(fs, fs') && Inv(fs) && Inv(fs') && DirsOk(fs)
    ensures KeepsAll(fs, fs')
  {
    GrownKeepsBytes(fs, fs');
    GrownKeepsNames(fs, fs');
    GrownKeepsEntries(fs, fs');
  }

  lemma BlankHere(fs0: Fs, fs: Fs, d: Ref, n: nat, i: nat, b: nat, j: nat)
    requires Searching(fs0, fs, d, n) && i < n && BlockRead(fs, d, i, b)
    requires j < |fs.blocks[b].files| && fs.blocks[b].files[j].name == ""
    ensures Shape(fs) && Live(fs, d) && Listed(fs, d, i, j, "")
  {
    HasEntries(fs, d, i, b, j);
  }

  lemma FirstBlank(fs: Fs, d: Ref, i: nat, b: nat, j: nat)
    requires BlockRead(fs, d, i, b) && Inv(fs)
    requires forall j' | 0 <= j' < j :: j' < |fs.blocks[b].files| && fs.blocks[b].files[j'].name != ""
    ensures forall j' | 0 <= j' < j :: !Listed(fs, d, i, j', "")
  {
    forall j' | 0 <= j' < j ensures !Listed(fs, d, i, j', "") { HasEntries(fs, d, i, b, j'); }
  }

  /** The directory has just been made a block longer. */
  lemma LongerDir(fs: Fs, d: Ref, n: nat)
    requires IsDir(fs, d) && Shape(fs) && FileAt(fs, d).size / BLKSIZE == n
    ensures var fs' := ExtendDir(fs, d);
            && Shape(fs') && IsDir(fs', d) && KeepsAll(fs, fs') && Searching(fs', fs', d, n + 1)
            && (n < NBLOCKS ==> SlotOf(fs', d, n) == 0)
  {
    hide KeepsBytes;
    hide KeepsEntries;
    hide ExtendDir;
    hide Inv;
    hide DirsOk;
    ExtendKeepsNames(fs, d);
    ExtendKeepsEntries(fs, d);
    ExtendAt(fs, d);
    WholeDir(fs, d);
    GrownNot(ExtendDir(fs, d));
    if n < NBLOCKS { BeyondEnd(fs, d, n); }
  }

  lemma LongerNotBefore(fs: Fs, d: Ref, n: nat)
    requires IsDir(fs, d) && Shape(fs) && FileAt(fs, d).size / BLKSIZE == n
    requires NotBefore(fs, d, n, "") && Present(fs, d, n)
    ensures NotBefore(ExtendDir(fs, d), d, n, "") && Present(ExtendDir(fs, d), d, n)
  {
    var fs' := ExtendDir(fs, d);
    ExtendAt(fs, d);
    forall i: nat, j: nat | i < n ensures !Listed(fs', d, i, j, "") { assert !Listed(fs, d, i, j, ""); }
  }

  lemma WholeDir(fs: Fs, d: Ref)
    requires Shape(fs) && DirsOk(fs) && Live(fs, d) && FileAt(fs, d).ftype == DIR
    ensures (FileAt(fs, d).size + BLKSIZE) / BLKSIZE == FileAt(fs, d).size / BLKSIZE + 1
  {
    WholeBlocks(FileAt(fs, d).size);
  }

  lemma NewBlockIsBlank(fs0: Fs, fs: Fs, d: Ref, n: nat, b: nat)
    requires Searching(fs0, fs, d, n + 1) && BlockRead(fs, d, n, b) && SlotOf(fs0, d, n) == 0
    ensures Shape(fs) && Live(fs, d) && Listed(fs, d, n, 0, "")
  {
    assert Nameless(fs, SlotOf(fs, d, n));
    HasEntries(fs, d, n, b, 0);
  }

  /** dir_alloc_file's loop: the first record without a name. */
  method BlankEntry(fs: FileSystem, d: Ref, n: nat) returns (e: int, r: Ref, ghost i: nat, ghost j: nat)
    requires Shape(fs.S()) && IsDir(fs.S(), d) && Live(fs.S(), d) && FileAt(fs.S(), d).size / BLKSIZE == n
    modifies fs
    ensures Searching(old(fs.S()), fs.S(), d, n) && e in {0, -E_NOT_FOUND, -E_NO_DISK, -E_INVAL}
    ensures Excused(old(fs.S()), d, "", e, fs.bitmap) && Excused(fs.S(), d, "", e, fs.bitmap)
    ensures e == -E_INVAL ==> TooLong(old(fs.S()), d)
    ensures e == -E_NOT_FOUND ==>
              NotBefore(old(fs.S()), d, n, "") && NotBefore(fs.S(), d, n, "") && Present(fs.S(), d, n)
    ensures e == 0 ==>
              && Shape(fs.S()) && Live(fs.S(), d) && Listed(fs.S(), d, i, j, "")
              && r == Entry(SlotOf(fs.S(), d, i), j) && i < n
              && NotBefore(fs.S(), d, i, "") && forall j' | 0 <= j' < j :: !Listed(fs.S(), d, i, j', "")
  {
    hide IsDir;
    hide Searching;
    hide NotBefore;
    hide Blocked;
    hide TooLong;
    hide Takes;
    hide Grown;
    hide Listed;
    hide Inv;
    ghost var fs0 := fs.S();
    SearchStarts(fs0, d);
    r, i, j := Root, 0, 0;
    var k := 0;
    while k < n
      invariant k <= n && Searching(fs0, fs.S(), d, n) && NotBefore(fs0, d, k, "")
      invariant NotBefore(fs.S(), d, k, "") && Present(fs.S(), d, k)
    {
      ghost var fs1 := fs.S();
      SearchNext(fs0, fs1, d, n, k);
      var b;
      e, b := fs.FileGetBlock(d, k);
      SearchGoesOn(fs0, fs1, fs.S(), d, n);
      NotBeforeStays(fs1, fs.S(), d, k, "");
      SearchSelf(fs0, fs.S(), d, n);
      if e < 0 {
        BrokenOff(fs0, fs1, d, n, k, "", e, fs.bitmap);
        StillMissing(fs.S(), d, k, "", e);
        return;
      }
      SearchNext(fs0, fs.S(), d, n, k);
      PresentMore(fs1, fs.S(), d, k, b);
      var m := IndexOf(fs.blocks[b].files, "");
      if m < |fs.blocks[b].files| {
        BlankHere(fs0, fs.S(), d, n, k, b, m);
        FirstBlank(fs.S(), d, k, b, m);
        return 0, Entry(b, m), k, m;
      }
      NotHere(fs0, fs.S(), d, n, k, b, "");
      NotHere(fs.S(), fs.S(), d, n, k, b, "");
      k := k + 1;
    }
    e := -E_NOT_FOUND;
  }

  /** dir_alloc_file: a record without a name in the directory, which may have become longer. */
  method DirAllocFile(fs: FileSystem, d: Ref) returns (e: int, r: Ref, ghost i: nat, ghost j: nat)
    requires Shape(fs.S()) && IsDir(fs.S(), d)
    modifies fs
    ensures Shape(fs.S()) && IsDir(fs.S(), d) && KeepsAll(old(fs.S()), fs.S())
    ensures e in {0, -E_NO_DISK, -E_INVAL}
    ensures e == -E_NO_DISK ==> DiskFull(fs.bitmap) && (Blocked(old(fs.S()), d, "", true) || NoRoom(old(fs.S()), d))
    ensures e == -E_INVAL ==> TooLong(old(fs.S()), d) && (Blocked(old(fs.S()), d, "", false) || NoRoom(old(fs.S()), d))
    ensures Excused(fs.S(), d, "", e, fs.bitmap)
    ensures e == 0 ==> Live(fs.S(), d) && Listed(fs.S(), d, i, j, "") && r == Entry(SlotOf(fs.S(), d, i), j)
    ensures e == 0 ==> Live(old(fs.S()), d) && i <= FileAt(old(fs.S()), d).size / BLKSIZE
    ensures e == 0 ==> NotBefore(fs.S(), d, i, "") && forall j' | 0 <= j' < j :: !Listed(fs.S(), d, i, j', "")
  {
    hide IsDir;
    hide Searching;
    hide NotBefore;
    hide Blocked;
    hide NoRoom;
    hide TooLong;
    hide KeepsAll;
    ghost var fs0 := fs.S();
    SearchStarts(fs0, d);
    var f := fs.GetFile(d);
    var n := f.size / BLKSIZE;
    e, r, i, j := BlankEntry(fs, d, n);
    ghost var fs1 := fs.S();
    SearchKeeps(fs0, fs1, d, n);
    if e == -E_NOT_FOUND {
      e, r := AppendEntry(fs, d, n);
      NoneBlank(fs0, d, n);
      KeepsAllTwice(fs0, fs1, fs.S());
      i, j := n, 0;
    }
  }

  lemma NoneBlank(fs: Fs, d: Ref, n: nat)
    requires NotBefore(fs, d, n, "") && FileAt(fs, d).size / BLKSIZE == n
    ensures NoRoom(fs, d) && (n >= NBLOCKS ==> TooLong(fs, d))
  {
  }

  /** Names, contents and the places of directory entries are kept. */
  ghost predicate KeepsAll(fs: Fs, fs': Fs) {
    KeepsNames(fs, fs') && KeepsBytes(fs, fs') && KeepsEntries(fs, fs')
  }

  lemma KeepsAllTwice(a: Fs, b: Fs, c: Fs)
    requires KeepsAll(a, b) && KeepsAll(b, c)
    ensures KeepsAll(a, c)
  {
    KeepsNamesTwice(a, b, c);
    KeepsBytesTwice(a, b, c);
    KeepsEntriesTwice(a, b, c);
  }

  method AppendEntry(fs: FileSystem, d: Ref, n: nat) returns (e: int, r: Ref)
    requires Shape(fs.S()) && IsDir(fs.S(), d) && Live(fs.S(), d) && FileAt(fs.S(), d).size / BLKSIZE == n
    requires NotBefore(fs.S(), d, n, "") && Present(fs.S(), d, n)
    modifies fs
    ensures Shape(fs.S()) && IsDir(fs.S(), d) && KeepsAll(old(fs.S()), fs.S())
    ensures e in {0, -E_NO_DISK, -E_INVAL} && Excused(fs.S(), d, "", e, fs.bitmap)
    ensures (e == -E_NO_DISK ==> DiskFull(fs.bitmap)) && (e == -E_INVAL ==> n >= NBLOCKS)
    ensures e == 0 ==> Live(fs.S(), d) && Listed(fs.S(), d, n, 0, "") && r == Entry(SlotOf(fs.S(), d, n), 0)
    ensures NotBefore(fs.S(), d, n, "")
  {
    hide IsDir;
    hide Searching;
    hide Grown;
    hide KeepsAll;
    hide NotBefore;
    hide Present;
    hide Excused;
    hide Listed;
    hide Takes;
    hide Inv;
    ghost var fs0 := fs.S();
    r := Root;
    LongerDir(fs0, d, n);
    var f := fs.GetFile(d);
    fs.SetFile(d, f.(size := f.size + BLKSIZE));
    ghost var fs1 := fs.S();
    assert fs1 == ExtendDir(fs0, d);
    SearchNext(fs1, fs1, d, n + 1, n);
    var b;
    e, b := fs.FileGetBlock(d, n);
    SearchGoesOn(fs1, fs1, fs.S(), d, n + 1);
    SearchKeeps(fs1, fs.S(), d, n + 1);
    KeepsAllTwice(fs0, fs1, fs.S());
    LongerNotBefore(fs0, d, n);
    SearchSelf(fs1, fs1, d, n + 1);
    NotBeforeStays(fs1, fs.S(), d, n, "");
    SearchSelf(fs1, fs.S(), d, n + 1);
    StillMissing(fs.S(), d, n, "", e);
    if e == 0 {
      NewBlockIsBlank(fs1, fs.S(), d, n, b);
      r := Entry(b, 0);
    }
  }

  // ---------------------------------------------------------------- paths

  /** skip_slash, as an index into the path. */
  method SkipSlashAt(path: string, p: nat) returns (q: nat)
    requires p <= |path|
    ensures p <= q <= |path| && path[q..] == SkipSlash(path[p..])
  {
    q := p;
    while q < |path| && path[q] == '/'
      invariant p <= q <= |path| && SkipSlash(path[q..]) == SkipSlash(path[p..])
    {
      assert path[q..][1..] == path[q + 1..];
      q := q + 1;
    }
  }

  /** The end of the component that starts at p. */
  method NameEnd(path: string, p: nat) returns (q: nat)
    requires p <= |path|
    ensures p <= q <= |path| && path[p..q] == FirstName(path[p..])
  {
    hide PartOfName;
    q := p;
    NameStarts(path, p);
    while q < |path| && path[q] != '/'
      invariant p <= q <= |path| && PartOfName(path, p, q)
    {
      NameGoesOn(path, p, q);
      q := q + 1;
    }
    NameStops(path, p, q);
  }

  /** The characters from p to q begin the component that starts at p. */
  ghost predicate PartOfName(path: string, p: nat, q: nat) {
    p <= q <= |path| && path[p..q] + FirstName(path[q..]) == FirstName(path[p..])
  }

  lemma NameStarts(path: string, p: nat)
    requires p <= |path|
    ensures PartOfName(path, p, p)
  {
  }

  lemma NameGoesOn(path: string, p: nat, q: nat)
    requires PartOfName(path, p, q) && q < |path| && path[q] != '/'
    ensures PartOfName(path, p, q + 1)
  {
    hide FirstName;
    FirstNameStep(path[q..]);
    var done, x, rest := path[p..q], path[q], FirstName(path[q + 1..]);
    assert path[q..][1..] == path[q + 1..];
    assert path[p..q + 1] == done + [x];
    assert done + ([x] + rest) == (done + [x]) + rest;
  }

  lemma FirstNameStep(s: string)
    requires s != "" && s[0] != '/'
    ensures FirstName(s) == [s[0]] + FirstName(s[1..])
  {
  }

  lemma NameStops(path: string, p: nat, q: nat)
    requires PartOfName(path, p, q) && (q == |path| || path[q] == '/')
    ensures path[p..q] == FirstName(path[p..])
  {
  }

  lemma NextComponent(path: string, p: nat, q: nat, p': nat)
    requires p < q <= p' <= |path| && path[p] != '/' && path[p..q] == FirstName(path[p..])
    requires path[p'..] == SkipSlash(path[q..])
    ensures Components(path[p..]) == [path[p..q]] + Components(path[p'..])
    ensures p' == |path| <==> Components(path[p'..]) == []
    ensures p' < |path| ==> path[p'] != '/'
  {
    assert path[p..][q - p..] == path[q..];
    SameAfterSkip(path[q..]);
    SkipTwice(path[q..]);
  }

  lemma NothingLeft(path: string)
    ensures Components(path[|path|..]) == []
  {
  }

  /** Part of the way: the rest of the path, from file f on, decides what the whole path means and
      whether it is blocked. */
  ghost predicate OnTheWay(fs0: Fs, fs: Fs, c: seq<string>, prev: Option<Ref>, f: Ref, rest: seq<string>) {
    && Grown(fs0, fs) && Inv(fs0) && Inv(fs) && DirsOk(fs0) && Live(fs0, f)
    && Walk(fs0, None, Root, c) == Walk(fs0, prev, f, rest)
    && LeadsOn(fs0, c, f, rest) && PassedClear(fs, c, f, rest)
  }

  /** What blocks the rest of the path blocks the path. */
  ghost predicate LeadsOn(fs: Fs, c: seq<string>, f: Ref, rest: seq<string>) {
    forall fs', hole | Grown(fs, fs') && Inv(fs') :: PathBlocked(fs', f, rest, hole) ==> PathBlocked(fs', Root, c, hole)
  }

  /** Nothing blocks the path from now on before it comes to file f. */
  ghost predicate PassedClear(fs: Fs, c: seq<string>, f: Ref, rest: seq<string>) {
    forall fs', hole | Grown(fs, fs') && Inv(fs') :: PathBlocked(fs', Root, c, hole) ==> PathBlocked(fs', f, rest, hole)
  }

  lemma AtTheStart(fs: Fs, c: seq<string>)
    requires Inv(fs) && DirsOk(fs)
    ensures OnTheWay(fs, fs, c, None, Root, c)
  {
  }

  lemma StillThere(fs0: Fs, fs: Fs, c: seq<string>, prev: Option<Ref>, f: Ref, rest: seq<string>)
    requires OnTheWay(fs0, fs, c, prev, f, rest)
    ensures Shape(fs) && Live(fs, f) && Inv(fs) && DirsOk(fs) && Grown(fs0, fs)
    ensures FileAt(fs, f).ftype == DIR ==> IsDir(fs, f)
  {
    GrownDirsOk(fs0, fs);
  }

  /** What walk_path reports for a file system in which a path leads to w. */
  predicate Reports(w: Walked, e: int, dir: Option<Ref>, f: Ref, last: string) {
    && (e == 0 ==> w == Found(dir, f))
    && (e == -E_BAD_PATH ==> w == BadPath)
    && (e == -E_NOT_FOUND ==> w == if dir.Some? then Missing(dir.value, last) else NotFound)
    && e in {0, -E_BAD_PATH, -E_NOT_FOUND, -E_NO_DISK, -E_INVAL}
  }

  lemma StopsHere(fs0: Fs, fs: Fs, c: seq<string>, prev: Option<Ref>, f: Ref, rest: seq<string>)
    requires OnTheWay(fs0, fs, c, prev, f, rest)
    ensures Shape(fs0) && Shape(fs) && Live(fs, f)
    ensures rest == [] ==> Walk(fs0, None, Root, c) == Found(prev, f)
    ensures rest != [] && |rest[0]| >= MAXNAMELEN ==> Walk(fs0, None, Root, c) == BadPath
    ensures rest != [] && |rest[0]| < MAXNAMELEN && FileAt(fs, f).ftype != DIR ==> Walk(fs0, None, Root, c) == NotFound
    ensures rest == [] || |rest[0]| >= MAXNAMELEN || FileAt(fs, f).ftype != DIR ==> PathClear(fs, Root, c)
  {
    GrownNot(fs);
  }

  /** One component has been looked up. */
  lemma StepsOn(fs0: Fs, fs1: Fs, fs2: Fs, c: seq<string>, prev: Option<Ref>, d: Ref, rest: seq<string>, e: int, r: Ref)
    requires OnTheWay(fs0, fs1, c, prev, d, rest) && Grown(fs1, fs2) && IsDir(fs2, d) && Shape(fs1)
    requires rest != [] && rest[0] != "" && |rest[0]| < MAXNAMELEN && e in {0, -E_NOT_FOUND, -E_NO_DISK, -E_INVAL}
    requires e == 0 ==> Find(fs1, d, rest[0]) == Some(r)
    requires e == -E_NOT_FOUND ==> Find(fs1, d, rest[0]) == None
    requires e == 0 || e == -E_NOT_FOUND ==> Unblocked(fs2, d, rest[0])
    ensures Shape(fs0) && Inv(fs2) && DirsOk(fs2) && Grown(fs0, fs2)
    ensures e == 0 ==> OnTheWay(fs0, fs2, c, Some(d), r, rest[1..])
    ensures e == -E_NOT_FOUND ==> PathClear(fs2, Root, c)
    ensures e == -E_NOT_FOUND ==>
              Walk(fs0, None, Root, c) == if |rest| == 1 then Missing(d, rest[0]) else NotFound
  {
    hide PathBlocked;
    hide PassedClear;
    hide Blocked;
    GrownTwice(fs0, fs1, fs2);
    GrownKeepsNames(fs0, fs1);
    assert FileAt(fs0, d).ftype == DIR;
    if e == 0 {
      FindIs(fs0, d, rest[0], r);
      FindIs(fs1, d, rest[0], r);
      LeadsFurther(fs0, c, d, rest, r);
      PassesOn(fs1, fs2, c, d, rest, r);
    }
    if e == -E_NOT_FOUND { ComesToAnEnd(fs1, fs2, c, d, rest); }
  }

  lemma BlockedThere(fs: Fs, d: Ref, rest: seq<string>)
    requires Shape(fs) && Live(fs, d) && FileAt(fs, d).ftype == DIR && rest != [] && |rest[0]| < MAXNAMELEN
    ensures forall hole :: PathBlocked(fs, d, rest, hole) <==>
              || Blocked(fs, d, rest[0], hole)
              || (Find(fs, d, rest[0]).Some? && PathBlocked(fs, Find(fs, d, rest[0]).value, rest[1..], hole))
  {
  }

  lemma LeadsFurther(fs: Fs, c: seq<string>, d: Ref, rest: seq<string>, r: Ref)
    requires LeadsOn(fs, c, d, rest) && Inv(fs) && DirsOk(fs) && Live(fs, d) && FileAt(fs, d).ftype == DIR
    requires rest != [] && rest[0] != "" && |rest[0]| < MAXNAMELEN && Find(fs, d, rest[0]) == Some(r)
    ensures LeadsOn(fs, c, r, rest[1..])
  {
    hide PathBlocked;
    hide Blocked;
    hide DirsOk;
    hide Find;
    forall fs', hole | Grown(fs, fs') && Inv(fs') && PathBlocked(fs', r, rest[1..], hole)
      ensures PathBlocked(fs', Root, c, hole)
    {
      GrownKeepsNames(fs, fs');
      BlockedThere(fs', d, rest);
      assert PathBlocked(fs', d, rest, hole);
    }
  }

  lemma PassesOn(fs1: Fs, fs2: Fs, c: seq<string>, d: Ref, rest: seq<string>, r: Ref)
    requires PassedClear(fs1, c, d, rest) && Inv(fs1) && DirsOk(fs1) && Grown(fs1, fs2) && Inv(fs2)
    requires Live(fs1, d) && FileAt(fs1, d).ftype == DIR && rest != [] && rest[0] != "" && |rest[0]| < MAXNAMELEN
    requires Unblocked(fs2, d, rest[0]) && Find(fs1, d, rest[0]) == Some(r)
    ensures PassedClear(fs2, c, r, rest[1..])
  {
    hide Blocked;
    hide DirsOk;
    hide Find;
    forall fs', hole | Grown(fs2, fs') && Inv(fs') && PathBlocked(fs', Root, c, hole)
      ensures PathBlocked(fs', r, rest[1..], hole)
    {
      StillUnblocked(fs1, fs2, fs', d, rest[0], hole);
      assert PathBlocked(fs', d, rest, hole);
    }
  }

  lemma StillUnblocked(fs1: Fs, fs2: Fs, fs': Fs, d: Ref, name: string, hole: bool)
    requires Inv(fs1) && DirsOk(fs1) && Grown(fs1, fs2) && Inv(fs2) && Live(fs1, d) && FileAt(fs1, d).ftype == DIR
    requires name != ""
    requires Unblocked(fs2, d, name) && Grown(fs2, fs') && Inv(fs')
    ensures Grown(fs1, fs') && !Blocked(fs', d, name, hole) && Find(fs', d, name) == Find(fs1, d, name)
  {
    GrownTwice(fs1, fs2, fs');
    GrownKeepsNames(fs1, fs');
    if Blocked(fs', d, name, hole) { GrownUnblocks(fs2, fs', d, name, hole); }
  }

  /** The last search has come to an end without the name. */
  lemma ComesToAnEnd(fs1: Fs, fs2: Fs, c: seq<string>, d: Ref, rest: seq<string>)
    requires PassedClear(fs1, c, d, rest) && Inv(fs1) && DirsOk(fs1) && Grown(fs1, fs2) && Inv(fs2)
    requires Live(fs1, d) && FileAt(fs1, d).ftype == DIR && rest != [] && rest[0] != "" && |rest[0]| < MAXNAMELEN
    requires Unblocked(fs2, d, rest[0]) && Find(fs1, d, rest[0]) == None
    ensures PathClear(fs2, Root, c)
  {
    GrownNot(fs2);
    StillUnblocked(fs1, fs2, fs2, d, rest[0], true);
  }

  /** Where a search breaks off, the path was blocked. */
  lemma EarlierExcuse(fs0: Fs, fs1: Fs, fs2: Fs, c: seq<string>, prev: Option<Ref>, d: Ref, rest: seq<string>, e: int)
    requires OnTheWay(fs0, fs1, c, prev, d, rest) && IsDir(fs1, d) && rest != [] && |rest[0]| < MAXNAMELEN
    requires Grown(fs1, fs2) && IsDir(fs2, d) && Excused(fs2, d, rest[0], e, fs2.free)
    ensures Shape(fs0) && (e == -E_NO_DISK ==> DiskFull(fs2.free) && BlockedStill(fs0, fs2, c, true))
    ensures e == -E_INVAL ==> BlockedStill(fs0, fs2, c, false)
  {
    hide Blocked;
    hide DirsOk;
    GrownTwice(fs0, fs1, fs2);
    GrownNot(fs0);
    if e == -E_NO_DISK { BlockedBoth(fs0, fs2, c, d, rest, true); }
    if e == -E_INVAL { BlockedBoth(fs0, fs2, c, d, rest, false); }
  }

  /** The path was blocked and still is. */
  ghost predicate BlockedStill(fs: Fs, fs': Fs, c: seq<string>, hole: bool) {
    Shape(fs) && Shape(fs') && PathBlocked(fs, Root, c, hole) && PathBlocked(fs', Root, c, hole)
  }

  lemma BlockedBoth(fs: Fs, fs': Fs, c: seq<string>, d: Ref, rest: seq<string>, hole: bool)
    requires LeadsOn(fs, c, d, rest) && Grown(fs, fs') && Grown(fs, fs) && Inv(fs) && Inv(fs')
    requires Live(fs, d) && FileAt(fs, d).ftype == DIR && rest != [] && |rest[0]| < MAXNAMELEN
    requires Blocked(fs', d, rest[0], hole)
    ensures BlockedStill(fs, fs', c, hole)
  {
    GrownUnblocks(fs, fs', d, rest[0], hole);
    hide Blocked;
    assert PathBlocked(fs, d, rest, hole) && PathBlocked(fs', d, rest, hole);
  }

  /** walk_path.  What it reports is a function of the path's components. */
  method WalkPath(fs: FileSystem, path: string) returns (e: int, dir: Option<Ref>, f: Ref, last: string)
    requires fs.Valid() && DirsOk(fs.S())
    modifies fs
    ensures fs.Valid() && DirsOk(fs.S()) && Grown(old(fs.S()), fs.S())
    ensures Reports(Walk(old(fs.S()), None, Root, Components(path)), e, dir, f, last)
    ensures e == -E_NO_DISK ==> DiskFull(fs.bitmap) && BlockedStill(old(fs.S()), fs.S(), Components(path), true)
    ensures e == -E_INVAL ==> BlockedStill(old(fs.S()), fs.S(), Components(path), false)
    ensures e != -E_NO_DISK && e != -E_INVAL ==> PathClear(fs.S(), Root, Components(path))
  {
    hide Excused;
    hide PathBlocked;
    hide PathClear;
    hide Unblocked;
    hide OnTheWay;
    hide IsDir;
    hide Inv;
    hide DirsOk;
    hide Grown;
    hide Walk;
    hide Find;
    hide Components;
    hide BlockedStill;
    ghost var fs0, c := fs.S(), Components(path);
    var p := SkipSlashAt(path, 0);
    assert path[0..] == path;
    SameAfterSkip(path);
    AtTheStart(fs0, c);
    f, dir, last := Root, None, "";
    while p < |path|
      invariant p <= |path| && (p < |path| ==> path[p] != '/')
      invariant OnTheWay(fs0, fs.S(), c, dir, f, Components(path[p..]))
    {
      StillThere(fs0, fs.S(), c, dir, f, Components(path[p..]));
      StopsHere(fs0, fs.S(), c, dir, f, Components(path[p..]));
      var q := NameEnd(path, p);
      ghost var rest := Components(path[p..]);
      var next := SkipSlashAt(path, q);
      NextComponent(path, p, q, next);
      if q - p >= MAXNAMELEN {
        return -E_BAD_PATH, None, Root, "";
      }
      var name := path[p..q];
      var rec := fs.GetFile(f);
      if rec.ftype != DIR {
        return -E_NOT_FOUND, None, Root, "";
      }
      ghost var fs1 := fs.S();
      var r;
      e, r := DirLookup(fs, f, name);
      StepsOn(fs0, fs1, fs.S(), c, dir, f, rest, e, r);
      EarlierExcuse(fs0, fs1, fs.S(), c, dir, f, rest, e);
      if e < 0 {
        if e == -E_NOT_FOUND && next == |path| {
          return e, Some(f), Root, name;
        }
        return e, None, Root, "";
      }
      dir, f, p := Some(f), r, next;
      assert rest[1..] == Components(path[p..]);
    }
    NothingLeft(path);
    StillThere(fs0, fs.S(), c, dir, f, Components(path[p..]));
    StopsHere(fs0, fs.S(), c, dir, f, Components(path[p..]));
    e := 0;
  }

  /** file_open. */
  method FileOpen(fs: FileSystem, path: string) returns (e: int, f: Ref)
    requires fs.Valid() && DirsOk(fs.S())
    modifies fs
    ensures fs.Valid() && DirsOk(fs.S()) && Grown(old(fs.S()), fs.S())
    ensures e == 0 ==> exists dir :: Walk(old(fs.S()), None, Root, Components(path)) == Found(dir, f)
    ensures e == -E_BAD_PATH ==> Walk(old(fs.S()), None, Root, Components(path)) == BadPath
    ensures e == -E_NOT_FOUND ==>
              var w := Walk(old(fs.S()), None, Root, Components(path)); w == NotFound || w.Missing?
    ensures e in {0, -E_BAD_PATH, -E_NOT_FOUND, -E_NO_DISK, -E_INVAL}
    ensures e == -E_NO_DISK ==> DiskFull(fs.bitmap) && BlockedStill(old(fs.S()), fs.S(), Components(path), true)
    ensures e == -E_INVAL ==> BlockedStill(old(fs.S()), fs.S(), Components(path), false)
    ensures e in {0, -E_BAD_PATH, -E_NOT_FOUND} ==> PathClear(fs.S(), Root, Components(path))
    ensures PathClear(old(fs.S()), Root, Components(path)) ==>
              (e == 0 <==> Walk(old(fs.S()), None, Root, Components(path)).Found?)
  {
    hide Inv;
    hide DirsOk;
    hide Grown;
    hide Walk;
    hide PathBlocked;
    var dir, last;
    e, dir, f, last := WalkPath(fs, path);
  }

  /** Every path means what it meant. */
  ghost predicate SamePaths(fs: Fs, fs': Fs) {
    Shape(fs) && Shape(fs') && forall c | Proper(c) :: Walk(fs', None, Root, c) == Walk(fs, None, Root, c)
  }

  /** The path c leads to the new, empty file f in directory d, which had no name, and every path
      that led somewhere still leads there. */
  ghost predicate Created(fs: Fs, fs': Fs, c: seq<string>, d: Ref, f: Ref) {
    && Shape(fs) && Shape(fs') && Walk(fs', None, Root, c) == Found(Some(d), f)
    && (forall c' | Proper(c') && Walk(fs, None, Root, c').Found? ::
          Walk(fs', None, Root, c') == Walk(fs, None, Root, c'))
    && Live(fs', f) && FileAt(fs', f).size == 0 && FileAt(fs', f).ftype == REG && FileAt(fs', f).name != ""
    && (Live(fs, f) ==> FileAt(fs, f).name == "")
  }

  lemma KeepsSamePaths(fs: Fs, fs': Fs)
    requires KeepsNames(fs, fs')
    ensures SamePaths(fs, fs')
  {
    forall c | Proper(c)
      ensures Walk(fs', None, Root, c) == Walk(fs, None, Root, c)
    {
      KeepsWalk(fs, fs', None, Root, c);
    }
  }

  lemma SearchedPath(fs0: Fs, fs1: Fs, c: seq<string>)
    requires Inv(fs0) && DirsOk(fs0) && Grown(fs0, fs1) && Inv(fs1) && Proper(c)
    ensures Shape(fs0) && Shape(fs1) && KeepsAll(fs0, fs1) && SamePaths(fs0, fs1)
    ensures var w := Walk(fs0, None, Root, c);
            w.Missing? ==>
              && Live(fs0, w.parent) && IsDir(fs1, w.parent) && Find(fs1, w.parent, w.last) == None
              && w.last != "" && Walk(fs1, None, Root, c) == w
  {
    GrownKeepsAll(fs0, fs1);
    KeepsSamePaths(fs0, fs1);
    if Walk(fs0, None, Root, c).Missing? { MissingMeans(fs0, None, Root, c); }
  }

  /** The record gets its name. */
  lemma NameGiven(fs0: Fs, fs1: Fs, fs2: Fs, c: seq<string>, i: nat, j: nat)
    requires Shape(fs0) && Shape(fs2) && KeepsAll(fs0, fs1) && KeepsAll(fs1, fs2) && Proper(c)
    requires Walk(fs0, None, Root, c).Missing?
    requires var d := Walk(fs0, None, Root, c).parent; IsDir(fs2, d) && Listed(fs2, d, i, j, "")
    ensures var d, name := Walk(fs0, None, Root, c).parent, Walk(fs0, None, Root, c).last;
            var r := Entry(SlotOf(fs2, d, i), j);
            && Live(fs2, r) && Inv(Rename(fs2, r, name)) && DirsOk(Rename(fs2, r, name))
            && Created(fs0, Rename(fs2, r, name), c, d, r) && KeepsBytes(fs2, Rename(fs2, r, name))
  {
    hide Inv;
    hide DirsOk;
    hide Rename;
    KeepsAllTwice(fs0, fs1, fs2);
    var d, name := Walk(fs0, None, Root, c).parent, Walk(fs0, None, Root, c).last;
    BeforeNaming(fs0, fs2, c);
    var r := Entry(SlotOf(fs2, d, i), j);
    RenameAddsName(fs2, d, i, j, name);
    RenameAt(fs2, r, name);
    BlankRecord(fs2, r);
    var fs' := Rename(fs2, r, name);
    KeepsSamePaths(fs0, fs2);
    forall c' | Proper(c')
      ensures Walk(fs2, None, Root, c').Found? ==> Walk(fs', None, Root, c') == Walk(fs2, None, Root, c')
      ensures Walk(fs2, None, Root, c') == Missing(d, name) ==> Walk(fs', None, Root, c') == Found(Some(d), r) {
      AddedWalk(fs2, fs', d, name, r, None, Root, c');
    }
  }

  /** The directory holds the new name, and all its blocks up to there are present. */
  lemma NewNamePresent(fs1: Fs, fs2: Fs, d: Ref, name: string, i: nat, j: nat)
    requires KeepsAll(fs1, fs2) && IsDir(fs1, d) && IsDir(fs2, d) && name != "" && Find(fs1, d, name) == None
    requires Unblocked(fs1, d, name)
    requires Listed(fs2, d, i, j, "") && i <= FileAt(fs1, d).size / BLKSIZE
    ensures var fs' := Rename(fs2, Entry(SlotOf(fs2, d, i), j), name); KeepsEntries(fs1, fs') && Unblocked(fs', d, name)
  {
    hide Inv;
    hide DirsOk;
    hide Rename;
    hide Unblocked;
    var r := Entry(SlotOf(fs2, d, i), j);
    var fs' := Rename(fs2, r, name);
    SeenAll(fs1, d, name);
    RenameKeepsEntries(fs2, r, name);
    KeepsEntriesTwice(fs1, fs2, fs');
    RenameListed(fs2, d, i, j, name, d, i, j, name);
    FoundUnblocked(fs', d, i, j, name);
  }

  /** The way to the new file is clear. */
  lemma NewPathClear(fs1: Fs, fs2: Fs, c: seq<string>, i: nat, j: nat)
    requires Shape(fs1) && Shape(fs2) && KeepsAll(fs1, fs2) && Proper(c) && Walk(fs1, None, Root, c).Missing?
    requires PathClear(fs1, Root, c)
    requires var d := Walk(fs1, None, Root, c).parent;
             IsDir(fs1, d) && IsDir(fs2, d) && Listed(fs2, d, i, j, "") && i <= FileAt(fs1, d).size / BLKSIZE
    ensures var d, name := Walk(fs1, None, Root, c).parent, Walk(fs1, None, Root, c).last;
            && Shape(Rename(fs2, Entry(SlotOf(fs2, d, i), j), name))
            && PathClear(Rename(fs2, Entry(SlotOf(fs2, d, i), j), name), Root, c)
  {
    hide Inv;
    hide DirsOk;
    hide Rename;
    hide Unblocked;
    hide PathClear;
    hide KeepsEntries;
    var d, name := Walk(fs1, None, Root, c).parent, Walk(fs1, None, Root, c).last;
    var r := Entry(SlotOf(fs2, d, i), j);
    MissingMeans(fs1, None, Root, c);
    MissingUnblocked(fs1, None, Root, c);
    BeforeNaming(fs1, fs2, c);
    NewNamePresent(fs1, fs2, d, name, i, j);
    RenameAt(fs2, r, name);
    RenameAddsName(fs2, d, i, j, name);
    KeepsThenAdds(fs1, fs2, Rename(fs2, r, name), d, name, r);
    AddedClear(fs1, Rename(fs2, r, name), d, name, r, None, Root, c);
  }

  lemma BeforeNaming(fs0: Fs, fs2: Fs, c: seq<string>)
    requires KeepsNames(fs0, fs2) && Proper(c) && Walk(fs0, None, Root, c).Missing?
    ensures var w := Walk(fs0, None, Root, c); Shape(fs2) && Find(fs2, w.parent, w.last) == None && w.last != ""
  {
    MissingMeans(fs0, None, Root, c);
  }

  lemma BlankRecord(fs: Fs, r: Ref)
    requires Shape(fs) && DirsOk(fs) && Live(fs, r) && FileAt(fs, r).name == ""
    ensures FileAt(fs, r).size == 0 && FileAt(fs, r).ftype == REG
  {
  }

  /** Why file_create may fail for want of blocks: the way to the directory is blocked, or the
      directory needs one more block. */
  ghost predicate CreateExcused(fs: Fs, c: seq<string>, e: int, free: seq<bool>) {
    && Shape(fs) && (e == -E_NO_DISK ==> DiskFull(free))
    && var w := Walk(fs, None, Root, c);
    && (e == -E_NO_DISK ==> PathBlocked(fs, Root, c, true) || (w.Missing? && NoRoom(fs, w.parent)))
    && (e == -E_INVAL ==>
          PathBlocked(fs, Root, c, false) || (w.Missing? && NoRoom(fs, w.parent) && TooLong(fs, w.parent)))
  }

  /** The block that was missing then is missing still. */
  ghost predicate StuckCreating(fs: Fs, fs': Fs, c: seq<string>, hole: bool)
    requires Shape(fs)
  {
    var w := Walk(fs, None, Root, c);
    BlockedStill(fs, fs', c, hole) || (w.Missing? && Blocked(fs', w.parent, "", hole))
  }

  /** file_create. */
  method FileCreate(fs: FileSystem, path: string) returns (e: int, f: Ref)
    requires fs.Valid() && DirsOk(fs.S())
    modifies fs
    ensures fs.Valid() && DirsOk(fs.S()) && KeepsBytes(old(fs.S()), fs.S())
    ensures var w := Walk(old(fs.S()), None, Root, Components(path));
            && (e == -E_FILE_EXISTS ==> w.Found?)
            && (e == -E_NOT_FOUND ==> w == NotFound)
            && (e == -E_BAD_PATH ==> w == BadPath)
            && (e == 0 ==> w.Missing? && Created(old(fs.S()), fs.S(), Components(path), w.parent, f))
    ensures e < 0 ==> SamePaths(old(fs.S()), fs.S())
    ensures e in {0, -E_FILE_EXISTS, -E_NOT_FOUND, -E_BAD_PATH, -E_NO_DISK, -E_INVAL}
    ensures CreateExcused(old(fs.S()), Components(path), e, fs.bitmap)
    ensures e == -E_NO_DISK ==> StuckCreating(old(fs.S()), fs.S(), Components(path), true)
    ensures e == -E_INVAL ==> StuckCreating(old(fs.S()), fs.S(), Components(path), false)
    ensures e == 0 ==> PathClear(fs.S(), Root, Components(path))
  {
    hide TooLong;
    hide NoRoom;
    hide Inv;
    hide DirsOk;
    hide Grown;
    hide KeepsAll;
    hide KeepsBytes;
    hide PathBlocked;
    hide PathClear;
    hide Blocked;
    hide SamePaths;
    hide Walk;
    hide Find;
    hide IsDir;
    hide Created;
    ghost var fs0, c := fs.S(), Components(path);
    var dir, name;
    e, dir, f, name := WalkPath(fs, path);
    ghost var fs1 := fs.S();
    SearchedPath(fs0, fs1, c);
    if e == 0 {
      return -E_FILE_EXISTS, f;
    }
    if e != -E_NOT_FOUND || dir.None? {
      return;
    }
    ghost var i, j;
    e, f, i, j := DirAllocFile(fs, dir.value);
    ghost var fs2 := fs.S();
    AllocatedEntry(fs0, fs1, fs2, dir.value);
    if e < 0 {
      NoRoomBefore(fs0, fs1, c);
      return;
    }
    NameGiven(fs0, fs1, fs2, c, i, j);
    NewPathClear(fs1, fs2, c, i, j);
    var rec := fs.GetFile(f);
    fs.SetFile(f, rec.(name := name));
    assert fs.S() == Rename(fs2, f, name);
    KeepsBytesTwice(fs0, fs2, fs.S());
  }

  /** The search for the name has seen all of the directory, so that the search for a record
      without a name cannot be blocked; if the directory had no room then, it had none before. */
  lemma NoRoomBefore(fs0: Fs, fs1: Fs, c: seq<string>)
    requires Inv(fs0) && DirsOk(fs0) && Grown(fs0, fs1) && Shape(fs1) && Proper(c) && Walk(fs1, None, Root, c).Missing?
    requires PathClear(fs1, Root, c)
    requires IsDir(fs1, Walk(fs1, None, Root, c).parent) && Live(fs0, Walk(fs1, None, Root, c).parent)
    ensures var d := Walk(fs1, None, Root, c).parent;
            && Unblocked(fs1, d, "") && (TooLong(fs1, d) ==> TooLong(fs0, d)) && (NoRoom(fs1, d) ==> NoRoom(fs0, d))
  {
    hide Inv;
    hide Unblocked;
    var d, name := Walk(fs1, None, Root, c).parent, Walk(fs1, None, Root, c).last;
    MissingMeans(fs1, None, Root, c);
    MissingUnblocked(fs1, None, Root, c);
    SeenAll(fs1, d, name);
    AllUnblocked(fs1, d, "");
    forall i: nat, j: nat
      ensures Listed(fs0, d, i, j, "") ==> Listed(fs1, d, i, j, "")
    {
      GrownListed(fs0, fs1, d, i, j, "");
    }
  }

  lemma AllocatedEntry(fs0: Fs, fs1: Fs, fs2: Fs, d: Ref)
    requires KeepsAll(fs0, fs1) && KeepsAll(fs1, fs2) && IsDir(fs2, d)
    ensures Inv(fs2) && DirsOk(fs2) && KeepsBytes(fs0, fs2) && SamePaths(fs0, fs2)
  {
    KeepsAllTwice(fs0, fs1, fs2);
    KeepsSamePaths(fs0, fs2);
  }

  /** A file that has been created is found under every spelling of its path. */
  method CreateThenOpen(fs: FileSystem, path: string, path': string) returns (e: int, f: Ref, e': int, f': Ref)
    requires fs.Valid() && DirsOk(fs.S()) && Components(path') == Components(path)
    modifies fs
    ensures fs.Valid() && DirsOk(fs.S())
    ensures e == 0 ==> e' == 0 && f' == f
  {
    hide Inv;
    hide DirsOk;
    hide Grown;
    hide Walk;
    hide KeepsBytes;
    hide PathBlocked;
    e, f := FileCreate(fs, path);
    e', f' := FileOpen(fs, path');
  }
}
