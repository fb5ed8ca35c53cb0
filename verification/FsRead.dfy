/** Mapping a run of file blocks to disk blocks, reading bytes, and what the bytes of a
    file are once it is read as a plain sequence. */
module FsRead {
  import opened FsBytes
  import Chains
  import opened FsMap
  import opened FsTree
  import opened FsFiles
  import opened FsFree
  import opened FsIO

  const EMPTY_BLOCK: int := -1
  const READGROUP: int := 16
  const READAHEAD: int := 8

  /** How vmap reports block `n` of a file. */
  ghost function Entry(d: Disk, ino: Inode, n: int): int
    requires IsDisk(d) && |ino.addr| == NADDR && 0 <= n < BPFMAX
  {
    var b := Locate(d, ino, n);
    if b == 0 then EMPTY_BLOCK else b
  }

  /** `list[from..from + n]` are the entries of the blocks of file `ino` from `block` on. */
  ghost predicate Mapped(d: Disk, ino: Inode, list: seq<int>, from: int, n: int, block: int)
    requires IsDisk(d) && |ino.addr| == NADDR
  {
    && 0 <= from && 0 <= n && from + n <= |list| && 0 <= block && block + n <= BPFMAX
    && forall j :: 0 <= j < n ==> EntryAt(d, ino, list, from, block, j)
  }

  ghost predicate EntryAt(d: Disk, ino: Inode, list: seq<int>, from: int, block: int, j: int)
    requires IsDisk(d) && |ino.addr| == NADDR && 0 <= from <= from + j < |list| && 0 <= block <= block + j < BPFMAX
  {
    list[from + j] == Entry(d, ino, block + j)
  }

  // ----- a run of blocks below one indirect block -----

  lemma RunPath(n: int, j: int)
    requires 0 <= n < BPFMAX && 0 <= j < RunLength(n)
    ensures n + j < BPFMAX && IsPath(PathOf(n)) && IsPath(PathOf(n + j))
    ensures var p, q := PathOf(n), PathOf(n + j);
            && |q| == |p| && q[|q| - 1] == p[|p| - 1] + j
            && (|p| > 1 ==> q[0] == p[0] && q[1..] == p[1..|p| - 1] + [p[|p| - 1] + j])
  {
    hide PathOf;
    RunAdvancesLeaf(n, j);
    PathRoundTrip(n);
    PathRoundTrip(n + j);
  }

  lemma RunDirect(d: Disk, ino: Inode, n: int, j: int)
    requires IsDisk(d) && |ino.addr| == NADDR && 0 <= n < BPFMAX && 0 <= j < RunLength(n) && IsPath(PathOf(n))
    requires |PathOf(n)| == 1
    ensures n + j < NADDR && PathOf(n) == [n] && Locate(d, ino, n + j) == ino.addr[n + j]
  {
    RunPath(n, j);
    assert PathOf(n + j)[1..] == [];
  }

  lemma RunLeaf(d: Disk, ino: Inode, n: int, j: int, b: int)
    requires IsDisk(d) && |ino.addr| == NADDR && 0 <= n < BPFMAX && 0 <= j < RunLength(n) && IsPath(PathOf(n))
    requires |PathOf(n)| > 1
    requires var p := PathOf(n); On(d, b) && b == Follow(d, ino.addr[p[0]], p[1..|p| - 1])
    ensures var p := PathOf(n);
              0 <= p[|p| - 1] + j < NBN && n + j < BPFMAX && Locate(d, ino, n + j) == Addr(d[b], p[|p| - 1] + j)
  {
    hide PathOf, Addr, Follow;
    RunPath(n, j);
    var p := PathOf(n);
    FollowOn(d, ino.addr[p[0]], p[1..|p| - 1], p[|p| - 1] + j);
  }

  lemma RunHole(d: Disk, ino: Inode, n: int, j: int, k: int)
    requires IsDisk(d) && |ino.addr| == NADDR && 0 <= n < BPFMAX && 0 <= j < RunLength(n) && IsPath(PathOf(n))
    requires 1 <= k < |PathOf(n)|
    requires Follow(d, ino.addr[PathOf(n)[0]], PathOf(n)[1..k]) == 0
    ensures n + j < BPFMAX && Locate(d, ino, n + j) == 0
  {
    hide PathOf, Follow;
    RunPath(n, j);
    var p, q := PathOf(n), PathOf(n + j);
    assert p[1..k] == q[1..][..k - 1];
    HolesBelow(d, ino.addr[p[0]], p[1..k], q[1..]);
  }

  // ----- vmap -----

  /** The blocks read so far on the way down: `b` is the indirect block that the first `k`
      steps of the path of block `n` lead to. */
  ghost predicate Descended(d: Disk, ino: Inode, n: int, k: int, b: int)
    requires IsDisk(d) && |ino.addr| == NADDR && 0 <= n < BPFMAX
  {
    && IsPath(PathOf(n)) && 0 <= k < |PathOf(n)|
    && if k == 0 then b == 0 else b == Follow(d, ino.addr[PathOf(n)[0]], PathOf(n)[1..k])
  }

  /** The address for step `k` of the path, or at a leaf for one of its neighbours. */
  function Outlist(d: Disk, ino: Inode, b: int, i: int): int
    requires IsDisk(d) && |ino.addr| == NADDR && if b == 0 then 0 <= i < NADDR else On(d, b) && 0 <= i < NBN
  {
    if b == 0 then ino.addr[i] else Addr(d[b], i)
  }

  lemma OneStep(d: Disk, ino: Inode, n: int, k: int, b: int)
    requires IsDisk(d) && |ino.addr| == NADDR && 0 <= n < BPFMAX && Descended(d, ino, n, k, b) && k + 1 < |PathOf(n)|
    requires (k > 0 ==> On(d, b))
    ensures Descended(d, ino, n, k + 1, Outlist(d, ino, b, PathOf(n)[k]))
  {
    hide PathOf, Addr, Follow;
    var p := PathOf(n);
    if k > 0 {
      assert p[1..k + 1] == p[1..k] + [p[k]];
      FollowOn(d, ino.addr[p[0]], p[1..k], p[k]);
    } else {
      AtSlot(d, ino.addr[p[0]], p[1..1]);
    }
  }

  lemma DescendedIsOn(fs: FileSystem, f: int, n: int, k: int, b: int)
    requires fs.Valid() && 0 <= f < |fs.inodes| && 0 <= n < BPFMAX && Descended(fs.vol.disk, fs.inodes[f], n, k, b)
    requires k > 0
    requires b != 0
    ensures On(fs.vol.disk, b)
  {
    hide PathOf, Follow, FreeOcc, FilesOcc, FreeLen, Chain, Balanced;
    PathEndsOn(fs.vol.disk, fs.vol.lv, fs.inodes, f, PathOf(n)[0], PathOf(n)[1..k], fs.vol.isize, fs.vol.fsize);
  }

  /** Reads the indirect blocks on the path of block `n`, down to the last one, or up to
      the first that is missing. */
  method Descend(fs: FileSystem, f: int, n: int, list: array<int>, end: int) returns (b: int, whole: bool, ghost k: int)
    requires fs.Valid() && 0 <= f < |fs.inodes| && 0 <= n < BPFMAX && IsPath(PathOf(n))
    requires list.Length == 1 + NI && 1 <= end <= list.Length && Chains.Reverse(list[..end]) == PathOf(n)
    ensures Descended(fs.vol.disk, fs.inodes[f], n, k, b)
    ensures if whole then k == |PathOf(n)| - 1 && (k > 0 ==> On(fs.vol.disk, b)) else k >= 1 && b == 0
  {
    hide PathOf, Follow, FreeOcc, FilesOcc, FreeLen, Chain, Balanced;
    var listp := end - 1;
    k, b := 0, 0;
    while listp != 0
      invariant 0 <= listp < end && k == end - 1 - listp && Descended(fs.vol.disk, fs.inodes[f], n, k, b)
      invariant k > 0 ==> On(fs.vol.disk, b)
    {
      assert list[listp] == PathOf(n)[k];
      OneStep(fs.vol.disk, fs.inodes[f], n, k, b);
      b := Outlist(fs.vol.disk, fs.inodes[f], b, list[listp]);
      k := k + 1;
      if b == 0 {
        return b, false, k;
      }
      DescendedIsOn(fs, f, n, k, b);
      listp := listp - 1;
    }
    whole := true;
  }

  /** One pass of vmap: the part of a run that fits in `resid` entries. */
  method MapRun(fs: FileSystem, f: int, block: int, resid: int, blocklist: array<int>, at: int) returns (n: int)
    requires fs.Valid() && 0 <= f < |fs.inodes| && 0 <= block && 1 <= resid && 0 <= at && at + resid <= blocklist.Length
    requires blocklist != fs.vol.sfree
    modifies blocklist
    ensures fs.Valid() && (n == -1 <==> block >= BPFMAX)
    ensures n != -1 ==> n == (if RunLength(block) < resid then RunLength(block) else resid) && block + n <= BPFMAX
    ensures n != -1 ==> Mapped(fs.vol.disk, fs.inodes[f], blocklist[..], at, n, block)
    ensures blocklist[..at] == old(blocklist[..at])
  {
    hide PathOf, Follow, FreeOcc, FilesOcc, FreeLen, Chain, Balanced, Locate;
    var list := new int[1 + NI];
    var end, nblocks := Lmap(block, list);
    if end == -1 {
      return -1;
    }
    RunPath(block, nblocks - 1);
    n := if nblocks > resid then resid else nblocks;
    var b, whole, k := Descend(fs, f, block, list, end);
    ghost var d, ino := fs.vol.disk, fs.inodes[f];
    var j, leaf := 0, list[0];
    assert leaf == PathOf(block)[|PathOf(block)| - 1];
    while j < n
      invariant 0 <= j <= n && fs.vol.disk == d && fs.inodes[f] == ino && fs.Valid()
      invariant Mapped(d, ino, blocklist[..], at, j, block) && blocklist[..at] == old(blocklist[..at])
    {
      ghost var before := blocklist[..];
      RunPath(block, j);
      LeafEntry(d, ino, block, j, k, b, whole);
      if whole {
        var x := Outlist(fs.vol.disk, fs.inodes[f], b, leaf + j);
        blocklist[at + j] := if x == 0 then EMPTY_BLOCK else x;
      } else {
        blocklist[at + j] := EMPTY_BLOCK;
      }
      MappedNext(d, ino, before, blocklist[..], at, j, block);
      j := j + 1;
    }
  }

  lemma MappedNext(d: Disk, ino: Inode, list: seq<int>, list': seq<int>, at: int, j: int, block: int)
    requires IsDisk(d) && |ino.addr| == NADDR && Mapped(d, ino, list, at, j, block) && block + j < BPFMAX
    requires at + j < |list| && |list'| == |list| && list' == list[at + j := list'[at + j]]
    requires list'[at + j] == Entry(d, ino, block + j)
    ensures Mapped(d, ino, list', at, j + 1, block) && list'[..at] == list[..at]
  {
    hide Entry;
    forall i | 0 <= i < j + 1 ensures EntryAt(d, ino, list', at, block, i) {
      if i < j { assert EntryAt(d, ino, list, at, block, i); }
    }
  }

  lemma LeafEntry(d: Disk, ino: Inode, n: int, j: int, k: int, b: int, whole: bool)
    requires IsDisk(d) && |ino.addr| == NADDR && 0 <= n < BPFMAX && 0 <= j < RunLength(n) && n + j < BPFMAX
    requires Descended(d, ino, n, k, b)
    requires if whole then k == |PathOf(n)| - 1 && (k > 0 ==> On(d, b)) else k >= 1 && b == 0
    ensures whole ==> var i := PathOf(n)[|PathOf(n)| - 1] + j;
              (if b == 0 then 0 <= i < NADDR else 0 <= i < NBN)
                  && Entry(d, ino, n + j) == if Outlist(d, ino, b, i) == 0 then EMPTY_BLOCK else Outlist(d, ino, b, i)
    ensures !whole ==> Entry(d, ino, n + j) == EMPTY_BLOCK
  {
    hide PathOf, Follow, Addr, Locate;
    if !whole {
      RunHole(d, ino, n, j, k);
    } else if k == 0 {
      RunDirect(d, ino, n, j);
    } else {
      RunLeaf(d, ino, n, j, b);
    }
  }

  /** vmap: maps `count` blocks from `blockofs` on, or only those of the first run unless
      in group mode.  Every entry stored is the one that looking up that block alone gives. */
  method VMap(fs: FileSystem, f: int, blockofs: int, count: int, blocklist: array<int>, groupmode: bool)
      returns (n: int)
    requires fs.Valid() && 0 <= f < |fs.inodes| && 0 <= blockofs && 1 <= count <= blocklist.Length
    requires blocklist != fs.vol.sfree
    modifies blocklist
    ensures fs.Valid() && (n == -1 <==> blockofs >= BPFMAX || (groupmode && blockofs + count > BPFMAX))
    ensures n != -1 ==> n == if groupmode || RunLength(blockofs) >= count then count else RunLength(blockofs)
    ensures n != -1 ==> n >= 1 && Mapped(fs.vol.disk, fs.inodes[f], blocklist[..], 0, n, blockofs)
  {
    hide PathOf, Follow, FreeOcc, FilesOcc, FreeLen, Chain, Balanced, Locate;
    ghost var d, ino := fs.vol.disk, fs.inodes[f];
    var done := MapRun(fs, f, blockofs, count, blocklist, 0);
    if done == -1 {
      return -1;
    }
    while groupmode && done < count
      invariant 0 < done <= count && blockofs + done <= BPFMAX && fs.Valid() && fs.vol.disk == d && fs.inodes[f] == ino
      invariant !groupmode ==> done == if RunLength(blockofs) >= count then count else RunLength(blockofs)
      invariant Mapped(d, ino, blocklist[..], 0, done, blockofs)
    {
      ghost var before := blocklist[..];
      var m := MapRun(fs, f, blockofs + done, count - done, blocklist, done);
      if m == -1 {
        return -1;
      }
      MappedOn(d, ino, before, blocklist[..], blockofs, done, m);
      done := done + m;
    }
    n := done;
  }

  lemma MappedOn(d: Disk, ino: Inode, list: seq<int>, list': seq<int>, block: int, n: int, m: int)
    requires IsDisk(d) && |ino.addr| == NADDR && Mapped(d, ino, list, 0, n, block) && |list'| == |list|
    requires list'[..n] == list[..n]
    requires Mapped(d, ino, list', n, m, block + n)
    ensures Mapped(d, ino, list', 0, n + m, block)
  {
    hide Entry;
    forall j | 0 <= j < n + m ensures EntryAt(d, ino, list', 0, block, j) {
      if j < n {
        assert EntryAt(d, ino, list, 0, block, j) && list'[j] == list'[..n][j] && list[j] == list[..n][j];
      } else {
        assert EntryAt(d, ino, list', n, block + n, j - n);
      }
    }
  }

  // ----- fread -----

  /** `n` bytes of a file from `start` on. */
  ghost function Stretch(d: Disk, ino: Inode, start: int, n: int): (r: seq<int>)
    requires IsDisk(d) && |ino.addr| == NADDR && 0 <= start && 0 <= n && start + n <= LIMIT
    ensures |r| == n && forall i :: 0 <= i < n ==> r[i] == ByteAt(d, ino, start + i)
  {
    seq(n, i requires 0 <= i < n => ByteAt(d, ino, start + i))
  }

  /** What a read of `count` bytes at `seek` gets. */
  ghost function ReadSize(ino: Inode, seek: int, count: int): (n: int)
    requires 0 <= seek && 0 <= count
    ensures 0 <= n <= count && (n > 0 ==> seek + n <= ino.size) && (n < count ==> seek + n >= ino.size)
  {
    if seek > ino.size then 0 else if ino.size - seek > count then count else ino.size - seek
  }

  lemma ChunkRead(d: Disk, ino: Inode, start: int, n: int, lbn: int, off: int, m: int, chunk: seq<int>)
    requires IsDisk(d) && |ino.addr| == NADDR && 0 <= start && 0 <= n && start + n == BSIZE * lbn + off
    requires 0 <= lbn < BPFMAX && 0 <= off && 0 < m <= BSIZE - off
    requires chunk == BlockBytes(d, ino, lbn)[off..off + m]
    ensures start + n + m <= LIMIT && Stretch(d, ino, start, n + m) == Stretch(d, ino, start, n) + chunk
  {
    hide BlockBytes;
    var s := Stretch(d, ino, start, n + m);
    forall i | n <= i < n + m ensures s[i] == chunk[i - n] {
      assert (start + i) / BSIZE == lbn && (start + i) % BSIZE == off + (i - n);
    }
  }

  lemma EntryBytes(fs: FileSystem, f: int, n: int)
    requires fs.Valid() && 0 <= f < |fs.inodes| && 0 <= n < BPFMAX
    ensures var e := Entry(fs.vol.disk, fs.inodes[f], n);
            if e == EMPTY_BLOCK then BlockBytes(fs.vol.disk, fs.inodes[f], n) == Zeros()
            else On(fs.vol.disk, e) && BlockBytes(fs.vol.disk, fs.inodes[f], n) == fs.vol.disk[e]
  {
    hide PathOf, Follow, FreeOcc, FilesOcc, FreeLen, Chain, Balanced;
    AtBlock(fs.vol.disk, fs.inodes[f], n);
    PathEndsOn(fs.vol.disk, fs.vol.lv, fs.inodes, f, PathOf(n)[0], PathOf(n)[1..|PathOf(n)|],
               fs.vol.isize, fs.vol.fsize);
  }

  /** One turn of the loop of fread: `n` bytes of block `lbn`, by its entry in the list. */
  method ReadChunk(fs: FileSystem, f: int, list: array<int>, abn: int, zbn: int, lbn: int, off: int, n: int)
      returns (chunk: seq<int>)
    requires fs.Valid() && 0 <= f < |fs.inodes| && abn <= lbn < zbn && 0 <= off && 0 <= n <= BSIZE - off
    requires Mapped(fs.vol.disk, fs.inodes[f], list[..], 0, zbn - abn, abn)
    ensures lbn < BPFMAX && chunk == BlockBytes(fs.vol.disk, fs.inodes[f], lbn)[off..off + n]
  {
    hide FreeOcc, FilesOcc, FreeLen, Chain, Balanced, Locate, BlockBytes, Entry;
    assert EntryAt(fs.vol.disk, fs.inodes[f], list[..], 0, abn, lbn - abn);
    EntryBytes(fs, f, lbn);
    var e := list[lbn - abn];
    chunk := if e == EMPTY_BLOCK then seq(n, _ => 0) else fs.vol.disk[e][off..off + n];
    assert e == EMPTY_BLOCK ==> chunk == Zeros()[off..off + n];
  }

  /** fread on a regular file: the bytes from `seek` on, as many as were asked for and
      the file has. */
  method FRead(fs: FileSystem, f: int, seek: int, count: int, readahead: int, groupmode: bool) returns (out: seq<int>)
    requires fs.Valid() && 0 <= f < |fs.inodes| && 0 <= seek && 0 <= count && 0 <= readahead < READGROUP + READAHEAD
    ensures seek + ReadSize(fs.inodes[f], seek, count) <= LIMIT || out == []
    ensures |out| == ReadSize(fs.inodes[f], seek, count)
    ensures |out| > 0 ==> out == Stretch(fs.vol.disk, fs.inodes[f], seek, |out|)
  {
    hide PathOf, Follow, FreeOcc, FilesOcc, FreeLen, Chain, Balanced, Locate, BlockBytes, RunLength, EntryAt;
    out := [];
    var ino := fs.inodes[f];
    if seek > ino.size {
      return;
    }
    var res := if ino.size - seek > count then count else ino.size - seek;
    ghost var total := res;
    var lbn, off := seek / BSIZE, seek % BSIZE;
    var abn, zbn := 0, 0;
    var list := new int[READGROUP + READAHEAD];
    var maxblk := (ino.size + BSIZE - 1) / BSIZE;
    while res > 0
      invariant 0 <= res && |out| + res == total && fs.Valid()
      invariant seek + |out| <= LIMIT && out == Stretch(fs.vol.disk, ino, seek, |out|)
      invariant 0 <= off < BSIZE && 0 <= abn <= lbn && (res > 0 ==> seek + |out| == BSIZE * lbn + off)
      invariant lbn <= zbn || zbn == 0
      invariant lbn < zbn ==> Mapped(fs.vol.disk, ino, list[..], 0, zbn - abn, abn)
    {
      assert lbn < maxblk <= BPFMAX;
      if lbn >= zbn {
        var want := (res + BSIZE - 1) / BSIZE + readahead;
        if want > list.Length {
          want := list.Length;
        }
        assert want > readahead;
        if lbn + want >= maxblk {
          want := maxblk - lbn;
        }
        want := VMap(fs, f, lbn, want, list, groupmode);
        abn := lbn;
        zbn := lbn + want;
      }
      var n := BSIZE - off;
      if res < n {
        n := res;
      }
      var chunk := ReadChunk(fs, f, list, abn, zbn, lbn, off, n);
      ChunkRead(fs.vol.disk, ino, seek, |out|, lbn, off, n, chunk);
      out := out + chunk;
      lbn := lbn + 1;
      off := 0;
      res := res - n;
    }
  }
}
