/** Files: inodes with their slots, which blocks belong to which slot, and the bytes that
    a file holds. */
module FsFiles {
  import opened FsBytes
  import opened FsMap
  import opened FsTree

  /** The largest size of a file. */
  const LIMIT: int := BSIZE * BPFMAX

  /** An inode: i_addr and i_size. */
  datatype Inode = Inode(addr: seq<int>, size: int)

  ghost predicate Inodes(inodes: seq<Inode>) {
    forall f :: 0 <= f < |inodes| ==> |inodes[f].addr| == NADDR && 0 <= inodes[f].size <= LIMIT
  }

  // ----- all slots of all inodes, numbered -----

  /** Slot `r % NADDR` of inode `r / NADDR`. */
  function Root(inodes: seq<Inode>, r: int): int
    requires Inodes(inodes) && 0 <= r < NADDR * |inodes|
  {
    inodes[r / NADDR].addr[r % NADDR]
  }

  function RootLevel(r: int): nat
    requires r >= 0
  {
    Level(r % NADDR)
  }

  /** How often block `x` occurs in the trees of the first `n` slots. */
  ghost function RootsOcc(d: Disk, inodes: seq<Inode>, n: int, x: int): nat
    requires IsDisk(d) && Inodes(inodes) && 0 <= n <= NADDR * |inodes|
    decreases n
  {
    if n == 0 then 0 else RootsOcc(d, inodes, n - 1, x) + Occ(d, Root(inodes, n - 1), RootLevel(n - 1), x)
  }

  lemma {:induction false} RootIn(d: Disk, inodes: seq<Inode>, n: int, r: int, x: int)
    requires IsDisk(d) && Inodes(inodes) && 0 <= r < n <= NADDR * |inodes|
    ensures Occ(d, Root(inodes, r), RootLevel(r), x) <= RootsOcc(d, inodes, n, x)
    decreases n
  {
    hide Occ, Root, RootLevel;
    if r < n - 1 { RootIn(d, inodes, n - 1, r, x); }
  }

  lemma {:induction false} TwoRootsIn(d: Disk, inodes: seq<Inode>, n: int, r: int, s: int, x: int)
    requires IsDisk(d) && Inodes(inodes) && 0 <= r < n <= NADDR * |inodes| && 0 <= s < n && r != s
    ensures Occ(d, Root(inodes, r), RootLevel(r), x) + Occ(d, Root(inodes, s), RootLevel(s), x)
            <= RootsOcc(d, inodes, n, x)
    decreases n
  {
    hide Occ, Root, RootLevel;
    if r == n - 1 {
      RootIn(d, inodes, n - 1, s, x);
    } else if s == n - 1 {
      RootIn(d, inodes, n - 1, r, x);
    } else {
      TwoRootsIn(d, inodes, n - 1, r, s, x);
    }
  }

  /** The tree of slot `r` gains `more` occurrences, the others stay. */
  lemma {:induction false} RootsGain(d: Disk, inodes: seq<Inode>, d': Disk, inodes': seq<Inode>, n: int, r: int,
                                     x: int, more: int)
    requires IsDisk(d) && Inodes(inodes) && IsDisk(d') && Inodes(inodes') && |inodes| == |inodes'|
    requires 0 <= n <= NADDR * |inodes|
    requires forall s :: 0 <= s < n && s != r ==>
               Occ(d', Root(inodes', s), RootLevel(s), x) == Occ(d, Root(inodes, s), RootLevel(s), x)
    requires 0 <= r < n ==>
               Occ(d', Root(inodes', r), RootLevel(r), x) == Occ(d, Root(inodes, r), RootLevel(r), x) + more
    ensures RootsOcc(d', inodes', n, x) == RootsOcc(d, inodes, n, x) + if 0 <= r < n then more else 0
    decreases n
  {
    hide Occ, Root, RootLevel;
    if n > 0 { RootsGain(d, inodes, d', inodes', n - 1, r, x, more); }
  }

  /** How often block `x` occurs in all files. */
  ghost function FilesOcc(d: Disk, inodes: seq<Inode>, x: int): nat
    requires IsDisk(d) && Inodes(inodes)
  {
    RootsOcc(d, inodes, NADDR * |inodes|, x)
  }

  /** No block occurs twice in the files. */
  ghost predicate FilesOnce(d: Disk, inodes: seq<Inode>)
    requires IsDisk(d) && Inodes(inodes)
  {
    forall x :: FilesOcc(d, inodes, x) <= 1
  }

  lemma RootOnce(d: Disk, inodes: seq<Inode>, r: int)
    requires IsDisk(d) && Inodes(inodes) && FilesOnce(d, inodes) && 0 <= r < NADDR * |inodes|
    ensures Once(d, Root(inodes, r), RootLevel(r))
  {
    hide Occ, Root, RootLevel, RootsOcc;
    var b, l := Root(inodes, r), RootLevel(r);
    forall x ensures Occ(d, b, l, x) <= 1 {
      assert FilesOcc(d, inodes, x) <= 1;
      RootIn(d, inodes, NADDR * |inodes|, r, x);
    }
  }

  /** What occurs in one slot's tree occurs in no other's. */
  lemma RootsApart(d: Disk, inodes: seq<Inode>, r: int, s: int, x: int)
    requires IsDisk(d) && Inodes(inodes) && FilesOnce(d, inodes) && 0 <= r < NADDR * |inodes|
    requires 0 <= s < NADDR * |inodes| && r != s
    requires Occ(d, Root(inodes, r), RootLevel(r), x) > 0
    ensures Occ(d, Root(inodes, s), RootLevel(s), x) == 0
  {
    assert FilesOcc(d, inodes, x) <= 1;
    TwoRootsIn(d, inodes, NADDR * |inodes|, r, s, x);
  }

  /** The disks agree on every block of every file. */
  ghost predicate FilesAgree(d: Disk, d': Disk, inodes: seq<Inode>)
    requires IsDisk(d) && Inodes(inodes)
  {
    |d'| == |d| && forall x :: 0 <= x < |d| && FilesOcc(d, inodes, x) > 0 ==> d'[x] == d[x]
  }

  lemma RootAgree(d: Disk, d': Disk, inodes: seq<Inode>, r: int)
    requires IsDisk(d) && Inodes(inodes) && FilesAgree(d, d', inodes) && 0 <= r < NADDR * |inodes|
    ensures Agree(d, d', Root(inodes, r), RootLevel(r))
  {
    hide Occ, Root, RootLevel, RootsOcc;
    var b, l := Root(inodes, r), RootLevel(r);
    forall x | 0 <= x < |d| && Occ(d, b, l, x) > 0 ensures d'[x] == d[x] {
      RootIn(d, inodes, NADDR * |inodes|, r, x);
      assert FilesOcc(d, inodes, x) > 0;
    }
  }

  lemma FilesFrame(d: Disk, d': Disk, inodes: seq<Inode>, x: int)
    requires IsDisk(d) && IsDisk(d') && Inodes(inodes) && FilesAgree(d, d', inodes)
    ensures FilesOcc(d', inodes, x) == FilesOcc(d, inodes, x)
  {
    hide Occ, Root, RootLevel, RootsOcc, FilesAgree, Agree;
    forall s | 0 <= s < NADDR * |inodes|
      ensures Occ(d', Root(inodes, s), RootLevel(s), x) == Occ(d, Root(inodes, s), RootLevel(s), x)
    {
      RootAgree(d, d', inodes, s);
      TreeFrame(d, d', Root(inodes, s), RootLevel(s), x);
    }
    RootsGain(d, inodes, d', inodes, NADDR * |inodes|, -1, x, 0);
  }

  // ----- the bytes of a file -----

  /** The beginning of a path: a slot and some indices. */
  predicate IsPart(q: seq<int>) {
    |q| >= 1 && 0 <= q[0] < NADDR && |q| <= 1 + Level(q[0]) && IsIndexPath(q[1..])
  }

  /** Where it leads; 0 is a hole. */
  ghost function At(d: Disk, ino: Inode, q: seq<int>): int
    requires IsDisk(d) && |ino.addr| == NADDR && IsPart(q)
  {
    Follow(d, ino.addr[q[0]], q[1..])
  }

  /** Where block `n` of a file is; 0 is a hole. */
  ghost function Locate(d: Disk, ino: Inode, n: int): int
    requires IsDisk(d) && |ino.addr| == NADDR && 0 <= n < BPFMAX
  {
    PathRoundTrip(n);
    Follow(d, ino.addr[PathOf(n)[0]], PathOf(n)[1..])
  }

  /** The contents of block `n` of a file; a hole reads as zeros. */
  ghost function BlockBytes(d: Disk, ino: Inode, n: int): (b: Bytes)
    requires IsDisk(d) && |ino.addr| == NADDR && 0 <= n < BPFMAX
    ensures IsBlock(b)
  {
    var x := Locate(d, ino, n);
    if On(d, x) then d[x] else Zeros()
  }

  /** Byte `k` of a file. */
  ghost function ByteAt(d: Disk, ino: Inode, k: int): int
    requires IsDisk(d) && |ino.addr| == NADDR && 0 <= k < LIMIT
  {
    BlockBytes(d, ino, k / BSIZE)[k % BSIZE]
  }

  /** All blocks of two files read alike. */
  ghost predicate SameBlocks(d: Disk, ino: Inode, d': Disk, ino': Inode)
    requires IsDisk(d) && |ino.addr| == NADDR && IsDisk(d') && |ino'.addr| == NADDR
  {
    ino'.size == ino.size && forall n :: 0 <= n < BPFMAX ==> BlockBytes(d', ino', n) == BlockBytes(d, ino, n)
  }

  /** Bytes at and past the size are zero. */
  ghost predicate TailZero(d: Disk, ino: Inode)
    requires IsDisk(d) && |ino.addr| == NADDR
  {
    forall n, o :: 0 <= n < BPFMAX && 0 <= o < BSIZE && n * BSIZE + o >= ino.size ==> BlockBytes(d, ino, n)[o] == 0
  }

  /** The number of slot `s` of inode `f`. */
  function RootOf(f: int, s: int): int {
    NADDR * f + s
  }

  lemma RootOfFile(inodes: seq<Inode>, f: int, s: int)
    requires Inodes(inodes) && 0 <= f < |inodes| && 0 <= s < NADDR
    ensures 0 <= RootOf(f, s) < NADDR * |inodes| && RootOf(f, s) / NADDR == f && RootOf(f, s) % NADDR == s
    ensures Root(inodes, RootOf(f, s)) == inodes[f].addr[s] && RootLevel(RootOf(f, s)) == Level(s)
  {
  }

  lemma LocateAgrees(d: Disk, d': Disk, inodes: seq<Inode>, f: int, n: int)
    requires IsDisk(d) && IsDisk(d') && Inodes(inodes) && FilesAgree(d, d', inodes) && 0 <= f < |inodes|
    requires 0 <= n < BPFMAX
    ensures Locate(d', inodes[f], n) == Locate(d, inodes[f], n)
    ensures BlockBytes(d', inodes[f], n) == BlockBytes(d, inodes[f], n)
  {
    hide Occ, RootsOcc, FilesAgree, Agree, Addr, PathOf, Root, RootLevel;
    PathRoundTrip(n);
    var p := PathOf(n);
    RootOfFile(inodes, f, p[0]);
    RootAgree(d, d', inodes, RootOf(f, p[0]));
    FollowFrame(d, d', inodes[f].addr[p[0]], Level(p[0]), p[1..]);
    var x := Locate(d, inodes[f], n);
    if On(d, x) {
      LocatedCounts(d, inodes, f, n);
      AgreeAt(d, d', inodes, x);
    }
    AgreeSize(d, d', inodes);
  }

  lemma AgreeAt(d: Disk, d': Disk, inodes: seq<Inode>, x: int)
    requires IsDisk(d) && Inodes(inodes) && FilesAgree(d, d', inodes) && 0 <= x < |d| && FilesOcc(d, inodes, x) > 0
    ensures |d'| == |d| && d'[x] == d[x]
  {
  }

  lemma AgreeSize(d: Disk, d': Disk, inodes: seq<Inode>)
    requires IsDisk(d) && Inodes(inodes) && FilesAgree(d, d', inodes)
    ensures |d'| == |d|
  {
  }

  /** A located block belongs to its slot's tree. */
  lemma LocatedIn(d: Disk, ino: Inode, n: int)
    requires IsDisk(d) && |ino.addr| == NADDR && 0 <= n < BPFMAX && Locate(d, ino, n) != 0
    ensures Occ(d, ino.addr[PathOf(n)[0]], Level(PathOf(n)[0]), Locate(d, ino, n)) > 0
  {
    hide Occ, Addr, PathOf, Follow;
    PathRoundTrip(n);
    var p := PathOf(n);
    FollowIn(d, ino.addr[p[0]], Level(p[0]), p[1..]);
  }

  lemma LocatedCounts(d: Disk, inodes: seq<Inode>, f: int, n: int)
    requires IsDisk(d) && Inodes(inodes) && 0 <= f < |inodes| && 0 <= n < BPFMAX && Locate(d, inodes[f], n) != 0
    ensures FilesOcc(d, inodes, Locate(d, inodes[f], n)) > 0
  {
    hide Occ, Addr, PathOf, Follow, RootsOcc, Root, RootLevel;
    PathRoundTrip(n);
    var s := PathOf(n)[0];
    LocatedIn(d, inodes[f], n);
    RootOfFile(inodes, f, s);
    RootIn(d, inodes, NADDR * |inodes|, RootOf(f, s), Locate(d, inodes[f], n));
  }

  /** A disk change off the files' blocks changes no file. */
  lemma FilesKeepBytes(d: Disk, d': Disk, inodes: seq<Inode>)
    requires IsDisk(d) && IsDisk(d') && Inodes(inodes) && FilesAgree(d, d', inodes)
    ensures forall f {:trigger inodes[f]} :: 0 <= f < |inodes| ==> SameBlocks(d, inodes[f], d', inodes[f])
  {
    hide BlockBytes, FilesAgree, Locate;
    forall f, n | 0 <= f < |inodes| && 0 <= n < BPFMAX
      ensures BlockBytes(d', inodes[f], n) == BlockBytes(d, inodes[f], n)
    {
      LocateAgrees(d, d', inodes, f, n);
    }
  }

  /** Two places in files are two different blocks: nothing is shared. */
  lemma NothingIsShared(d: Disk, inodes: seq<Inode>, f: int, n: int, g: int, m: int)
    requires IsDisk(d) && Inodes(inodes) && FilesOnce(d, inodes) && 0 <= f < |inodes| && 0 <= g < |inodes|
    requires 0 <= n < BPFMAX && 0 <= m < BPFMAX && (f != g || n != m)
    requires Locate(d, inodes[f], n) != 0
    ensures Locate(d, inodes[f], n) != Locate(d, inodes[g], m)
  {
    hide Occ, Addr, PathOf, Follow, RootsOcc, Root, RootLevel, FilesOnce;
    PathRoundTrip(n);
    PathRoundTrip(m);
    var p, q := PathOf(n), PathOf(m);
    RootOfFile(inodes, f, p[0]);
    RootOfFile(inodes, g, q[0]);
    if Locate(d, inodes[g], m) != 0 {
      LocatedIn(d, inodes[f], n);
      LocatedIn(d, inodes[g], m);
      if f == g && p[0] == q[0] {
        RootOnce(d, inodes, RootOf(f, p[0]));
        assert p == [p[0]] + p[1..] && q == [q[0]] + q[1..];
        DifferentPaths(d, inodes[f].addr[p[0]], Level(p[0]), p[1..], q[1..]);
      } else {
        RootsApart(d, inodes, RootOf(f, p[0]), RootOf(g, q[0]), Locate(d, inodes[f], n));
      }
    }
  }
}
