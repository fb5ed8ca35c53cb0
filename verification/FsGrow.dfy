/** What changes in the files when a slot is cleared, a new block is linked, or a data
    block is written.

    Each of these changes is described by where every block of every file is found
    afterwards and what it then contains, so that the operations of the file system can be
    chained without looking at trees again. */
module FsGrow {
  import opened FsBytes
  import opened FsMap
  import opened FsTree
  import opened FsFiles

  function SetSlot(inodes: seq<Inode>, f: int, s: int, b: int): (r: seq<Inode>)
    requires Inodes(inodes) && 0 <= f < |inodes| && 0 <= s < NADDR
    ensures Inodes(r) && |r| == |inodes|
  {
    inodes[f := inodes[f].(addr := inodes[f].addr[s := b])]
  }

  lemma OtherRoots(inodes: seq<Inode>, f: int, s: int, b: int)
    requires Inodes(inodes) && 0 <= f < |inodes| && 0 <= s < NADDR
    ensures 0 <= RootOf(f, s) < NADDR * |inodes|
    ensures Root(inodes, RootOf(f, s)) == inodes[f].addr[s] && RootLevel(RootOf(f, s)) == Level(s)
    ensures Root(SetSlot(inodes, f, s, b), RootOf(f, s)) == b
    ensures forall r :: 0 <= r < NADDR * |inodes| && r != RootOf(f, s) ==>
              Root(SetSlot(inodes, f, s, b), r) == Root(inodes, r)
  {
    RootOfFile(inodes, f, s);
  }

  /** Clearing a slot takes the blocks of its tree out of the files. */
  lemma ClearSlot(d: Disk, inodes: seq<Inode>, f: int, s: int, x: int)
    requires IsDisk(d) && Inodes(inodes) && 0 <= f < |inodes| && 0 <= s < NADDR
    ensures FilesOcc(d, SetSlot(inodes, f, s, 0), x) == FilesOcc(d, inodes, x) - Occ(d, inodes[f].addr[s], Level(s), x)
  {
    OtherRoots(inodes, f, s, 0);
    hide Root, RootLevel, SetSlot;
    var gone: int := Occ(d, inodes[f].addr[s], Level(s), x);
    RootsGain(d, inodes, d, SetSlot(inodes, f, s, 0), NADDR * |inodes|, RootOf(f, s), x, -gone);
  }

  /** The files of `inodes` on `d` and those of `inodes'` on `d'` are alike, except that
      block `nb` has been added where `path` leads in file `f`, with contents `fill`. */
  ghost predicate Grown(d: Disk, inodes: seq<Inode>, d': Disk, inodes': seq<Inode>, f: int, path: seq<int>, nb: int,
                        fill: Bytes)
  {
    && IsDisk(d) && Inodes(inodes) && IsDisk(d') && Inodes(inodes') && |inodes'| == |inodes| && |d'| == |d|
    && (forall x :: FilesOcc(d', inodes', x) == FilesOcc(d, inodes, x) + if x == nb then 1 else 0)
    && (forall g {:trigger inodes'[g]} :: 0 <= g < |inodes| ==>
        inodes'[g].size == inodes[g].size && (g != f ==> inodes'[g] == inodes[g]))
    && forall g, n :: 0 <= g < |inodes| && 0 <= n < BPFMAX ==> GrownAt(d, inodes, d', inodes', f, path, nb, fill, g, n)
  }

  /** Block `n` of file `g` after the change. */
  ghost predicate GrownAt(d: Disk, inodes: seq<Inode>, d': Disk, inodes': seq<Inode>, f: int, path: seq<int>, nb: int,
                          fill: Bytes, g: int, n: int)
    requires IsDisk(d) && IsDisk(d') && Inodes(inodes) && Inodes(inodes') && |inodes'| == |inodes|
    requires 0 <= g < |inodes| && 0 <= n < BPFMAX
  {
    && Locate(d', inodes'[g], n) == (if g == f && PathOf(n) == path then nb else Locate(d, inodes[g], n))
    && BlockBytes(d', inodes'[g], n) == if g == f && PathOf(n) == path then fill else BlockBytes(d, inodes[g], n)
  }

  /** Block `nb` is in no file. */
  ghost predicate New(d: Disk, inodes: seq<Inode>, nb: int)
    requires IsDisk(d) && Inodes(inodes)
  {
    On(d, nb) && nb < 0x1_0000_0000 && FilesOcc(d, inodes, nb) == 0
  }

  // ----- a new block in an empty slot -----

  lemma NewRootCounts(d: Disk, inodes: seq<Inode>, f: int, s: int, nb: int, fill: Bytes, x: int)
    requires IsDisk(d) && Inodes(inodes) && 0 <= f < |inodes| && 0 <= s < NADDR && inodes[f].addr[s] == 0
    requires New(d, inodes, nb) && IsBlock(fill) && (Level(s) > 0 ==> fill == Zeros())
    ensures FilesOcc(d[nb := fill], SetSlot(inodes, f, s, nb), x) == FilesOcc(d, inodes, x) + if x == nb then 1 else 0
  {
    var d', inodes', r := d[nb := fill], SetSlot(inodes, f, s, nb), RootOf(f, s);
    OtherRoots(inodes, f, s, nb);
    NewTree(d', Level(s), nb, x);
    assert Occ(d, 0, Level(s), x) == 0;
    hide Occ, Root, RootLevel, SetSlot, RootsOcc;
    forall t | 0 <= t < NADDR * |inodes| && t != r
      ensures Occ(d', Root(inodes', t), RootLevel(t), x) == Occ(d, Root(inodes, t), RootLevel(t), x)
    {
      RootIn(d, inodes, NADDR * |inodes|, t, nb);
      ElsewhereAgree(d, Root(inodes, t), RootLevel(t), nb, fill);
      TreeFrame(d, d', Root(inodes, t), RootLevel(t), x);
    }
    RootsGain(d, inodes, d', inodes', NADDR * |inodes|, r, x, if x == nb then 1 else 0);
  }

  lemma NewRootAt(d: Disk, inodes: seq<Inode>, f: int, s: int, nb: int, fill: Bytes, g: int, q: seq<int>)
    requires IsDisk(d) && Inodes(inodes) && 0 <= f < |inodes| && 0 <= s < NADDR && inodes[f].addr[s] == 0
    requires New(d, inodes, nb) && IsBlock(fill) && (Level(s) > 0 ==> fill == Zeros())
    requires 0 <= g < |inodes| && IsPart(q)
    ensures At(d[nb := fill], SetSlot(inodes, f, s, nb)[g], q) == if g == f && q == [s] then nb else At(d, inodes[g], q)
  {
    hide Occ, RootsOcc, Addr;
    var d', inodes' := d[nb := fill], SetSlot(inodes, f, s, nb);
    assert q == [q[0]] + q[1..];
    if g == f && q[0] == s {
      if |q| > 1 {
        ZeroAddr(q[1]);
        assert Follow(d', nb, q[1..]) == Follow(d', 0, q[1..][1..]);
      }
    } else {
      RootOfFile(inodes, g, q[0]);
      RootIn(d, inodes, NADDR * |inodes|, RootOf(g, q[0]), nb);
      ElsewhereAgree(d, inodes[g].addr[q[0]], Level(q[0]), nb, fill);
      FollowFrame(d, d', inodes[g].addr[q[0]], Level(q[0]), q[1..]);
    }
  }

  lemma NewRoot(d: Disk, inodes: seq<Inode>, f: int, s: int, nb: int, fill: Bytes)
    requires IsDisk(d) && Inodes(inodes) && 0 <= f < |inodes| && 0 <= s < NADDR && inodes[f].addr[s] == 0
    requires New(d, inodes, nb) && IsBlock(fill) && (Level(s) > 0 ==> fill == Zeros())
    ensures Grown(d, inodes, d[nb := fill], SetSlot(inodes, f, s, nb), f, [s], nb, fill)
  {
    hide PathOf, Locate, Root, RootLevel, RootsOcc;
    var d', inodes' := d[nb := fill], SetSlot(inodes, f, s, nb);
    forall x ensures FilesOcc(d', inodes', x) == FilesOcc(d, inodes, x) + if x == nb then 1 else 0 {
      NewRootCounts(d, inodes, f, s, nb, fill, x);
    }
    forall g, n | 0 <= g < |inodes| && 0 <= n < BPFMAX
      ensures GrownAt(d, inodes, d', inodes', f, [s], nb, fill, g, n)
    {
      LocateIsAt(d, inodes[g], n);
      LocateIsAt(d', inodes'[g], n);
      NewRootAt(d, inodes, f, s, nb, fill, g, PathOf(n));
      NotLocated(d, inodes, nb, g, n);
    }
  }

  lemma LocateIsAt(d: Disk, ino: Inode, n: int)
    requires IsDisk(d) && |ino.addr| == NADDR && 0 <= n < BPFMAX
    ensures IsPath(PathOf(n)) && IsPart(PathOf(n)) && Locate(d, ino, n) == At(d, ino, PathOf(n))
  {
    hide PathOf, Follow;
    PathRoundTrip(n);
  }

  /** A block in no file is located by no path. */
  lemma NotLocated(d: Disk, inodes: seq<Inode>, nb: int, g: int, n: int)
    requires IsDisk(d) && Inodes(inodes) && New(d, inodes, nb) && 0 <= g < |inodes| && 0 <= n < BPFMAX
    ensures Locate(d, inodes[g], n) != nb
  {
    hide Locate, RootsOcc;
    if Locate(d, inodes[g], n) != 0 { LocatedCounts(d, inodes, g, n); }
  }

  // ----- a new block below an indirect block -----

  /** Slot `s` of file `f`: below its tree, at index path `q`, is a hole under block `p`. */
  ghost predicate HoleUnder(d: Disk, inodes: seq<Inode>, f: int, s: int, q: seq<int>, p: int, nb: int, fill: Bytes) {
    && IsDisk(d) && Inodes(inodes) && 0 <= f < |inodes| && 0 <= s < NADDR && FilesOnce(d, inodes)
    && New(d, inodes, nb) && Links(d, inodes[f].addr[s], Level(s), q, p, nb, fill)
  }

  /** The parent block belongs to the file's tree. */
  lemma ParentCounts(d: Disk, inodes: seq<Inode>, f: int, s: int, q: seq<int>, p: int, nb: int, fill: Bytes)
    requires HoleUnder(d, inodes, f, s, q, p, nb, fill)
    ensures Occ(d, inodes[f].addr[s], Level(s), p) > 0 && FilesOcc(d, inodes, p) > 0 && p != nb
  {
    hide Occ, RootsOcc, Root, RootLevel, FilesOnce;
    FollowIn(d, inodes[f].addr[s], Level(s), q[..|q| - 1]);
    RootOfFile(inodes, f, s);
    RootIn(d, inodes, NADDR * |inodes|, RootOf(f, s), p);
  }

  lemma NewChildCounts(d: Disk, inodes: seq<Inode>, f: int, s: int, q: seq<int>, p: int, nb: int, fill: Bytes, x: int)
    requires HoleUnder(d, inodes, f, s, q, p, nb, fill)
    ensures IsDisk(Link(d, p, q[|q| - 1], nb, fill))
    ensures FilesOcc(Link(d, p, q[|q| - 1], nb, fill), inodes, x) == FilesOcc(d, inodes, x) + if x == nb then 1 else 0
  {
    var d', r := Link(d, p, q[|q| - 1], nb, fill), RootOf(f, s);
    RootOfFile(inodes, f, s);
    ParentCounts(d, inodes, f, s, q, p, nb, fill);
    LinkGrows(d, inodes[f].addr[s], Level(s), q, p, nb, fill, x);
    hide Occ, Root, RootLevel, RootsOcc, Links, FilesOnce, Link;
    forall t | 0 <= t < NADDR * |inodes| && t != r
      ensures Occ(d', Root(inodes, t), RootLevel(t), x) == Occ(d, Root(inodes, t), RootLevel(t), x)
    {
      OtherRootAgrees(d, inodes, f, s, q, p, nb, fill, t);
      TreeFrame(d, d', Root(inodes, t), RootLevel(t), x);
    }
    RootsGain(d, inodes, d', inodes, NADDR * |inodes|, r, x, if x == nb then 1 else 0);
  }

  /** Linking does not touch the tree of another slot. */
  lemma OtherRootAgrees(d: Disk, inodes: seq<Inode>, f: int, s: int, q: seq<int>, p: int, nb: int, fill: Bytes, t: int)
    requires HoleUnder(d, inodes, f, s, q, p, nb, fill) && 0 <= t < NADDR * |inodes| && t != RootOf(f, s)
    ensures IsDisk(Link(d, p, q[|q| - 1], nb, fill))
              && Agree(d, Link(d, p, q[|q| - 1], nb, fill), Root(inodes, t), RootLevel(t))
  {
    hide Occ, Root, RootLevel, RootsOcc, FilesOnce, SetAddr;
    RootOfFile(inodes, f, s);
    ParentCounts(d, inodes, f, s, q, p, nb, fill);
    RootsApart(d, inodes, RootOf(f, s), t, p);
    RootIn(d, inodes, NADDR * |inodes|, t, nb);
    LinkAgrees(d, Root(inodes, t), RootLevel(t), p, q[|q| - 1], nb, fill);
  }

  lemma NewChildAt(d: Disk, inodes: seq<Inode>, f: int, s: int, q: seq<int>, p: int, nb: int, fill: Bytes, g: int,
                   r: seq<int>)
    requires HoleUnder(d, inodes, f, s, q, p, nb, fill) && 0 <= g < |inodes| && IsPart(r)
    ensures IsDisk(Link(d, p, q[|q| - 1], nb, fill))
    ensures At(Link(d, p, q[|q| - 1], nb, fill), inodes[g], r) ==
              if g == f && r == [s] + q then nb else At(d, inodes[g], r)
  {
    hide Occ, RootsOcc, Addr, SetAddr, Root, RootLevel, FilesOnce, Agree;
    var d' := Link(d, p, q[|q| - 1], nb, fill);
    assert r == [r[0]] + r[1..];
    RootOfFile(inodes, g, r[0]);
    RootOfFile(inodes, f, s);
    LinkFollow(d, inodes[f].addr[s], Level(s), q, p, nb, fill, []);
    if g == f && r[0] == s {
      LinkFollow(d, inodes[f].addr[s], Level(s), q, p, nb, fill, r[1..]);
      if q <= r[1..] { HolesBelow(d, inodes[f].addr[s], q, r[1..]); }
    } else {
      OtherRootAgrees(d, inodes, f, s, q, p, nb, fill, RootOf(g, r[0]));
      FollowFrame(d, d', inodes[g].addr[r[0]], Level(r[0]), r[1..]);
    }
  }

  /** An indirect block is not where any block of a file is. */
  lemma ParentNotLocated(d: Disk, inodes: seq<Inode>, f: int, s: int, q: seq<int>, p: int, nb: int, fill: Bytes,
                         g: int, n: int)
    requires HoleUnder(d, inodes, f, s, q, p, nb, fill) && 0 <= g < |inodes| && 0 <= n < BPFMAX
    ensures Locate(d, inodes[g], n) != p
  {
    hide Occ, RootsOcc, PathOf, Addr, Root, RootLevel, FilesOnce;
    PathRoundTrip(n);
    var path := PathOf(n);
    RootOfFile(inodes, g, path[0]);
    RootOfFile(inodes, f, s);
    ParentCounts(d, inodes, f, s, q, p, nb, fill);
    if Locate(d, inodes[g], n) != 0 {
      LocatedIn(d, inodes[g], n);
      if g == f && path[0] == s {
        DifferentPaths(d, inodes[f].addr[s], Level(s), q[..|q| - 1], path[1..]);
      } else {
        RootsApart(d, inodes, RootOf(f, s), RootOf(g, path[0]), p);
      }
    }
  }

  lemma NewChild(d: Disk, inodes: seq<Inode>, f: int, s: int, q: seq<int>, p: int, nb: int, fill: Bytes)
    requires HoleUnder(d, inodes, f, s, q, p, nb, fill)
    ensures Grown(d, inodes, Link(d, p, q[|q| - 1], nb, fill), inodes, f, [s] + q, nb, fill)
  {
    hide PathOf, Locate, Root, RootLevel, RootsOcc, HoleUnder, SetAddr;
    HoleFacts(d, inodes, f, s, q, p, nb, fill);
    var d' := Link(d, p, q[|q| - 1], nb, fill);
    NewChildCounts(d, inodes, f, s, q, p, nb, fill, 0);
    forall x ensures FilesOcc(d', inodes, x) == FilesOcc(d, inodes, x) + if x == nb then 1 else 0 {
      NewChildCounts(d, inodes, f, s, q, p, nb, fill, x);
    }
    forall g, n | 0 <= g < |inodes| && 0 <= n < BPFMAX
      ensures GrownAt(d, inodes, d', inodes, f, [s] + q, nb, fill, g, n)
    {
      LocateIsAt(d, inodes[g], n);
      LocateIsAt(d', inodes[g], n);
      NewChildAt(d, inodes, f, s, q, p, nb, fill, g, PathOf(n));
      NotLocated(d, inodes, nb, g, n);
      ParentNotLocated(d, inodes, f, s, q, p, nb, fill, g, n);
    }
  }

  lemma HoleFacts(d: Disk, inodes: seq<Inode>, f: int, s: int, q: seq<int>, p: int, nb: int, fill: Bytes)
    requires HoleUnder(d, inodes, f, s, q, p, nb, fill)
    ensures IsDisk(d) && Inodes(inodes) && 0 <= f < |inodes| && New(d, inodes, nb) && On(d, p) && IsBlock(fill)
              && IsBlock(d[p])
    ensures |q| >= 1 && IsIndexPath(q)
  {
  }

  // ----- writing a data block -----

  /** Writing the contents of block `n` of file `f` changes those and nothing else. */
  lemma WriteData(d: Disk, inodes: seq<Inode>, f: int, n: int, data: Bytes)
    requires IsDisk(d) && Inodes(inodes) && FilesOnce(d, inodes) && 0 <= f < |inodes| && 0 <= n < BPFMAX
    requires On(d, Locate(d, inodes[f], n)) && IsBlock(data)
    ensures var d' := d[Locate(d, inodes[f], n) := data];
            && (forall x :: FilesOcc(d', inodes, x) == FilesOcc(d, inodes, x))
            && forall g, m :: 0 <= g < |inodes| && 0 <= m < BPFMAX ==>
                 GrownAt(d, inodes, d', inodes, f, PathOf(n), Locate(d, inodes[f], n), data, g, m)
  {
    hide PathOf, Locate, Root, RootLevel, RootsOcc, FilesOnce;
    var d' := d[Locate(d, inodes[f], n) := data];
    forall x ensures FilesOcc(d', inodes, x) == FilesOcc(d, inodes, x) {
      WriteCounts(d, inodes, f, n, data, x);
    }
    forall g, m | 0 <= g < |inodes| && 0 <= m < BPFMAX
      ensures GrownAt(d, inodes, d', inodes, f, PathOf(n), Locate(d, inodes[f], n), data, g, m)
    {
      LocateIsAt(d, inodes[g], m);
      LocateIsAt(d', inodes[g], m);
      WriteAt(d, inodes, f, n, data, g, PathOf(m));
      PathRoundTrip(n);
      PathRoundTrip(m);
      if g != f || m != n { NothingIsShared(d, inodes, f, n, g, m); }
    }
  }

  lemma FileLeaf(d: Disk, inodes: seq<Inode>, f: int, n: int)
    requires IsDisk(d) && Inodes(inodes) && FilesOnce(d, inodes) && 0 <= f < |inodes| && 0 <= n < BPFMAX
    requires On(d, Locate(d, inodes[f], n))
    ensures IsPath(PathOf(n))
    ensures Leaf(d, inodes[f].addr[PathOf(n)[0]], Level(PathOf(n)[0]), PathOf(n)[1..], Locate(d, inodes[f], n))
    ensures Occ(d, inodes[f].addr[PathOf(n)[0]], Level(PathOf(n)[0]), Locate(d, inodes[f], n)) > 0
  {
    hide PathOf, Root, RootLevel, RootsOcc, FilesOnce, Occ;
    PathRoundTrip(n);
    RootOfFile(inodes, f, PathOf(n)[0]);
    RootOnce(d, inodes, RootOf(f, PathOf(n)[0]));
    LocatedIn(d, inodes[f], n);
  }

  lemma WriteCounts(d: Disk, inodes: seq<Inode>, f: int, n: int, data: Bytes, x: int)
    requires IsDisk(d) && Inodes(inodes) && FilesOnce(d, inodes) && 0 <= f < |inodes| && 0 <= n < BPFMAX
    requires On(d, Locate(d, inodes[f], n)) && IsBlock(data)
    ensures FilesOcc(d[Locate(d, inodes[f], n) := data], inodes, x) == FilesOcc(d, inodes, x)
  {
    hide PathOf, Root, RootLevel, RootsOcc, FilesOnce, Occ, Locate, Leaf;
    var b := Locate(d, inodes[f], n);
    var d' := d[b := data];
    FileLeaf(d, inodes, f, n);
    var p := PathOf(n);
    RootOfFile(inodes, f, p[0]);
    var r := RootOf(f, p[0]);
    forall t | 0 <= t < NADDR * |inodes|
      ensures Occ(d', Root(inodes, t), RootLevel(t), x) == Occ(d, Root(inodes, t), RootLevel(t), x)
    {
      if t == r {
        WriteLeaf(d, inodes[f].addr[p[0]], Level(p[0]), p[1..], b, data, x);
      } else {
        RootsApart(d, inodes, r, t, b);
        ElsewhereAgree(d, Root(inodes, t), RootLevel(t), b, data);
        TreeFrame(d, d', Root(inodes, t), RootLevel(t), x);
      }
    }
    RootsGain(d, inodes, d', inodes, NADDR * |inodes|, -1, x, 0);
  }

  lemma WriteAt(d: Disk, inodes: seq<Inode>, f: int, n: int, data: Bytes, g: int, q: seq<int>)
    requires IsDisk(d) && Inodes(inodes) && FilesOnce(d, inodes) && 0 <= f < |inodes| && 0 <= n < BPFMAX
    requires On(d, Locate(d, inodes[f], n)) && IsBlock(data) && 0 <= g < |inodes| && IsPart(q)
    ensures At(d[Locate(d, inodes[f], n) := data], inodes[g], q) == At(d, inodes[g], q)
  {
    hide PathOf, Root, RootLevel, RootsOcc, FilesOnce, Occ, Leaf, Agree, Addr;
    var b := Locate(d, inodes[f], n);
    var d' := d[b := data];
    FileLeaf(d, inodes, f, n);
    var p := PathOf(n);
    RootOfFile(inodes, f, p[0]);
    RootOfFile(inodes, g, q[0]);
    if g == f && p[0] == q[0] {
      WriteLeafFollow(d, inodes[f].addr[p[0]], Level(p[0]), p[1..], b, data, q[1..]);
    } else {
      RootsApart(d, inodes, RootOf(f, p[0]), RootOf(g, q[0]), b);
      ElsewhereAgree(d, inodes[g].addr[q[0]], Level(q[0]), b, data);
      FollowFrame(d, d', inodes[g].addr[q[0]], Level(q[0]), q[1..]);
    }
  }

  // ----- files that read alike -----

  /** All files read alike, but for block `n` of file `f` if that is `open`. */
  ghost predicate Alike(d: Disk, inodes: seq<Inode>, d': Disk, inodes': seq<Inode>, f: int, n: int, open: bool) {
    && IsDisk(d) && Inodes(inodes) && IsDisk(d') && Inodes(inodes') && |inodes'| == |inodes|
    && (forall g {:trigger inodes'[g]} :: 0 <= g < |inodes| ==>
        inodes'[g].size == inodes[g].size && (g != f ==> inodes'[g] == inodes[g]))
    && forall g, m :: 0 <= g < |inodes| && 0 <= m < BPFMAX ==> AlikeAt(d, inodes, d', inodes', f, n, open, g, m)
  }

  ghost predicate AlikeAt(d: Disk, inodes: seq<Inode>, d': Disk, inodes': seq<Inode>, f: int, n: int, open: bool,
                          g: int, m: int)
    requires IsDisk(d) && IsDisk(d') && Inodes(inodes) && Inodes(inodes') && |inodes'| == |inodes|
    requires 0 <= g < |inodes| && 0 <= m < BPFMAX
  {
    (open && g == f && m == n) || BlockBytes(d', inodes'[g], m) == BlockBytes(d, inodes[g], m)
  }

  lemma AlikeTrans(d: Disk, I: seq<Inode>, d': Disk, I': seq<Inode>, d'': Disk, I'': seq<Inode>, f: int, n: int,
                   open: bool)
    requires Alike(d, I, d', I', f, n, false) && Alike(d', I', d'', I'', f, n, open)
    ensures Alike(d, I, d'', I'', f, n, open)
  {
    hide BlockBytes;
    forall g, m | 0 <= g < |I| && 0 <= m < BPFMAX ensures AlikeAt(d, I, d'', I'', f, n, open, g, m) {
      assert AlikeAt(d, I, d', I', f, n, false, g, m) && AlikeAt(d', I', d'', I'', f, n, open, g, m);
    }
  }

  /** Linking a block on the way to block `n`, or block `n` itself, changes at most what
      block `n` reads, and not even that if the new block is clear. */
  lemma GrownAlike(d: Disk, I: seq<Inode>, d': Disk, I': seq<Inode>, f: int, n: int, j: int, nb: int, fill: Bytes,
                   open: bool)
    requires 0 <= n < BPFMAX && 1 <= j <= |PathOf(n)| && Grown(d, I, d', I', f, PathOf(n)[..j], nb, fill)
    requires 0 <= f < |I|
    requires j == |PathOf(n)| ==> Locate(d, I[f], n) == 0
    requires fill == Zeros() || (open && j == |PathOf(n)|)
    ensures Alike(d, I, d', I', f, n, open && j == |PathOf(n)|)
  {
    hide PathOf, Locate, FilesOcc;
    PathRoundTrip(n);
    var there := open && j == |PathOf(n)|;
    forall g, m | 0 <= g < |I| && 0 <= m < BPFMAX ensures AlikeAt(d, I, d', I', f, n, there, g, m) {
      assert GrownAt(d, I, d', I', f, PathOf(n)[..j], nb, fill, g, m);
      PathRoundTrip(m);
    }
  }

  lemma AlikeSelf(d: Disk, I: seq<Inode>, f: int, n: int)
    requires IsDisk(d) && Inodes(I)
    ensures Alike(d, I, d, I, f, n, false)
  {
  }

  lemma AlikeOpen(d: Disk, I: seq<Inode>, d': Disk, I': seq<Inode>, f: int, n: int, open: bool)
    requires Alike(d, I, d', I', f, n, false)
    ensures Alike(d, I, d', I', f, n, open)
  {
    hide BlockBytes;
    forall g, m | 0 <= g < |I| && 0 <= m < BPFMAX ensures AlikeAt(d, I, d', I', f, n, open, g, m) {
      assert AlikeAt(d, I, d', I', f, n, false, g, m);
    }
  }
}
