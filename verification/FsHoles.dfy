/** Missing blocks. */
module FsHoles {
  // Which blocks a write has to allocate: those on the paths of the blocks it touches that
  // are not there, each once, although paths share indirect blocks.

  import FiniteSets
  import opened FsBytes
  import opened FsMap
  import opened FsTree
  import opened FsFiles
  import opened FsGrow

  /** Path `q` leads to no block. */
  ghost predicate Hole(d: Disk, ino: Inode, q: seq<int>)
    requires IsDisk(d) && |ino.addr| == NADDR && IsPart(q)
  {
    !On(d, At(d, ino, q))
  }

  /** How many of the blocks that the path of block `n` leads over there are not. */
  ghost function Missing(d: Disk, ino: Inode, n: int): (m: nat)
    requires IsDisk(d) && |ino.addr| == NADDR && 0 <= n < BPFMAX
  {
    PathRoundTrip(n);
    |PathOf(n)| - Steps(d, ino.addr[PathOf(n)[0]], PathOf(n)[1..])
  }

  /** Where they are: the holes on the path of block `n`. */
  ghost function HolesOn(d: Disk, ino: Inode, n: int): set<seq<int>>
    requires IsDisk(d) && |ino.addr| == NADDR && 0 <= n < BPFMAX
  {
    PathRoundTrip(n);
    set k | 1 <= k <= |PathOf(n)| && Hole(d, ino, PathOf(n)[..k]) :: PathOf(n)[..k]
  }

  /** The holes on the paths of the blocks from `a` to `e`. */
  ghost function AllHoles(d: Disk, ino: Inode, a: int, e: int): set<seq<int>>
    requires IsDisk(d) && |ino.addr| == NADDR && 0 <= a && e <= BPFMAX
    decreases e - a
  {
    if a >= e then {} else AllHoles(d, ino, a, e - 1) + HolesOn(d, ino, e - 1)
  }

  /** How many blocks it takes to have those from `a` to `e`. */
  ghost function Needed(d: Disk, ino: Inode, a: int, e: int): nat
    requires IsDisk(d) && |ino.addr| == NADDR && 0 <= a && e <= BPFMAX
  {
    |AllHoles(d, ino, a, e)|
  }

  // ----- the holes on one path -----

  lemma {:induction false} StepsIff(d: Disk, b: int, q: seq<int>, j: int)
    requires IsDisk(d) && IsIndexPath(q) && 0 <= j <= |q|
    ensures Steps(d, b, q) > j <==> On(d, Follow(d, b, q[..j]))
    decreases |q|
  {
    hide Addr;
    if j > 0 && On(d, b) {
      assert q[..j][1..] == q[1..][..j - 1];
      StepsIff(d, Addr(d[b], q[0]), q[1..], j - 1);
    }
  }

  /** Of a path the first blocks are there, and the others are not. */
  lemma HoleIff(d: Disk, ino: Inode, n: int, k: int)
    requires IsDisk(d) && |ino.addr| == NADDR && 0 <= n < BPFMAX && 1 <= k <= |PathOf(n)|
    ensures IsPart(PathOf(n)[..k])
    ensures Hole(d, ino, PathOf(n)[..k]) <==> k > |PathOf(n)| - Missing(d, ino, n)
  {
    hide PathOf, Follow, Steps;
    PathRoundTrip(n);
    var p := PathOf(n);
    assert p[..k][1..] == p[1..][..k - 1];
    StepsIff(d, ino.addr[p[0]], p[1..], k - 1);
  }

  ghost function Prefixes(p: seq<int>, lo: int): set<seq<int>>
    requires 0 <= lo
  {
    set k | lo < k <= |p| :: p[..k]
  }

  lemma {:induction false} CountPrefixes(p: seq<int>, lo: int)
    requires 0 <= lo <= |p|
    ensures |Prefixes(p, lo)| == |p| - lo
    decreases |p| - lo
  {
    if lo < |p| {
      CountPrefixes(p, lo + 1);
      assert Prefixes(p, lo) == Prefixes(p, lo + 1) + {p[..lo + 1]};
    } else {
      assert Prefixes(p, lo) == {};
    }
  }

  lemma MissingCounts(d: Disk, ino: Inode, n: int)
    requires IsDisk(d) && |ino.addr| == NADDR && 0 <= n < BPFMAX
    ensures |HolesOn(d, ino, n)| == Missing(d, ino, n)
  {
    hide PathOf, Missing, Hole;
    PathRoundTrip(n);
    var p, m := PathOf(n), Missing(d, ino, n);
    MissingFits(d, ino, n);
    forall k | 1 <= k <= |p| ensures IsPart(p[..k]) && (Hole(d, ino, p[..k]) <==> k > |p| - m) {
      HoleIff(d, ino, n, k);
    }
    assert HolesOn(d, ino, n) == Prefixes(p, |p| - m);
    CountPrefixes(p, |p| - m);
  }

  lemma MissingFits(d: Disk, ino: Inode, n: int)
    requires IsDisk(d) && |ino.addr| == NADDR && 0 <= n < BPFMAX
    ensures Missing(d, ino, n) <= |PathOf(n)|
  {
  }

  // ----- what allocating does -----

  /** The hole at `path` is filled, and no other. */
  ghost predicate Filled(d: Disk, ino: Inode, d': Disk, ino': Inode, path: seq<int>) {
    && IsDisk(d) && IsDisk(d') && |ino.addr| == |ino'.addr| == NADDR
    && forall q :: IsPart(q) ==> (Hole(d', ino', q) <==> Hole(d, ino, q) && q != path)
  }

  /** The holes on the way to `path` are filled, and no others. */
  ghost predicate FilledAlong(d: Disk, ino: Inode, d': Disk, ino': Inode, path: seq<int>) {
    && IsDisk(d) && IsDisk(d') && |ino.addr| == |ino'.addr| == NADDR
    && forall q :: IsPart(q) ==> (Hole(d', ino', q) <==> Hole(d, ino, q) && !(q <= path))
  }

  lemma RootFilled(d: Disk, inodes: seq<Inode>, f: int, s: int, nb: int, fill: Bytes)
    requires IsDisk(d) && Inodes(inodes) && 0 <= f < |inodes| && 0 <= s < NADDR && inodes[f].addr[s] == 0
    requires New(d, inodes, nb) && IsBlock(fill) && (Level(s) > 0 ==> fill == Zeros())
    ensures Filled(d, inodes[f], d[nb := fill], SetSlot(inodes, f, s, nb)[f], [s])
  {
    hide At, SetSlot;
    var d', ino' := d[nb := fill], SetSlot(inodes, f, s, nb)[f];
    forall q | IsPart(q) ensures Hole(d', ino', q) <==> Hole(d, inodes[f], q) && q != [s] {
      NewRootAt(d, inodes, f, s, nb, fill, f, q);
    }
  }

  lemma ChildFilled(d: Disk, inodes: seq<Inode>, f: int, s: int, q: seq<int>, p: int, nb: int, fill: Bytes)
    requires HoleUnder(d, inodes, f, s, q, p, nb, fill)
    ensures Filled(d, inodes[f], Link(d, p, q[|q| - 1], nb, fill), inodes[f], [s] + q)
  {
    hide At, HoleUnder;
    HoleFacts(d, inodes, f, s, q, p, nb, fill);
    NewChildCounts(d, inodes, f, s, q, p, nb, fill, 0);
    var d' := Link(d, p, q[|q| - 1], nb, fill);
    forall r | IsPart(r) ensures Hole(d', inodes[f], r) <==> Hole(d, inodes[f], r) && r != [s] + q {
      NewChildAt(d, inodes, f, s, q, p, nb, fill, f, r);
    }
  }

  /** Before a block that is there nothing is missing. */
  lemma NoHoleBefore(d: Disk, ino: Inode, p: seq<int>, q: seq<int>)
    requires IsDisk(d) && |ino.addr| == NADDR && IsPart(p) && IsPart(q) && q <= p && !Hole(d, ino, p)
    ensures !Hole(d, ino, q)
  {
    hide Follow, Steps;
    StepsIff(d, ino.addr[p[0]], p[1..], |p| - 1);
    assert p[1..][..|p| - 1] == p[1..] && p[1..][..|q| - 1] == q[1..];
    StepsIff(d, ino.addr[p[0]], p[1..], |q| - 1);
  }

  /** Where the way is free to the next block but one, filling that hole fills all on the way. */
  lemma FilledOneMore(d: Disk, ino: Inode, d': Disk, ino': Inode, p: seq<int>)
    requires IsPart(p) && Filled(d, ino, d', ino', p)
    requires |p| > 1 ==> IsPart(p[..|p| - 1]) && !Hole(d, ino, p[..|p| - 1])
    ensures FilledAlong(d, ino, d', ino', p)
  {
    hide Hole;
    forall q | IsPart(q) ensures Hole(d', ino', q) <==> Hole(d, ino, q) && !(q <= p) {
      if q <= p && q != p {
        assert q <= p[..|p| - 1];
        NoHoleBefore(d, ino, p[..|p| - 1], q);
      }
    }
  }

  /** Where a block is there, nothing is to be filled. */
  lemma FilledAlready(d: Disk, ino: Inode, p: seq<int>)
    requires IsDisk(d) && |ino.addr| == NADDR && IsPart(p) && !Hole(d, ino, p)
    ensures FilledAlong(d, ino, d, ino, p)
  {
    hide Hole;
    forall q | IsPart(q) && q <= p ensures !Hole(d, ino, q) {
      NoHoleBefore(d, ino, p, q);
    }
  }

  // The same along the path of block `n`.

  lemma PartOfPath(d: Disk, ino: Inode, n: int, k: int)
    requires IsDisk(d) && |ino.addr| == NADDR && 0 <= n < BPFMAX && 1 <= k <= |PathOf(n)|
    ensures IsPath(PathOf(n)) && IsPart(PathOf(n)[..k])
    ensures At(d, ino, PathOf(n)[..k]) == Follow(d, ino.addr[PathOf(n)[0]], PathOf(n)[1..k])
  {
    hide PathOf, Follow;
    PathRoundTrip(n);
    assert PathOf(n)[..k][1..] == PathOf(n)[1..k];
  }

  /** Block `k` of the path is there. */
  lemma FilledThere(d: Disk, ino: Inode, n: int, k: int)
    requires IsDisk(d) && |ino.addr| == NADDR && 0 <= n < BPFMAX && 1 <= k <= |PathOf(n)| && IsPath(PathOf(n))
    requires On(d, Follow(d, ino.addr[PathOf(n)[0]], PathOf(n)[1..k]))
    ensures FilledAlong(d, ino, d, ino, PathOf(n)[..k])
  {
    hide PathOf, Follow, At;
    PartOfPath(d, ino, n, k);
    FilledAlready(d, ino, PathOf(n)[..k]);
  }

  /** It is new, and those before it are there. */
  lemma FilledHere(d: Disk, ino: Inode, d': Disk, ino': Inode, n: int, k: int)
    requires IsDisk(d) && |ino.addr| == NADDR && 0 <= n < BPFMAX && 1 <= k <= |PathOf(n)| && IsPath(PathOf(n))
    requires k > 1 ==> On(d, Follow(d, ino.addr[PathOf(n)[0]], PathOf(n)[1..k - 1]))
    requires Filled(d, ino, d', ino', [PathOf(n)[0]] + PathOf(n)[1..k])
    ensures FilledAlong(d, ino, d', ino', PathOf(n)[..k])
  {
    hide PathOf, Follow, At, Filled, FilledAlong;
    var p := PathOf(n);
    PartOfPath(d, ino, n, k);
    if k > 1 { PartOfPath(d, ino, n, k - 1); }
    assert p[..k] == [p[0]] + p[1..k] && p[..k][..k - 1] == p[..k - 1];
    FilledOneMore(d, ino, d', ino', p[..k]);
  }

  lemma FilledFurther(d: Disk, ino: Inode, d1: Disk, ino1: Inode, d2: Disk, ino2: Inode, p: seq<int>, r: seq<int>)
    requires FilledAlong(d, ino, d1, ino1, p) && FilledAlong(d1, ino1, d2, ino2, r) && p <= r
    ensures FilledAlong(d, ino, d2, ino2, r)
  {
    hide Hole;
  }

  /** Writing a data block, and changing the size, fills nothing. */
  lemma WriteFills(d0: Disk, ino0: Inode, d: Disk, inodes: seq<Inode>, f: int, n: int, data: Bytes, ino': Inode,
                   path: seq<int>)
    requires IsDisk(d) && Inodes(inodes) && FilesOnce(d, inodes) && 0 <= f < |inodes| && 0 <= n < BPFMAX
    requires On(d, Locate(d, inodes[f], n)) && IsBlock(data) && ino'.addr == inodes[f].addr
    requires FilledAlong(d0, ino0, d, inodes[f], path)
    ensures FilledAlong(d0, ino0, d[Locate(d, inodes[f], n) := data], ino', path)
  {
    hide FilesOnce, PathOf, Follow;
    var d' := d[Locate(d, inodes[f], n) := data];
    forall q | IsPart(q) ensures Hole(d', ino', q) <==> Hole(d, inodes[f], q) {
      WriteAt(d, inodes, f, n, data, f, q);
    }
  }

  // ----- over a whole write -----

  /** From `t0` free blocks and the file `ino0` on `d0`, exactly the holes on the paths of the
      blocks from `a` to `n` have been filled. */
  ghost predicate Taken(d0: Disk, ino0: Inode, t0: int, d: Disk, ino: Inode, t: int, a: int, n: int) {
    && IsDisk(d0) && IsDisk(d) && |ino0.addr| == |ino.addr| == NADDR && 0 <= a <= n <= BPFMAX
    && t == t0 - Needed(d0, ino0, a, n)
    && forall q :: IsPart(q) ==> (Hole(d, ino, q) <==> Hole(d0, ino0, q) && q !in AllHoles(d0, ino0, a, n))
  }

  lemma NothingTaken(d: Disk, ino: Inode, t: int, a: int)
    requires IsDisk(d) && |ino.addr| == NADDR && 0 <= a <= BPFMAX
    ensures Taken(d, ino, t, d, ino, t, a, a)
  {
  }

  lemma InHolesOn(d: Disk, ino: Inode, n: int, q: seq<int>)
    requires IsDisk(d) && |ino.addr| == NADDR && 0 <= n < BPFMAX && IsPart(q)
    ensures q in HolesOn(d, ino, n) <==> q <= PathOf(n) && Hole(d, ino, q)
  {
    hide PathOf, Hole;
    PathRoundTrip(n);
    if q <= PathOf(n) { assert q == PathOf(n)[..|q|]; }
  }

  lemma HolesArePaths(d: Disk, ino: Inode, n: int, q: seq<int>)
    requires IsDisk(d) && |ino.addr| == NADDR && 0 <= n < BPFMAX && q in HolesOn(d, ino, n)
    ensures IsPart(q)
  {
    hide PathOf, Hole;
    PathRoundTrip(n);
  }

  /** What block `n` still takes is what it adds. */
  lemma TakesNext(d0: Disk, ino0: Inode, t0: int, d: Disk, ino: Inode, t: int, a: int, n: int)
    requires Taken(d0, ino0, t0, d, ino, t, a, n) && n < BPFMAX
    ensures Needed(d0, ino0, a, n + 1) == Needed(d0, ino0, a, n) + Missing(d, ino, n)
    ensures AllHoles(d0, ino0, a, n + 1) == AllHoles(d0, ino0, a, n) + HolesOn(d, ino, n)
  {
    hide HolesOn, Hole, Missing;
    var A, B, C := AllHoles(d0, ino0, a, n), HolesOn(d, ino, n), HolesOn(d0, ino0, n);
    forall q ensures q in B <==> q in C && q !in A {
      if q in B { HolesArePaths(d, ino, n, q); }
      if q in C { HolesArePaths(d0, ino0, n, q); }
      if IsPart(q) {
        InHolesOn(d, ino, n, q);
        InHolesOn(d0, ino0, n, q);
      }
    }
    assert A + C == A + B && A !! B;
    MissingCounts(d, ino, n);
  }

  lemma TakenNext(d0: Disk, ino0: Inode, t0: int, d: Disk, ino: Inode, t: int, a: int, n: int,
                  d': Disk, ino': Inode, t': int)
    requires Taken(d0, ino0, t0, d, ino, t, a, n) && n < BPFMAX
    requires FilledAlong(d, ino, d', ino', PathOf(n)) && t' == t - Missing(d, ino, n)
    ensures Taken(d0, ino0, t0, d', ino', t', a, n + 1)
  {
    hide HolesOn, Hole, Missing, AllHoles, PathOf;
    TakesNext(d0, ino0, t0, d, ino, t, a, n);
    forall q | IsPart(q)
      ensures Hole(d', ino', q) <==> Hole(d0, ino0, q) && q !in AllHoles(d0, ino0, a, n + 1)
    {
      InHolesOn(d, ino, n, q);
    }
  }

  /** More blocks take no fewer. */
  lemma {:induction false} NeededGrows(d: Disk, ino: Inode, a: int, n: int, e: int)
    requires IsDisk(d) && |ino.addr| == NADDR && 0 <= a && n <= e <= BPFMAX
    ensures AllHoles(d, ino, a, n) <= AllHoles(d, ino, a, e) && Needed(d, ino, a, n) <= Needed(d, ino, a, e)
    decreases e - n
  {
    hide HolesOn;
    if n < e {
      NeededGrows(d, ino, a, n, e - 1);
      FiniteSets.SubsetIsSmaller(AllHoles(d, ino, a, n), AllHoles(d, ino, a, e));
    }
  }

  /** With `t` free blocks the first `w` bytes from `start` on can be written: they are below the
      limit of a file, and the missing blocks are not more than the free ones. */
  ghost predicate Fits(d: Disk, ino: Inode, t: int, start: int, w: int)
    requires IsDisk(d) && |ino.addr| == NADDR && 0 <= start
  {
    w <= 0 || (start + w <= LIMIT && Needed(d, ino, start / BSIZE, (start + w - 1) / BSIZE + 1) <= t)
  }

  lemma FewerFit(d: Disk, ino: Inode, t: int, start: int, v: int, w: int)
    requires IsDisk(d) && |ino.addr| == NADDR && 0 <= start && v <= w && Fits(d, ino, t, start, w)
    ensures Fits(d, ino, t, start, v)
  {
    hide Needed;
    if v > 0 { NeededGrows(d, ino, start / BSIZE, (start + v - 1) / BSIZE + 1, (start + w - 1) / BSIZE + 1); }
  }

  /** What has been written fits. */
  lemma WrittenFits(d0: Disk, ino0: Inode, t0: int, d: Disk, ino: Inode, t: int, start: int, w: int, lbn: int)
    requires IsDisk(d0) && |ino0.addr| == NADDR && 0 <= start && 0 <= w && t >= 0
    requires w > 0 ==> Taken(d0, ino0, t0, d, ino, t, start / BSIZE, lbn)
    requires w > 0 ==> start + w <= LIMIT && lbn == (start + w - 1) / BSIZE + 1
    ensures Fits(d0, ino0, t0, start, w)
    ensures w > 0 ==> t == t0 - Needed(d0, ino0, start / BSIZE, (start + w - 1) / BSIZE + 1)
  {
    hide Needed;
  }

  /** Where the next block cannot be had, not a byte more does. */
  lemma NoMoreFits(d0: Disk, ino0: Inode, t0: int, d: Disk, ino: Inode, t: int, start: int, w: int, lbn: int)
    requires IsDisk(d0) && |ino0.addr| == NADDR && 0 <= start && 0 <= w && lbn == (start + w) / BSIZE
    requires lbn < BPFMAX ==> Taken(d0, ino0, t0, d, ino, t, start / BSIZE, lbn) && Missing(d, ino, lbn) > t
    ensures !Fits(d0, ino0, t0, start, w + 1)
  {
    hide Missing;
    if lbn < BPFMAX { TakesNext(d0, ino0, t0, d, ino, t, start / BSIZE, lbn); }
  }

  /** Where a write stops short it has written the most that fits. */
  lemma StopsShort(d0: Disk, ino0: Inode, t0: int, d: Disk, ino: Inode, t: int, start: int, w: int, all: int, lbn: int)
    requires IsDisk(d0) && |ino0.addr| == NADDR && 0 <= start && 0 <= w < all && t >= 0
    requires lbn == (start + w) / BSIZE
    requires start / BSIZE <= BPFMAX ==> Taken(d0, ino0, t0, d, ino, t, start / BSIZE, lbn)
    requires w > 0 ==> start + w <= LIMIT && lbn == (start + w - 1) / BSIZE + 1
    requires lbn < BPFMAX ==> IsDisk(d) && |ino.addr| == NADDR && Missing(d, ino, lbn) > t
    ensures Fits(d0, ino0, t0, start, w) && !Fits(d0, ino0, t0, start, w + 1) && !Fits(d0, ino0, t0, start, all)
  {
    hide Missing, Needed, Taken;
    NoMoreFits(d0, ino0, t0, d, ino, t, start, w, lbn);
    WrittenFits(d0, ino0, t0, d, ino, t, start, w, lbn);
    if Fits(d0, ino0, t0, start, all) { FewerFit(d0, ino0, t0, start, w + 1, all); }
  }

  lemma WithinLimit(lbn: int, off: int, n: int)
    requires 0 <= lbn < BPFMAX && 0 <= off < BSIZE && 0 < n <= BSIZE - off
    ensures BSIZE * lbn + off + n <= LIMIT && (BSIZE * lbn + off + n - 1) / BSIZE == lbn
    ensures off + n == BSIZE ==> (BSIZE * lbn + off + n) / BSIZE == lbn + 1
  {
  }
}
