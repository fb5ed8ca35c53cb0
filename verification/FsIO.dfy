/** The file system proper: truncating a file, finding or making a block of a file, and
    reading and writing bytes. */
module FsIO {
  import opened FsBytes
  import Chains
  import opened FsMap
  import opened FsTree
  import opened FsFree
  import opened FsVolume
  import opened FsFiles
  import opened FsGrow
  import opened FsHoles

  /** Every data block is free exactly once or at exactly one place in one file, and
      nothing else is either. */
  ghost predicate Balanced(d: Disk, lv: Levels, inodes: seq<Inode>, lo: int, hi: int)
    requires IsDisk(d) && Inodes(inodes)
  {
    forall x :: FreeOcc(lv, x) + FilesOcc(d, inodes, x) == if lo <= x < hi then 1 else 0
  }

  class FileSystem {
    const vol: Volume
    var inodes: seq<Inode>

    ghost predicate Valid()
      reads this, vol, vol.sfree
    {
      vol.Valid() && Inodes(inodes) && Balanced(vol.disk, vol.lv, inodes, vol.isize, vol.fsize)
    }

    constructor (v: Volume, files: seq<Inode>)
      requires v.Valid() && Inodes(files) && Balanced(v.disk, v.lv, files, v.isize, v.fsize)
      ensures Valid() && vol == v && inodes == files
    {
      vol, inodes := v, files;
    }

    /** itruncate for a regular file or directory: all blocks of the file become free, the
        slots and the size are cleared, and no other file changes. */
    method ITruncate(f: int)
      requires Valid() && 0 <= f < |inodes|
      modifies this, vol, vol.sfree
      ensures Valid() && inodes == old(inodes)[f := Inode(seq(NADDR, _ => 0), 0)]
      ensures forall x :: FreeOcc(vol.lv, x) >= FreeOcc(old(vol.lv), x)
      ensures forall x :: FreeOcc(vol.lv, x) + FilesOcc(old(vol.disk), inodes, x) ==
                FreeOcc(old(vol.lv), x) + FilesOcc(old(vol.disk), old(inodes), x)
      ensures forall g {:trigger inodes[g]} :: 0 <= g < |inodes| && g != f ==>
                SameBlocks(old(vol.disk), inodes[g], vol.disk, inodes[g])
    {
      hide FreeOcc, FilesOcc, Chain, SameBlocks, Balanced, FreeLen, SetSlot;
      ghost var d0, L0 := vol.disk, vol.lv;
      ghost var left := inodes;      // the slots that still hold their trees
      var n := NADDR;
      while n > 0
        invariant 0 <= n <= NADDR && vol.Valid() && Inodes(left) && |vol.disk| == |d0|
        invariant inodes == old(inodes) && Cleared(inodes, left, f, n)
        invariant Balanced(vol.disk, vol.lv, left, vol.isize, vol.fsize)
        invariant forall x :: FreeOcc(vol.lv, x) >= FreeOcc(L0, x)
        invariant forall x :: 0 <= x < |d0| && FreeOcc(vol.lv, x) == 0 ==> vol.disk[x] == d0[x]
      {
        n := n - 1;
        FreeSlot(f, n, left);
        OneMoreCleared(inodes, left, f, n);
        left := SetSlot(left, f, n, 0);
      }
      inodes := inodes[f := Inode(seq(NADDR, _ => 0), 0)];
      TruncatedFiles(d0, L0, old(inodes), vol.disk, vol.lv, left, inodes, f, vol.isize, vol.fsize);
    }

    /** One turn of the loops of itruncate: the tree in slot `n` becomes free. */
    method FreeSlot(f: int, n: int, ghost left: seq<Inode>)
      requires vol.Valid() && Inodes(left) && 0 <= f < |inodes| == |left| && 0 <= n < NADDR
      requires |inodes[f].addr| == NADDR && inodes[f].addr[n] == left[f].addr[n]
      requires Balanced(vol.disk, vol.lv, left, vol.isize, vol.fsize)
      modifies vol`nfree, vol`tfree, vol`disk, vol`lv, vol.sfree
      ensures vol.Valid() && |vol.disk| == |old(vol.disk)|
      ensures Balanced(vol.disk, vol.lv, SetSlot(left, f, n, 0), vol.isize, vol.fsize)
      ensures forall x :: FreeOcc(vol.lv, x) >= FreeOcc(old(vol.lv), x)
      ensures forall x :: 0 <= x < |vol.disk| && FreeOcc(vol.lv, x) == 0 ==> vol.disk[x] == old(vol.disk)[x]
    {
      hide FreeOcc, FilesOcc, Occ, Chain, Balanced, FreeLen;
      var b := inodes[f].addr[n];
      if b == 0 {
        assert left[f].addr[n := 0] == left[f].addr;
        assert SetSlot(left, f, n, 0) == left;
        return;
      }
      ghost var d := vol.disk;
      SlotLeaves(d, vol.lv, left, f, n, vol.isize, vol.fsize);
      if n >= ND {
        vol.IndFree(b, 1 + n - ND);
      } else {
        LoneBlock(d, b);
        vol.BFree(b);
      }
      OffTheFiles(d, vol.disk, vol.lv, SetSlot(left, f, n, 0), vol.isize, vol.fsize);
    }

    /** A new block in an empty slot.  It is cleared unless it is a data block that the
        caller is going to overwrite completely. */
    method NewInSlot(f: int, s: int, keep: bool) returns (nb: int)
      requires Valid() && 0 <= f < |inodes| && 0 <= s < NADDR && inodes[f].addr[s] == 0
      modifies this, vol`nfree, vol`tfree, vol`disk, vol`lv, vol.sfree
      ensures Valid() && (nb == 0 <==> old(vol.tfree) == 0)
      ensures vol.tfree == old(vol.tfree) - if nb == 0 then 0 else 1
      ensures nb == 0 ==> inodes == old(inodes) && vol.disk == old(vol.disk) && vol.tfree == 0
      ensures nb != 0 ==> inodes == SetSlot(old(inodes), f, s, nb) && On(vol.disk, nb)
      ensures nb != 0 && Level(s) > 0 ==> vol.disk[nb] == Zeros()
      ensures nb != 0 ==> Filled(old(vol.disk), old(inodes)[f], vol.disk, inodes[f], [s])
      ensures nb != 0 ==> Grown(old(vol.disk), old(inodes), vol.disk, inodes, f, [s], nb,
                                Fill(old(vol.disk), nb, keep && Level(s) == 0))
    {
      hide FreeOcc, FilesOcc, Chain, FreeLen, Sorted, Stack, Balanced, Locate, Grown, Filled;
      ghost var d, I, L := vol.disk, inodes, vol.lv;
      nb := vol.BAlloc();
      if nb == 0 {
        BalancedStill(vol.disk, L, vol.lv, inodes, vol.isize, vol.fsize);
        return;
      }
      Allocated(d, L, vol.lv, I, nb, vol.isize, vol.fsize);
      if !(keep && Level(s) == 0) {
        vol.Write(nb, Zeros());
      }
      assert vol.disk == d[nb := Fill(d, nb, keep && Level(s) == 0)];
      NewRoot(d, I, f, s, nb, Fill(d, nb, keep && Level(s) == 0));
      RootFilled(d, I, f, s, nb, Fill(d, nb, keep && Level(s) == 0));
      inodes := inodes[f := inodes[f].(addr := inodes[f].addr[s := nb])];
      assert inodes == SetSlot(I, f, s, nb);
      BalancedGrown(d, L, I, vol.disk, vol.lv, inodes, f, [s], nb, Fill(d, nb, keep && Level(s) == 0),
                    vol.isize, vol.fsize);
    }

    /** A new block at address `i` of the indirect block `p`, which index path `q` leads to. */
    method NewUnder(f: int, s: int, ghost q: seq<int>, depth: int, p: int, i: int, keep: bool) returns (nb: int)
      requires Valid() && 0 <= f < |inodes| && 0 <= s < NADDR && IsIndexPath(q) && |q| == depth && 0 <= i < NBN
      requires depth < Level(s)
      requires On(vol.disk, p) && Follow(vol.disk, inodes[f].addr[s], q) == p && Addr(vol.disk[p], i) == 0
      modifies vol`nfree, vol`tfree, vol`disk, vol`lv, vol.sfree
      ensures Valid() && (nb == 0 <==> old(vol.tfree) == 0)
      ensures vol.tfree == old(vol.tfree) - if nb == 0 then 0 else 1
      ensures nb == 0 ==> vol.disk == old(vol.disk) && vol.tfree == 0
      ensures nb != 0 ==> On(vol.disk, nb) && Follow(vol.disk, inodes[f].addr[s], q + [i]) == nb
      ensures nb != 0 && depth + 1 < Level(s) ==> vol.disk[nb] == Zeros()
      ensures nb != 0 ==> Filled(old(vol.disk), inodes[f], vol.disk, inodes[f], [s] + (q + [i]))
      ensures nb != 0 ==> Grown(old(vol.disk), inodes, vol.disk, inodes, f, [s] + (q + [i]), nb,
                                Fill(old(vol.disk), nb, keep && |q| + 1 == Level(s)))
    {
      hide FreeOcc, FilesOcc, Chain, FreeLen, Sorted, Stack, Balanced;
      hide Locate, Grown, Filled, HoleUnder, Occ, SetAddr, Addr, Follow, IsIndexPath;
      ghost var d, L := vol.disk, vol.lv;
      nb := vol.BAlloc();
      if nb == 0 {
        BalancedStill(vol.disk, L, vol.lv, inodes, vol.isize, vol.fsize);
        return;
      }
      ghost var fill := Fill(d, nb, keep && |q| + 1 == Level(s));
      Allocated(d, L, vol.lv, inodes, nb, vol.isize, vol.fsize);
      HoleFound(d, L, inodes, f, s, q, p, i, nb, fill, vol.isize, vol.fsize);
      vol.Write(p, SetAddr(vol.disk[p], i, nb));
      if !(keep && depth + 1 == Level(s)) {
        vol.Write(nb, Zeros());
      }
      assert vol.disk == Link(d, p, i, nb, fill);
      NewChild(d, inodes, f, s, q + [i], p, nb, fill);
      ChildFilled(d, inodes, f, s, q + [i], p, nb, fill);
      NewChildFollows(d, inodes, f, s, q + [i], p, nb, fill);
      BalancedGrown(d, L, inodes, vol.disk, vol.lv, inodes, f, [s] + (q + [i]), nb, fill, vol.isize, vol.fsize);
    }

    /** The first address of the path of block `n`, allocated if it is missing. */
    method FirstLevel(f: int, n: int, s: int, claim: bool) returns (b: int)
      requires Valid() && 0 <= f < |inodes| && 0 <= n < BPFMAX && IsPath(PathOf(n)) && s == PathOf(n)[0]
      modifies this, vol`nfree, vol`tfree, vol`disk, vol`lv, vol.sfree
      ensures Valid() && |inodes| == |old(inodes)|
      ensures b == 0 ==> Short(old(vol.disk), old(inodes), old(vol.tfree), f, n) && Short(vol.disk, inodes, 0, f, n)
      ensures b != 0 ==> Reached(old(vol.disk), old(inodes), old(vol.tfree), vol.disk, inodes, vol.tfree, f, n, 1, b)
      ensures b == 0 ==> vol.tfree == 0 && Alike(old(vol.disk), old(inodes), vol.disk, inodes, f, n, false)
      ensures b != 0 ==> On(vol.disk, b) && b == Follow(vol.disk, inodes[f].addr[s], PathOf(n)[1..1])
      ensures b != 0 ==> Alike(old(vol.disk), old(inodes), vol.disk, inodes, f, n, claim && |PathOf(n)| == 1)
      ensures b != 0 ==> FilledAlong(old(vol.disk), old(inodes)[f], vol.disk, inodes[f], PathOf(n)[..1])
    {
      hide FreeOcc, FilesOcc, Chain, FreeLen, Balanced, PathOf, Follow, Grown, Alike, Short, Reached;
      hide Filled, FilledAlong;
      ghost var d, I, t := vol.disk, inodes, vol.tfree;
      AlikeSelf(d, I, f, n);
      AlikeOpen(d, I, d, I, f, n, claim && |PathOf(n)| == 1);
      b := inodes[f].addr[s];
      if b == 0 {
        b := NewInSlot(f, s, claim);
        ReachedFirst(d, I, t, vol.disk, inodes, vol.tfree, f, n, b);
        if b == 0 {
          return;
        }
        SlotGrown(d, I, vol.disk, inodes, f, n, b, claim);
        assert [s] + PathOf(n)[1..1] == [s];
        FilledHere(d, I[f], vol.disk, inodes[f], n, 1);
      } else {
        AtSlot(vol.disk, b, []);
        PathEndsOn(vol.disk, vol.lv, inodes, f, s, [], vol.isize, vol.fsize);
        ReachedFirst(d, I, t, d, I, t, f, n, b);
        AtSlot(d, b, PathOf(n)[1..1]);
        FilledThere(d, I[f], n, 1);
      }
      AtSlot(vol.disk, b, PathOf(n)[1..1]);
    }

    /** Address `i` of the indirect block `b`, which the first `k` steps of the path of
        block `n` lead to, allocated if it is missing. */
    method NextLevel(f: int, n: int, s: int, k: int, b: int, i: int, claim: bool) returns (next: int)
      requires Valid() && 0 <= f < |inodes| && 0 <= n < BPFMAX && IsPath(PathOf(n)) && s == PathOf(n)[0]
      requires 1 <= k < |PathOf(n)| && i == PathOf(n)[k]
      requires On(vol.disk, b) && b == Follow(vol.disk, inodes[f].addr[s], PathOf(n)[1..k])
      modifies vol`nfree, vol`tfree, vol`disk, vol`lv, vol.sfree
      ensures Valid()
      ensures Stepped(old(vol.disk), old(vol.tfree), b, i, vol.disk, vol.tfree, next, k + 1 == |PathOf(n)|)
      ensures next == 0 ==> vol.tfree == 0 && Alike(old(vol.disk), inodes, vol.disk, inodes, f, n, false)
      ensures next != 0 ==> On(vol.disk, next) && next == Follow(vol.disk, inodes[f].addr[s], PathOf(n)[1..k + 1])
      ensures next != 0 ==> Alike(old(vol.disk), inodes, vol.disk, inodes, f, n, claim && k + 1 == |PathOf(n)|)
      ensures next != 0 ==> FilledAlong(old(vol.disk), inodes[f], vol.disk, inodes[f], PathOf(n)[..k + 1])
    {
      hide FreeOcc, FilesOcc, Chain, FreeLen, PathOf, Follow, Grown, Alike, Addr;
      hide Filled, FilledAlong;
      ghost var d, p := vol.disk, PathOf(n);
      AlikeSelf(d, inodes, f, n);
      AlikeOpen(d, inodes, d, inodes, f, n, claim && k + 1 == |p|);
      assert p[1..k + 1] == p[1..k] + [i];
      FollowOn(d, inodes[f].addr[s], p[1..k], i);
      next := Addr(vol.disk[b], i);
      if next == 0 {
        next := NewUnder(f, s, p[1..k], k - 1, b, i, claim);
        if next != 0 {
          BelowGrown(d, vol.disk, inodes, f, n, k, next, claim);
          FilledHere(d, inodes[f], vol.disk, inodes[f], n, k + 1);
        }
      } else {
        PathEndsOn(d, vol.lv, inodes, f, s, p[1..k + 1], vol.isize, vol.fsize);
        FilledThere(d, inodes[f], n, k + 1);
      }
    }

    /** aread: the block of the disk that holds block `blkofs` of file `f`.  Missing blocks
        on the way, and the block itself, are allocated.  All files read as before, except
        that the contents of a block which the caller claims for overwriting may be
        anything.  0 reports a block number beyond the limit, or a full disk. */
    method ARead(f: int, blkofs: int, claim: bool) returns (b: int)
      requires Valid() && 0 <= f < |inodes| && blkofs >= 0
      modifies this, vol`nfree, vol`tfree, vol`disk, vol`lv, vol.sfree
      ensures Valid() && |inodes| == |old(inodes)|
      ensures b == 0 <==> blkofs >= BPFMAX || Missing(old(vol.disk), old(inodes)[f], blkofs) > old(vol.tfree)
      ensures b != 0 ==> vol.tfree == old(vol.tfree) - Missing(old(vol.disk), old(inodes)[f], blkofs)
      ensures b == 0 && blkofs < BPFMAX ==> vol.tfree == 0 && Missing(vol.disk, inodes[f], blkofs) > 0
      ensures b == 0 ==> Alike(old(vol.disk), old(inodes), vol.disk, inodes, f, blkofs, false)
      ensures b != 0 ==> blkofs < BPFMAX && On(vol.disk, b) && Locate(vol.disk, inodes[f], blkofs) == b
      ensures b != 0 ==> Alike(old(vol.disk), old(inodes), vol.disk, inodes, f, blkofs, claim)
      ensures b != 0 ==> FilledAlong(old(vol.disk), old(inodes)[f], vol.disk, inodes[f], PathOf(blkofs))
    {
      hide FreeOcc, FilesOcc, Chain, FreeLen, Sorted, PathOf, Locate, Follow, Grown, Alike, Balanced;
      hide Missing, Short, Reached, Stepped, OnTheWay, IsPath, FilledAlong;
      ghost var d0, I0, t0 := vol.disk, inodes, vol.tfree;
      AlikeSelf(d0, I0, f, blkofs);
      var list := new int[1 + NI];
      var end, nblocks := Lmap(blkofs, list);
      if end == -1 {
        return 0;
      }
      ghost var p := PathOf(blkofs);
      PathRoundTrip(blkofs);
      var listp := end - 1;
      var s := list[listp];
      assert s == p[0];
      b := FirstLevel(f, blkofs, s, claim);
      FirstOnTheWay(d0, I0, t0, vol.disk, inodes, vol.tfree, f, blkofs, b, claim);
      while listp != 0 && b != 0
        invariant 0 <= listp < end && Valid() && |inodes| == |I0| && Chains.Reverse(list[..end]) == p
        invariant OnTheWay(d0, I0, t0, vol.disk, inodes, vol.tfree, f, blkofs, end - listp, b, claim)
      {
        listp := listp - 1;
        ghost var d, t, was := vol.disk, vol.tfree, b;
        assert list[listp] == p[end - 1 - listp];
        OnTheWayIs(d0, I0, t0, d, inodes, t, f, blkofs, end - 1 - listp, b, claim);
        b := NextLevel(f, blkofs, s, end - 1 - listp, b, list[listp], claim);
        NextOnTheWay(d0, I0, t0, d, inodes, t, f, blkofs, end - 1 - listp, was, vol.disk, vol.tfree, b, claim);
      }
      Arrived(d0, I0, t0, vol.disk, inodes, vol.tfree, f, blkofs, end - listp, b, claim);
    }

    /** One turn of the loop of fwrite: `chunk` goes to offset `off` of block `lbn`. */
    method WriteChunk(f: int, lbn: int, off: int, chunk: seq<int>) returns (ok: bool)
      requires Valid() && 0 <= f < |inodes| && 0 <= lbn && 0 <= off && 0 < |chunk| <= BSIZE - off
      modifies this, vol`nfree, vol`tfree, vol`disk, vol`lv, vol.sfree
      ensures Valid() && |inodes| == |old(inodes)|
      ensures ok ==> Written(old(vol.disk), old(inodes), vol.disk, inodes, f, BSIZE * lbn + off, chunk)
      ensures ok <==> lbn < BPFMAX && Missing(old(vol.disk), old(inodes)[f], lbn) <= old(vol.tfree)
      ensures ok ==> vol.tfree == old(vol.tfree) - Missing(old(vol.disk), old(inodes)[f], lbn)
      ensures ok ==> FilledAlong(old(vol.disk), old(inodes)[f], vol.disk, inodes[f], PathOf(lbn))
      ensures !ok ==> lbn >= BPFMAX || (vol.tfree == 0 && Missing(vol.disk, inodes[f], lbn) > 0)
      ensures !ok ==> Alike(old(vol.disk), old(inodes), vol.disk, inodes, f, lbn, false)
    {
      hide FreeOcc, FilesOcc, Chain, FreeLen, Locate, Alike, Written, Overwritten, Balanced, Missing;
      hide FilledAlong, PathOf, FilesOnce;
      ghost var d, I := vol.disk, inodes;
      var n := |chunk|;
      var com := off == 0 && n == BSIZE;
      var b := ARead(f, lbn, com);
      if b == 0 {
        return false;
      }
      ghost var d1, I1 := vol.disk, inodes;
      LocatedNotFree(d1, vol.lv, I1, f, lbn, vol.isize, vol.fsize);
      var blk := vol.disk[b];
      vol.Write(b, blk[..off] + chunk + blk[off + n..]);
      var seek := BSIZE * lbn + off + n;
      if seek > inodes[f].size {
        inodes := inodes[f := inodes[f].(size := seek)];
      }
      BlockWritten(d1, vol.lv, I1, inodes, f, lbn, Patch(blk, off, chunk), vol.isize, vol.fsize);
      WriteFills(d, I[f], d1, I1, f, lbn, Patch(blk, off, chunk), inodes[f], PathOf(lbn));
      ChunkWritten(d, I, d1, I1, vol.disk, inodes, f, lbn, off, chunk, com);
      ok := true;
    }

    /** fwrite on a regular file: writes as many bytes of `data` as fit, which the caller could
        count before the call, and returns how many. */
    method FWrite(f: int, start: int, data: seq<int>) returns (w: int)
      requires Valid() && 0 <= f < |inodes| && 0 <= start
      modifies this, vol`nfree, vol`tfree, vol`disk, vol`lv, vol.sfree
      ensures Valid() && |inodes| == |old(inodes)| && 0 <= w <= |data|
      ensures Fits(old(vol.disk), old(inodes)[f], old(vol.tfree), start, w)
      ensures w < |data| ==> !Fits(old(vol.disk), old(inodes)[f], old(vol.tfree), start, w + 1)
      ensures w == |data| <==> Fits(old(vol.disk), old(inodes)[f], old(vol.tfree), start, |data|)
      ensures w == |data| > 0 ==>
                vol.tfree == old(vol.tfree) -
                             Needed(old(vol.disk), old(inodes)[f], start / BSIZE, (start + w - 1) / BSIZE + 1)
      ensures w < |data| ==>
                start + w >= LIMIT || (vol.tfree == 0 && Missing(vol.disk, inodes[f], (start + w) / BSIZE) > 0)
      ensures Written(old(vol.disk), old(inodes), vol.disk, inodes, f, start, data[..w])
    {
      hide FreeOcc, FilesOcc, Chain, FreeLen, Sorted, Alike, Written, Balanced;
      hide Missing, FilledAlong, Taken, Needed, Fits, PathOf, Locate;
      ghost var d0, I0, t0, a := vol.disk, inodes, vol.tfree, start / BSIZE;
      NothingWritten(d0, I0, f, start);
      if a <= BPFMAX { NothingTaken(d0, I0[f], t0, a); }
      var lbn, off, seek := start / BSIZE, start % BSIZE, start;
      w := 0;
      assert data[..0] == [];
      while w < |data|
        invariant Valid() && |inodes| == |I0| && 0 <= w <= |data| && seek == start + w
        invariant w < |data| ==> 0 <= off < BSIZE && 0 <= lbn && seek == BSIZE * lbn + off
        invariant w == 0 ==> lbn == a && vol.disk == d0 && inodes == I0 && vol.tfree == t0
        invariant w > 0 ==> start + w <= LIMIT && lbn == (start + w - 1) / BSIZE + 1
        invariant a <= BPFMAX ==> Taken(d0, I0[f], t0, vol.disk, inodes[f], vol.tfree, a, lbn)
        invariant Written(d0, I0, vol.disk, inodes, f, start, data[..w])
      {
        var n := BSIZE - off;
        if |data| - w < n {
          n := |data| - w;
        }
        ghost var d, I, t := vol.disk, inodes, vol.tfree;
        var ok := WriteChunk(f, lbn, off, data[w..w + n]);
        if !ok {
          WrittenThenAlike(d0, I0, d, I, vol.disk, inodes, f, start, data[..w], lbn);
          StopsShort(d0, I0[f], t0, d, I[f], t, start, w, |data|, lbn);
          return;
        }
        WrittenMore(d0, I0, d, I, vol.disk, inodes, f, start, data[..w], data[w..w + n]);
        assert data[..w] + data[w..w + n] == data[..w + n];
        TakenNext(d0, I0[f], t0, d, I[f], t, a, lbn, vol.disk, inodes[f], vol.tfree);
        WithinLimit(lbn, off, n);
        lbn := lbn + 1;
        off := 0;
        seek := seek + n;
        w := w + n;
      }
      WrittenFits(d0, I0[f], t0, vol.disk, inodes[f], vol.tfree, start, w, lbn);
    }
  }

  // ----- what writing means for the bytes of the files -----

  /** The bytes of file `f` from `start` on are `data`, the file has grown to hold them,
      and every other byte of every file is as before. */
  ghost predicate Written(d: Disk, I: seq<Inode>, d': Disk, I': seq<Inode>, f: int, start: int, data: seq<int>) {
    && IsDisk(d) && Inodes(I) && IsDisk(d') && Inodes(I') && |I'| == |I| && 0 <= f < |I| && 0 <= start
    && (data != [] ==> start + |data| <= LIMIT)
    && I'[f].size == (if data != [] && start + |data| > I[f].size then start + |data| else I[f].size)
    && (forall g {:trigger I'[g]} :: 0 <= g < |I| && g != f ==> I'[g] == I[g])
    && forall g, k :: 0 <= g < |I| && 0 <= k < LIMIT ==> WrittenAt(d, I, d', I', f, start, data, g, k)
  }

  ghost predicate WrittenAt(d: Disk, I: seq<Inode>, d': Disk, I': seq<Inode>, f: int, start: int, data: seq<int>,
                            g: int, k: int)
    requires IsDisk(d) && IsDisk(d') && Inodes(I) && Inodes(I') && |I'| == |I| && 0 <= g < |I| && 0 <= k < LIMIT
  {
    ByteAt(d', I'[g], k) == if g == f && start <= k < start + |data| then data[k - start] else ByteAt(d, I[g], k)
  }

  lemma NothingWritten(d: Disk, I: seq<Inode>, f: int, start: int)
    requires IsDisk(d) && Inodes(I) && 0 <= f < |I| && 0 <= start
    ensures Written(d, I, d, I, f, start, [])
  {
  }

  lemma WrittenThenAlike(d: Disk, I: seq<Inode>, d1: Disk, I1: seq<Inode>, d2: Disk, I2: seq<Inode>, f: int,
                         start: int, data: seq<int>, n: int)
    requires Written(d, I, d1, I1, f, start, data) && Alike(d1, I1, d2, I2, f, n, false)
    ensures Written(d, I, d2, I2, f, start, data)
  {
    hide BlockBytes;
    forall g, k | 0 <= g < |I| && 0 <= k < LIMIT ensures WrittenAt(d, I, d2, I2, f, start, data, g, k) {
      assert WrittenAt(d, I, d1, I1, f, start, data, g, k);
      assert AlikeAt(d1, I1, d2, I2, f, n, false, g, k / BSIZE);
    }
  }

  lemma WrittenMore(d: Disk, I: seq<Inode>, d1: Disk, I1: seq<Inode>, d2: Disk, I2: seq<Inode>, f: int, start: int,
                    data: seq<int>, more: seq<int>)
    requires Written(d, I, d1, I1, f, start, data) && Written(d1, I1, d2, I2, f, start + |data|, more) && more != []
    ensures Written(d, I, d2, I2, f, start, data + more)
  {
    hide ByteAt;
    forall g, k | 0 <= g < |I| && 0 <= k < LIMIT ensures WrittenAt(d, I, d2, I2, f, start, data + more, g, k) {
      assert WrittenAt(d, I, d1, I1, f, start, data, g, k) && WrittenAt(d1, I1, d2, I2, f, start + |data|, more, g, k);
    }
  }

  function Patch(blk: Bytes, off: int, chunk: seq<int>): (r: Bytes)
    requires IsBlock(blk) && 0 <= off && off + |chunk| <= BSIZE
    ensures IsBlock(r) && forall o :: 0 <= o < BSIZE ==>
              r[o] == if off <= o < off + |chunk| then chunk[o - off] else blk[o]
  {
    blk[..off] + chunk + blk[off + |chunk|..]
  }

  lemma LocatedNotFree(d: Disk, lv: Levels, inodes: seq<Inode>, f: int, n: int, lo: int, hi: int)
    requires IsDisk(d) && Inodes(inodes) && Balanced(d, lv, inodes, lo, hi) && 0 <= f < |inodes| && 0 <= n < BPFMAX
    requires Locate(d, inodes[f], n) != 0
    ensures FreeOcc(lv, Locate(d, inodes[f], n)) == 0 && FilesOnce(d, inodes)
  {
    hide FreeOcc, FilesOcc, Locate;
    LocatedCounts(d, inodes, f, n);
    forall x ensures FreeOcc(lv, x) + FilesOcc(d, inodes, x) <= 1 {
    }
    forall x ensures FilesOcc(d, inodes, x) <= 1 {
      assert FreeOcc(lv, x) + FilesOcc(d, inodes, x) <= 1;
    }
    assert FreeOcc(lv, Locate(d, inodes[f], n)) + FilesOcc(d, inodes, Locate(d, inodes[f], n)) <= 1;
  }

  /** Block `n` of file `f` holds `data`; all other blocks of files are as before. */
  ghost predicate Overwritten(d: Disk, I: seq<Inode>, d': Disk, I': seq<Inode>, f: int, n: int, data: Bytes)
    requires IsDisk(d) && Inodes(I)
  {
    && IsDisk(d') && Inodes(I') && |I'| == |I|
    && forall g, m :: 0 <= g < |I| && 0 <= m < BPFMAX ==>
        BlockBytes(d', I'[g], m) == if g == f && m == n then data else BlockBytes(d, I[g], m)
  }

  /** Block `n` of file `f` is overwritten, and the size may change. */
  lemma BlockWritten(d: Disk, lv: Levels, I: seq<Inode>, I': seq<Inode>, f: int, n: int, data: Bytes, lo: int, hi: int)
    requires IsDisk(d) && Inodes(I) && Inodes(I') && 0 <= f < |I| && |I'| == |I|
    requires I' == I[f := I[f].(size := I'[f].size)]
    requires 0 <= n < BPFMAX && On(d, Locate(d, I[f], n)) && IsBlock(data) && Balanced(d, lv, I, lo, hi)
    ensures Balanced(d[Locate(d, I[f], n) := data], lv, I', lo, hi)
    ensures Overwritten(d, I, d[Locate(d, I[f], n) := data], I', f, n, data)
  {
    hide FreeOcc, FilesOcc, Locate, BlockBytes, PathOf;
    LocatedNotFree(d, lv, I, f, n, lo, hi);
    WriteData(d, I, f, n, data);
    var b := Locate(d, I[f], n);
    var d' := d[b := data];
    SizesOnly(d', I, I', f);
    forall g, m | 0 <= g < |I| && 0 <= m < BPFMAX
      ensures BlockBytes(d', I'[g], m) == if g == f && m == n then data else BlockBytes(d, I[g], m)
    {
      assert GrownAt(d, I, d', I, f, PathOf(n), b, data, g, m);
      PathRoundTrip(n);
      PathRoundTrip(m);
    }
  }

  /** A change of a size changes no tree and no byte. */
  lemma SizesOnly(d: Disk, I: seq<Inode>, I': seq<Inode>, f: int)
    requires IsDisk(d) && Inodes(I) && Inodes(I') && 0 <= f < |I| && |I'| == |I|
    requires I' == I[f := I[f].(size := I'[f].size)]
    ensures forall x :: FilesOcc(d, I', x) == FilesOcc(d, I, x)
    ensures forall g, m :: 0 <= g < |I| && 0 <= m < BPFMAX ==> BlockBytes(d, I'[g], m) == BlockBytes(d, I[g], m)
  {
    hide RootsOcc, Occ;
    forall x ensures FilesOcc(d, I', x) == FilesOcc(d, I, x) {
      RootsGain(d, I, d, I', NADDR * |I|, -1, x, 0);
    }
  }

  /** What `ChunkWritten` needs to know. */
  ghost predicate ChunkIn(d: Disk, I: seq<Inode>, d1: Disk, I1: seq<Inode>, d2: Disk, I2: seq<Inode>, f: int, n: int,
                          off: int, chunk: seq<int>, com: bool)
  {
    && 0 <= f < |I| && 0 <= n < BPFMAX && 0 <= off && 0 < |chunk| <= BSIZE - off
        && (com ==> off == 0 && |chunk| == BSIZE)
    && Alike(d, I, d1, I1, f, n, com) && On(d1, Locate(d1, I1[f], n))
    && Overwritten(d1, I1, d2, I2, f, n, Patch(d1[Locate(d1, I1[f], n)], off, chunk))
  }

  lemma ByteWritten(d: Disk, I: seq<Inode>, d1: Disk, I1: seq<Inode>, d2: Disk, I2: seq<Inode>, f: int, n: int,
                    off: int, chunk: seq<int>, com: bool, g: int, k: int)
    requires ChunkIn(d, I, d1, I1, d2, I2, f, n, off, chunk, com) && 0 <= g < |I| && 0 <= k < LIMIT
    ensures WrittenAt(d, I, d2, I2, f, BSIZE * n + off, chunk, g, k)
  {
    hide Patch, Locate;
    assert AlikeAt(d, I, d1, I1, f, n, com, g, k / BSIZE);
  }

  lemma ChunkWritten(d: Disk, I: seq<Inode>, d1: Disk, I1: seq<Inode>, d2: Disk, I2: seq<Inode>, f: int, n: int,
                     off: int, chunk: seq<int>, com: bool)
    requires ChunkIn(d, I, d1, I1, d2, I2, f, n, off, chunk, com)
    requires forall g {:trigger I2[g]} :: 0 <= g < |I| && g != f ==> I2[g] == I1[g]
    requires I2[f].size == if BSIZE * n + off + |chunk| > I1[f].size then BSIZE * n + off + |chunk| else I1[f].size
    ensures Written(d, I, d2, I2, f, BSIZE * n + off, chunk)
  {
    hide Patch, Locate, WrittenAt, BlockBytes;
    var start := BSIZE * n + off;
    forall g, k | 0 <= g < |I| && 0 <= k < LIMIT ensures WrittenAt(d, I, d2, I2, f, start, chunk, g, k) {
      ByteWritten(d, I, d1, I1, d2, I2, f, n, off, chunk, com, g, k);
    }
  }

  lemma AtSlot(d: Disk, b: int, none: seq<int>)
    requires IsDisk(d) && |none| == 0
    ensures Follow(d, b, none) == b
  {
  }

  lemma AtBlock(d: Disk, ino: Inode, n: int)
    requires IsDisk(d) && |ino.addr| == NADDR && 0 <= n < BPFMAX
    ensures IsPath(PathOf(n)) && Locate(d, ino, n) == Follow(d, ino.addr[PathOf(n)[0]], PathOf(n)[1..|PathOf(n)|])
  {
    PathRoundTrip(n);
    assert PathOf(n)[1..] == PathOf(n)[1..|PathOf(n)|];
  }

  // ----- how many blocks it takes -----

  /** There are not as many free blocks. */
  ghost predicate Short(d: Disk, I: seq<Inode>, t: int, f: int, n: int) {
    IsDisk(d) && Inodes(I) && 0 <= f < |I| && 0 <= n < BPFMAX && Missing(d, I[f], n) > t
  }

  /** From `t0` free blocks in a file system with files `I0` on `d0` the first `k` blocks of the
      path have been reached, the last of them being `b`: those that were missing were taken,
      and below a new block there is nothing yet. */
  ghost predicate Reached(d0: Disk, I0: seq<Inode>, t0: int, d: Disk, I: seq<Inode>, t: int, f: int, n: int, k: int,
                          b: int)
  {
    && IsDisk(d0) && Inodes(I0) && 0 <= f < |I0| && 0 <= n < BPFMAX && On(d, b)
    && var m := |PathOf(n)| - Missing(d0, I0[f], n);
       if k <= m then d == d0 && I == I0 && t == t0
       else t == t0 - (k - m) && (k < |PathOf(n)| ==> d[b] == Zeros())
  }

  /** Address `i` of block `b` is followed, and taken from the free blocks if it is missing. */
  ghost predicate Stepped(d: Disk, t: int, b: int, i: int, d': Disk, t': int, next: int, last: bool) {
    && IsDisk(d) && On(d, b) && 0 <= i < NBN
    && if Addr(d[b], i) != 0 then next == Addr(d[b], i) && d' == d && t' == t && On(d, next)
       else if t == 0 then next == 0 && d' == d
       else On(d', next) && t' == t - 1 && (!last ==> d'[next] == Zeros())
  }

  lemma ReachedFirst(d: Disk, I: seq<Inode>, t: int, d': Disk, I': seq<Inode>, t': int, f: int, n: int, b: int)
    requires IsDisk(d) && Inodes(I) && 0 <= f < |I| && 0 <= n < BPFMAX && IsPath(PathOf(n))
    requires var a := I[f].addr[PathOf(n)[0]];
             if a != 0 then b == a && d' == d && I' == I && t' == t && On(d, b)
             else if t == 0 then b == 0 && d' == d && I' == I
             else On(d', b) && t' == t - 1 && (|PathOf(n)| > 1 ==> d'[b] == Zeros())
    ensures b == 0 ==> Short(d, I, t, f, n) && Short(d', I', 0, f, n)
    ensures b != 0 ==> Reached(d, I, t, d', I', t', f, n, 1, b)
  {
    hide PathOf;
  }

  lemma ReachedNext(d0: Disk, I0: seq<Inode>, t0: int, d: Disk, I: seq<Inode>, t: int, f: int, n: int, k: int, b: int,
                    d': Disk, t': int, next: int)
    requires Reached(d0, I0, t0, d, I, t, f, n, k, b) && 1 <= k < |PathOf(n)| && IsPath(PathOf(n))
    requires IsDisk(d) && Inodes(I) && |I| == |I0|
    requires b == Follow(d, I[f].addr[PathOf(n)[0]], PathOf(n)[1..k])
    requires Stepped(d, t, b, PathOf(n)[k], d', t', next, k + 1 == |PathOf(n)|)
    ensures next == 0 ==> Short(d0, I0, t0, f, n) && Short(d', I, 0, f, n)
    ensures next != 0 ==> Reached(d0, I0, t0, d', I, t', f, n, k + 1, next)
  {
    hide PathOf, Follow, Addr, Steps;
    var p := PathOf(n);
    var m := |p| - Missing(d0, I0[f], n);
    if next == 0 {
      assert p[1..][..k - 1] == p[1..k];
      StepsAt(d, I[f].addr[p[0]], p[1..], k - 1);
    }
    if k <= m {
      assert p[1..][..k - 1] == p[1..k];
      StepsAt(d0, I0[f].addr[p[0]], p[1..], k - 1);
    } else {
      ZeroAddr(p[k]);
    }
  }

  /** After `k` blocks of the path: the last one is `b`, or it cannot be had. */
  ghost predicate OnTheWay(d0: Disk, I0: seq<Inode>, t0: int, d: Disk, I: seq<Inode>, t: int, f: int, n: int, k: int,
                           b: int, claim: bool)
  {
    && IsDisk(d0) && Inodes(I0) && IsDisk(d) && Inodes(I) && |I| == |I0| && 0 <= f < |I|
    && 0 <= n < BPFMAX && IsPath(PathOf(n)) && 1 <= k <= |PathOf(n)|
    && Alike(d0, I0, d, I, f, n, b != 0 && claim && k == |PathOf(n)|)
    && if b == 0 then t == 0 && Short(d0, I0, t0, f, n) && Short(d, I, 0, f, n)
       else On(d, b) && b == Follow(d, I[f].addr[PathOf(n)[0]], PathOf(n)[1..k])
            && Reached(d0, I0, t0, d, I, t, f, n, k, b)
            && FilledAlong(d0, I0[f], d, I[f], PathOf(n)[..k])
  }

  lemma OnTheWayIs(d0: Disk, I0: seq<Inode>, t0: int, d: Disk, I: seq<Inode>, t: int, f: int, n: int, k: int, b: int,
                   claim: bool)
    requires OnTheWay(d0, I0, t0, d, I, t, f, n, k, b, claim) && b != 0
    ensures IsDisk(d) && Inodes(I) && 0 <= f < |I| && 0 <= n < BPFMAX && IsPath(PathOf(n)) && 1 <= k <= |PathOf(n)|
    ensures 0 <= PathOf(n)[0] < NADDR && IsIndexPath(PathOf(n)[1..k])
    ensures On(d, b) && b == Follow(d, I[f].addr[PathOf(n)[0]], PathOf(n)[1..k])
  {
    hide PathOf, Follow, Alike, Reached, Short, FilledAlong;
  }

  lemma FirstOnTheWay(d0: Disk, I0: seq<Inode>, t0: int, d: Disk, I: seq<Inode>, t: int, f: int, n: int, b: int,
                      claim: bool)
    requires IsDisk(d0) && Inodes(I0) && IsDisk(d) && Inodes(I) && |I| == |I0| && 0 <= f < |I|
    requires 0 <= n < BPFMAX && IsPath(PathOf(n))
    requires b == 0 ==> t == 0 && Alike(d0, I0, d, I, f, n, false) && Short(d0, I0, t0, f, n) && Short(d, I, 0, f, n)
    requires b != 0 ==>
               && On(d, b) && b == Follow(d, I[f].addr[PathOf(n)[0]], PathOf(n)[1..1])
               && Reached(d0, I0, t0, d, I, t, f, n, 1, b)
               && Alike(d0, I0, d, I, f, n, claim && |PathOf(n)| == 1)
               && FilledAlong(d0, I0[f], d, I[f], PathOf(n)[..1])
    ensures OnTheWay(d0, I0, t0, d, I, t, f, n, 1, b, claim)
  {
    hide PathOf, Follow, Alike, Reached, Short, FilledAlong;
  }

  lemma NextOnTheWay(d0: Disk, I0: seq<Inode>, t0: int, d: Disk, I: seq<Inode>, t: int, f: int, n: int, k: int, b: int,
                     d': Disk, t': int, next: int, claim: bool)
    requires OnTheWay(d0, I0, t0, d, I, t, f, n, k, b, claim) && b != 0 && k < |PathOf(n)| && IsDisk(d')
    requires Stepped(d, t, b, PathOf(n)[k], d', t', next, k + 1 == |PathOf(n)|)
    requires next == 0 ==> t' == 0 && Alike(d, I, d', I, f, n, false)
    requires next != 0 ==>
               && On(d', next) && next == Follow(d', I[f].addr[PathOf(n)[0]], PathOf(n)[1..k + 1])
               && Alike(d, I, d', I, f, n, claim && k + 1 == |PathOf(n)|)
               && FilledAlong(d, I[f], d', I[f], PathOf(n)[..k + 1])
    ensures OnTheWay(d0, I0, t0, d', I, t', f, n, k + 1, next, claim)
  {
    hide PathOf, Follow, Alike, Reached, Short, Stepped, FilledAlong;
    if next != 0 { FilledFurther(d0, I0[f], d, I[f], d', I[f], PathOf(n)[..k], PathOf(n)[..k + 1]); }
    AlikeTrans(d0, I0, d, I, d', I, f, n, next != 0 && claim && k + 1 == |PathOf(n)|);
    ReachedNext(d0, I0, t0, d, I, t, f, n, k, b, d', t', next);
  }

  lemma Arrived(d0: Disk, I0: seq<Inode>, t0: int, d: Disk, I: seq<Inode>, t: int, f: int, n: int, k: int, b: int,
                claim: bool)
    requires OnTheWay(d0, I0, t0, d, I, t, f, n, k, b, claim) && (b != 0 ==> k == |PathOf(n)|) && t >= 0
    ensures IsDisk(d0) && IsDisk(d) && Inodes(I0) && Inodes(I) && |I| == |I0| && 0 <= f < |I| && 0 <= n < BPFMAX
    ensures b == 0 <==> Missing(d0, I0[f], n) > t0
    ensures b == 0 ==> t == 0 && Missing(d, I[f], n) > 0
    ensures b != 0 ==> t == t0 - Missing(d0, I0[f], n) && On(d, b) && Locate(d, I[f], n) == b
    ensures b != 0 ==> FilledAlong(d0, I0[f], d, I[f], PathOf(n))
    ensures Alike(d0, I0, d, I, f, n, b != 0 && claim)
  {
    hide PathOf, Follow, Alike, Locate, FilledAlong;
    assert PathOf(n)[..|PathOf(n)|] == PathOf(n);
    if b != 0 { AtBlock(d, I[f], n); }
  }

  /** A new block in the slot of block `n`. */
  lemma SlotGrown(d: Disk, I: seq<Inode>, d': Disk, I': seq<Inode>, f: int, n: int, nb: int, claim: bool)
    requires IsDisk(d) && Inodes(I) && 0 <= f < |I| && 0 <= n < BPFMAX && On(d, nb) && IsPath(PathOf(n))
    requires I[f].addr[PathOf(n)[0]] == 0
    requires Grown(d, I, d', I', f, [PathOf(n)[0]], nb, Fill(d, nb, claim && Level(PathOf(n)[0]) == 0))
    ensures Alike(d, I, d', I', f, n, claim && |PathOf(n)| == 1)
  {
    hide PathOf, Grown, Alike;
    var p := PathOf(n);
    assert p[..1] == [p[0]];
    if |p| == 1 { AtBlock(d, I[f], n); }
    GrownAlike(d, I, d', I', f, n, 1, nb, Fill(d, nb, claim && Level(p[0]) == 0), claim);
  }

  /** A new block at depth `k` of the path of block `n`. */
  lemma BelowGrown(d: Disk, d': Disk, I: seq<Inode>, f: int, n: int, k: int, nb: int, claim: bool)
    requires IsDisk(d) && Inodes(I) && 0 <= f < |I| && 0 <= n < BPFMAX && On(d, nb) && IsPath(PathOf(n))
    requires 1 <= k < |PathOf(n)|
    requires Follow(d, I[f].addr[PathOf(n)[0]], PathOf(n)[1..k + 1]) == 0
    requires Grown(d, I, d', I, f, [PathOf(n)[0]] + (PathOf(n)[1..k] + [PathOf(n)[k]]), nb,
                   Fill(d, nb, claim && k == Level(PathOf(n)[0])))
    ensures Alike(d, I, d', I, f, n, claim && k + 1 == |PathOf(n)|)
  {
    hide PathOf, Grown, Alike, Follow;
    var p := PathOf(n);
    assert p[..k + 1] == [p[0]] + (p[1..k] + [p[k]]);
    if k + 1 == |p| { AtBlock(d, I[f], n); }
    GrownAlike(d, I, d', I, f, n, k + 1, nb, Fill(d, nb, claim && k == Level(p[0])), claim);
  }

  /** The contents of a new block. */
  function Fill(d: Disk, nb: int, keep: bool): Bytes
    requires On(d, nb)
  {
    if keep then d[nb] else Zeros()
  }

  lemma Allocated(d: Disk, lv: Levels, lv': Levels, inodes: seq<Inode>, nb: int, lo: int, hi: int)
    requires IsDisk(d) && Inodes(inodes) && Balanced(d, lv, inodes, lo, hi) && 0 < lo <= nb < hi <= |d| <= 0x1_0000_0000
    requires FreeOcc(lv, nb) == 1 && forall x :: FreeOcc(lv', x) == FreeOcc(lv, x) - if x == nb then 1 else 0
    ensures New(d, inodes, nb) && FilesOnce(d, inodes) && FreeOcc(lv', nb) == 0
  {
    hide FreeOcc, FilesOcc;
    forall x ensures FilesOcc(d, inodes, x) <= 1 {
      assert FreeOcc(lv, x) + FilesOcc(d, inodes, x) <= 1;
    }
    assert FreeOcc(lv', nb) == 0;
  }

  lemma BalancedStill(d: Disk, lv: Levels, lv': Levels, inodes: seq<Inode>, lo: int, hi: int)
    requires IsDisk(d) && Inodes(inodes) && Balanced(d, lv, inodes, lo, hi)
    requires forall x :: FreeOcc(lv', x) == FreeOcc(lv, x)
    ensures Balanced(d, lv', inodes, lo, hi)
  {
    hide FreeOcc, FilesOcc;
  }

  lemma BalancedGrown(d: Disk, lv: Levels, inodes: seq<Inode>, d': Disk, lv': Levels, inodes': seq<Inode>, f: int,
                      path: seq<int>, nb: int, fill: Bytes, lo: int, hi: int)
    requires IsDisk(d) && Inodes(inodes) && Balanced(d, lv, inodes, lo, hi)
    requires Grown(d, inodes, d', inodes', f, path, nb, fill)
    requires forall x :: FreeOcc(lv', x) == FreeOcc(lv, x) - if x == nb then 1 else 0
    ensures Balanced(d', lv', inodes', lo, hi)
  {
    hide FreeOcc, FilesOcc, GrownAt;
  }

  /** A block that a path leads to belongs to the file and lies on the disk. */
  lemma PathEndsOn(d: Disk, lv: Levels, inodes: seq<Inode>, f: int, s: int, q: seq<int>, lo: int, hi: int)
    requires IsDisk(d) && Inodes(inodes) && Balanced(d, lv, inodes, lo, hi) && 0 < lo && hi <= |d|
    requires 0 <= f < |inodes| && 0 <= s < NADDR && IsIndexPath(q) && |q| <= Level(s)
    ensures var b := Follow(d, inodes[f].addr[s], q); b != 0 ==> On(d, b) && FreeOcc(lv, b) == 0
  {
    hide FreeOcc, RootsOcc, Occ, Follow, Root, RootLevel;
    var b := Follow(d, inodes[f].addr[s], q);
    if b != 0 {
      FollowIn(d, inodes[f].addr[s], Level(s), q);
      RootOfFile(inodes, f, s);
      RootIn(d, inodes, NADDR * |inodes|, RootOf(f, s), b);
      assert FreeOcc(lv, b) + FilesOcc(d, inodes, b) <= 1;
    }
  }

  lemma HoleFound(d: Disk, lv: Levels, inodes: seq<Inode>, f: int, s: int, q: seq<int>, p: int, i: int, nb: int,
                  fill: Bytes, lo: int, hi: int)
    requires IsDisk(d) && Inodes(inodes) && Balanced(d, lv, inodes, lo, hi) && 0 < lo && hi <= |d|
    requires 0 <= f < |inodes| && 0 <= s < NADDR && IsIndexPath(q) && 0 <= i < NBN && |q| < Level(s)
    requires On(d, p) && Follow(d, inodes[f].addr[s], q) == p && Addr(d[p], i) == 0
    requires New(d, inodes, nb) && FilesOnce(d, inodes) && IsBlock(fill) && (|q| + 1 < Level(s) ==> fill == Zeros())
    ensures HoleUnder(d, inodes, f, s, q + [i], p, nb, fill) && FreeOcc(lv, p) == 0 && p != nb
  {
    hide FreeOcc, RootsOcc, Occ, Root, RootLevel, Addr, Follow;
    PathEndsOn(d, lv, inodes, f, s, q, lo, hi);
    FollowOn(d, inodes[f].addr[s], q, i);
    RootOfFile(inodes, f, s);
    RootOnce(d, inodes, RootOf(f, s));
    RootIn(d, inodes, NADDR * |inodes|, RootOf(f, s), nb);
    assert (q + [i])[..|q|] == q;
    assert IsIndexPath(q + [i]);
    ParentCounts(d, inodes, f, s, q + [i], p, nb, fill);
  }

  lemma NewChildFollows(d: Disk, inodes: seq<Inode>, f: int, s: int, q: seq<int>, p: int, nb: int, fill: Bytes)
    requires HoleUnder(d, inodes, f, s, q, p, nb, fill)
    ensures IsDisk(Link(d, p, q[|q| - 1], nb, fill))
              && Follow(Link(d, p, q[|q| - 1], nb, fill), inodes[f].addr[s], q) == nb
  {
    LinkFollow(d, inodes[f].addr[s], Level(s), q, p, nb, fill, q);
  }

  lemma SlotLeaves(d: Disk, lv: Levels, inodes: seq<Inode>, f: int, s: int, lo: int, hi: int)
    requires IsDisk(d) && Inodes(inodes) && 0 <= f < |inodes| && 0 <= s < NADDR && Balanced(d, lv, inodes, lo, hi)
    ensures forall x :: FreeOcc(lv, x) + Occ(d, inodes[f].addr[s], Level(s), x) <= if lo <= x < hi then 1 else 0
    ensures forall x ::
              FreeOcc(lv, x) + Occ(d, inodes[f].addr[s], Level(s), x) + FilesOcc(d, SetSlot(inodes, f, s, 0), x) ==
              if lo <= x < hi then 1 else 0
  {
    hide FreeOcc, FilesOcc, Occ, SetSlot;
    forall x
      ensures FreeOcc(lv, x) + Occ(d, inodes[f].addr[s], Level(s), x) + FilesOcc(d, SetSlot(inodes, f, s, 0), x) ==
                if lo <= x < hi then 1 else 0
    {
      ClearSlot(d, inodes, f, s, x);
    }
  }

  /** Files without free blocks are not affected by writes to free blocks. */
  lemma OffTheFiles(d: Disk, d': Disk, lv: Levels, inodes: seq<Inode>, lo: int, hi: int)
    requires IsDisk(d) && IsDisk(d') && Inodes(inodes) && |d'| == |d|
    requires forall x :: FreeOcc(lv, x) + FilesOcc(d, inodes, x) == if lo <= x < hi then 1 else 0
    requires forall x :: 0 <= x < |d| && FreeOcc(lv, x) == 0 ==> d'[x] == d[x]
    ensures FilesAgree(d, d', inodes) && Balanced(d', lv, inodes, lo, hi)
  {
    hide FreeOcc, FilesOcc;
    forall x | 0 <= x < |d| && FilesOcc(d, inodes, x) > 0 ensures d'[x] == d[x] {
      assert FreeOcc(lv, x) == 0;
    }
    forall x ensures FilesOcc(d', inodes, x) == FilesOcc(d, inodes, x) {
      FilesFrame(d, d', inodes, x);
    }
  }

  /** `left` is `inodes`, but that the slots of file `f` from `n` on are empty. */
  ghost predicate Cleared(inodes: seq<Inode>, left: seq<Inode>, f: int, n: int) {
    && 0 <= f < |inodes| == |left| && left == inodes[f := left[f]] && |inodes[f].addr| == |left[f].addr| == NADDR
    && forall i :: 0 <= i < NADDR ==> left[f].addr[i] == if i < n then inodes[f].addr[i] else 0
  }

  lemma OneMoreCleared(inodes: seq<Inode>, left: seq<Inode>, f: int, n: int)
    requires Inodes(left) && 0 <= n < NADDR && Cleared(inodes, left, f, n + 1)
    ensures Cleared(inodes, SetSlot(left, f, n, 0), f, n)
  {
  }

  lemma TruncatedFiles(d: Disk, lv: Levels, inodes: seq<Inode>, d': Disk, lv': Levels, left: seq<Inode>,
                       inodes': seq<Inode>, f: int, lo: int, hi: int)
    requires IsDisk(d) && Inodes(inodes) && Inodes(left) && Inodes(inodes') && IsDisk(d') && |d'| == |d|
    requires 0 <= f < |inodes|
    requires Balanced(d, lv, inodes, lo, hi) && Balanced(d', lv', left, lo, hi)
    requires |inodes| == |inodes'| && Cleared(inodes, left, f, 0)
    requires inodes' == inodes[f := Inode(seq(NADDR, _ => 0), 0)]
    requires forall x :: 0 <= x < |d| && FreeOcc(lv', x) == 0 ==> d'[x] == d[x]
    ensures Balanced(d', lv', inodes', lo, hi)
    ensures forall x :: FreeOcc(lv', x) + FilesOcc(d, inodes', x) == FreeOcc(lv, x) + FilesOcc(d, inodes, x)
    ensures forall g {:trigger inodes'[g]} :: 0 <= g < |inodes| && g != f ==> SameBlocks(d, inodes'[g], d', inodes'[g])
  {
    hide FreeOcc, RootsOcc, SameBlocks, Occ;
    forall x ensures FilesOcc(d', inodes', x) == FilesOcc(d', left, x) {
      RootsGain(d', left, d', inodes', NADDR * |inodes|, -1, x, 0);
    }
    forall x | 0 <= x < |d| && FilesOcc(d', left, x) > 0 ensures d[x] == d'[x] {
      assert FreeOcc(lv', x) == 0;
    }
    forall x ensures FreeOcc(lv', x) + FilesOcc(d, inodes', x) == FreeOcc(lv, x) + FilesOcc(d, inodes, x) {
      FilesFrame(d', d, inodes', x);
      assert FreeOcc(lv', x) + FilesOcc(d', inodes', x) == if lo <= x < hi then 1 else 0;
    }
    FilesKeepBytes(d', d, left);
    forall g | 0 <= g < |inodes| && g != f ensures SameBlocks(d, inodes'[g], d', inodes'[g]) {
      assert inodes'[g] == left[g];
      SameBack(d', left[g], d);
    }
  }

  lemma SameBack(d: Disk, ino: Inode, d': Disk)
    requires IsDisk(d) && IsDisk(d') && |ino.addr| == NADDR && SameBlocks(d, ino, d', ino)
    ensures SameBlocks(d', ino, d, ino)
  {
    hide BlockBytes;
  }
}
