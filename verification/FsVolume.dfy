/** A mounted file system: the superblock's free list and the disk behind it.  Blocks go
    to the free list and come from it, and whole trees of blocks are given back. */
module FsVolume {
  import opened FsBytes
  import opened FsTree
  import opened FsFree

  /** Where a freed block `b` goes.  While the list in the superblock has room it joins that
      list, slot 0 and the disk staying as they were.  An empty or full list is written, with its
      slot 0, into the one block that then is the list: `b`, unless sorting put `b` into the list
      in its place. */
  ghost predicate Listed(d: Disk, n: int, fr: seq<int>, d': Disk, n': int, fr': seq<int>, sorting: bool, b: int)
    requires 0 <= n <= |fr| == NICFREE && 0 <= n' <= |fr'| == NICFREE
  {
    if 0 < n < NICFREE then
      n' == n + 1 && d' == d && fr'[0] == fr[0] && multiset(fr'[..n']) == multiset(fr[..n]) + multiset{b}
    else
      var c := fr'[0];
      && n' == 1 && |d'| == |d| && On(d', c) && IsBlock(d'[c]) && (n == 0 || !sorting ==> c == b)
      && (forall x :: 0 <= x < |d| && x != c ==> d'[x] == d[x])
      && ChainCount(d'[c]) == n && ChainAddrs(d'[c])[0] == fr[0]
      && multiset(ChainAddrs(d'[c])[..n]) + multiset{c} == multiset(fr[..n]) + multiset{b}
  }

  /** Slot 0 is the same, and the other entries of `mid`, and `c`, are those of `fr`, and `b`. */
  ghost predicate SameBut(n: int, fr: seq<int>, mid: seq<int>, b: int, c: int)
    requires 0 <= n <= |fr| == |mid| == NICFREE
  {
    mid[0] == fr[0] && if n == 0 then c == b else multiset(mid[1..n]) + multiset{c} == multiset(fr[1..n]) + multiset{b}
  }

  /** `c` is the smallest of `b` and the entries of `fr` behind slot 0. */
  ghost predicate Smallest(c: int, n: int, fr: seq<int>, b: int)
    requires 0 <= n <= |fr|
  {
    (c == b || exists i :: 1 <= i < n && c == fr[i]) && c <= b && forall i :: 1 <= i < n ==> c <= fr[i]
  }

  class Volume {
    const isize: int               // first block behind the inodes
    const fsize: int               // number of blocks
    const sorting: bool            // t_sortblocks
    const sfree: array<int>        // s_free
    var nfree: int                 // s_nfree
    var tfree: int                 // s_tfree
    var disk: Disk
    ghost var lv: Levels

    constructor (d: Disk, first: int, n: int, fr: seq<int>, total: int, sort: bool, ghost levels: Levels)
      requires IsDisk(d) && 0 < first <= |d| <= 0x1_0000_0000 && Chain(d, n, fr, levels) && total == FreeLen(levels)
      requires forall x :: FreeOcc(levels, x) <= if first <= x < |d| then 1 else 0
      ensures Valid() && isize == first && disk == d && lv == levels && fresh(sfree)
    {
      isize, fsize, sorting := first, |d|, sort;
      nfree, tfree, disk, lv := n, total, d, levels;
      sfree := new int[NICFREE](i requires 0 <= i < NICFREE && |fr| == NICFREE => fr[i]);
      new;
      assert sfree[..] == fr;
    }

    /** The list is a proper chain of data blocks, none of them listed twice, and
        `s_tfree` counts it. */
    ghost predicate Valid()
      reads this, sfree
    {
      && IsDisk(disk) && 0 < isize <= fsize == |disk| <= 0x1_0000_0000
      && sfree.Length == NICFREE && Chain(disk, nfree, sfree[..], lv) && tfree == FreeLen(lv)
      && forall x :: FreeOcc(lv, x) <= if InData(x) then 1 else 0
    }

    predicate InData(b: int) {
      isize <= b < fsize
    }

    /** Puts block `b` on the free list, without sorting on its top.  Only blocks on the list
        afterwards may have been written. */
    method BFree(b: int)
      requires Valid() && FreeOcc(lv, b) == 0
      modifies this`nfree, this`tfree, this`disk, this`lv, sfree
      ensures Valid() && |disk| == |old(disk)|
      ensures forall x :: FreeOcc(lv, x) == FreeOcc(old(lv), x) + if InData(b) && x == b then 1 else 0
      ensures forall x :: 0 <= x < |disk| && FreeOcc(lv, x) == 0 ==> disk[x] == old(disk)[x]
      ensures sorting && Sorted(old(lv)) ==> Sorted(lv)
      ensures tfree == old(tfree) + if InData(b) then 1 else 0
      ensures InData(b) && !sorting ==> Stack(lv) == Stack(old(lv)) + [b] && nfree > 0 && sfree[nfree - 1] == b
      ensures InData(b) ==> Listed(old(disk), old(nfree), old(sfree[..]), disk, nfree, sfree[..], sorting, b)
      ensures InData(b) && sorting && Sorted(old(lv)) ==>
                0 < nfree && Smallest(sfree[nfree - 1], old(nfree), old(sfree[..]), b)
      ensures !InData(b) ==> lv == old(lv) && nfree == old(nfree) && sfree[..] == old(sfree[..]) && disk == old(disk)
    {
      hide Chain, FreeOcc, FreeLen, Stack, Insert, ChainBlock, ChainCount, ChainAddrs, Sorted, SmallerThanSlots,
           Listed, SameBut, Smallest;
      ChainShape(disk, nfree, sfree[..], lv);
      if b >= fsize || b < isize {
        return;
      }
      var nb := b;
      assert 0 < isize && fsize == |disk| && IsDisk(disk) && sfree.Length == NICFREE && 0 <= nfree <= NICFREE;
      hide Valid;
      if sorting && nfree > 0 {
        nb := SortIn(b);
      } else {
        Unsorted(nfree, sfree[..], b);
      }
      ghost var d, n, fr, mid := disk, nfree, old(sfree[..]), sfree[..];
      Place(nb);
      ListedNow(d, n, fr, mid, disk, nfree, sorting, b, nb);
    }

    /** The sorted insertion of bfree: returns the block to be freed in place of `b`. */
    method SortIn(b: int) returns (nb: int)
      requires Valid() && FreeOcc(lv, b) == 0 && InData(b) && nfree > 0
      modifies this`lv, sfree
      ensures Valid() && InData(nb) && FreeOcc(lv, nb) == 0
      ensures forall x :: FreeOcc(lv, x) + (if x == nb then 1 else 0) == FreeOcc(old(lv), x) + if x == b then 1 else 0
      ensures Sorted(old(lv)) ==> Sorted(lv) && SmallerThanSlots(lv, nb)
      ensures nfree == old(nfree) && tfree == old(tfree) && disk == old(disk)
      ensures SameBut(nfree, old(sfree[..]), sfree[..], b, nb)
      ensures Sorted(old(lv)) ==> Smallest(nb, nfree, old(sfree[..]), b)
    {
      hide Chain, FreeOcc, FreeLen, Insert, Sorted, SmallerThanSlots, ShortList, Smallest, SameBut;
      ghost var fr, n, L := sfree[..], nfree, lv;
      ChainShape(disk, n, fr, L);
      nb := DaddrAdd(sfree, 1, nfree - 1, b);
      ghost var fr' := sfree[..];
      assert fr'[0] == fr[0] && fr'[n..] == fr[n..] by {
        assert fr'[0] == fr'[..1][0] && fr[0] == fr[..1][0];
      }
      SortChain(disk, n, fr, L, b, fr', nb);
      lv := [fr'[..n]] + L[1..];
      if nb != b { ResidentCounted(disk, n, fr, L, nb); }
      SortedAfter(n, fr, L, b, fr', nb);
      SortResident(n, fr, b, fr', nb);
      if Sorted(L) { SmallestGoesOut(n, fr, fr', b, nb, lv); }
    }

    /** The rest of bfree. */
    method Place(b: int)
      requires Valid() && FreeOcc(lv, b) == 0 && InData(b)
      modifies this`nfree, this`tfree, this`disk, this`lv, sfree
      ensures Valid() && |disk| == |old(disk)|
      ensures forall x :: FreeOcc(lv, x) == FreeOcc(old(lv), x) + if x == b then 1 else 0
      ensures forall x :: 0 <= x < |disk| && x != b ==> disk[x] == old(disk)[x]
      ensures Sorted(old(lv)) && (old(nfree) == 0 || SmallerThanSlots(old(lv), b)) ==> Sorted(lv)
      ensures Stack(lv) == Stack(old(lv)) + [b] && tfree == old(tfree) + 1 && nfree > 0 && sfree[nfree - 1] == b
      ensures sfree[..] == old(sfree[..])[nfree - 1 := b]
      ensures 0 < old(nfree) < NICFREE ==> nfree == old(nfree) + 1 && disk == old(disk)
      ensures !(0 < old(nfree) < NICFREE) ==>
                && nfree == 1 && IsBlock(disk[b])
                && ChainCount(disk[b]) == old(nfree) && ChainAddrs(disk[b]) == old(sfree[..])
    {
      hide FreeOcc, FreeLen, Stack, ChainBlock, ChainCount, ChainAddrs;
      ghost var fr, n := sfree[..], nfree;
      StackPushed(lv, b);
      if nfree == 0 || nfree == NICFREE {
        SpillChain(disk, n, fr, lv, b);
        disk := disk[b := ChainBlock(nfree, sfree[..])];
        nfree := 0;
        lv := [[b]] + lv;
      } else {
        PushChain(disk, n, fr, lv, b);
        lv := [lv[0] + [b]] + lv[1..];
      }
      sfree[nfree] := b;
      assert sfree[..] == fr[nfree := b];
      nfree := nfree + 1;
      tfree := tfree + 1;
    }

    /** Takes a block off the list: the last entry of the superblock's list.  It answers 0
        exactly when nothing is free. */
    method BAlloc() returns (b: int)
      requires Valid()
      modifies this`nfree, this`tfree, this`lv, sfree
      ensures Valid() && (b == 0 <==> old(tfree) == 0) && tfree == old(tfree) - if b != 0 then 1 else 0
      ensures b != 0 ==> InData(b) && old(nfree) > 0 && b == old(sfree[nfree - 1]) && FreeOcc(old(lv), b) == 1
      ensures forall x :: FreeOcc(lv, x) == FreeOcc(old(lv), x) - if b != 0 && x == b then 1 else 0
      ensures Sorted(old(lv)) ==> Sorted(lv)
      ensures Stack(old(lv)) == if b != 0 then Stack(lv) + [b] else []
      ensures old(nfree) > 1 ==> nfree == old(nfree) - 1 && sfree[..] == old(sfree[..])[nfree := 0]
      ensures old(nfree) <= 1 ==>
                if b == 0 then nfree == 0
                else nfree == ChainCount(disk[b]) && sfree[..] == ChainAddrs(disk[b])
    {
      hide FreeLen, FreeOcc, Stack, ChainCount, ChainAddrs, Chain, Sorted;
      ghost var fr, n, L := sfree[..], nfree, lv;
      ChainShape(disk, n, fr, L);
      ChainEmptyIff(disk, n, fr, L);
      if nfree == 0 || nfree > NICFREE {
        NothingThere(disk, fr, L);
        return 0;
      }
      b := sfree[nfree - 1];
      if b == 0 {
        NothingLeft(disk, n, fr, L);
        EmptyIsSorted();
        nfree := 0;
        lv := [[]];
        assert sfree[..] == fr;
        return;
      }
      nfree := nfree - 1;
      sfree[nfree] := 0;
      assert sfree[..] == fr[n - 1 := 0];
      PopChain(disk, n, fr, L);
      StackPopped(n, fr, L);
      ResidentCounted(disk, n, fr, L, b);
      if nfree == 0 {
        LoadList(b);
        lv := L[1..];
      } else {
        lv := [fr[..n - 1]] + L[1..];
      }
      tfree := tfree - 1;
      SortedPop(n, fr, L);
    }

    /** Reads the list that block `b` holds into the superblock. */
    method LoadList(b: int)
      requires On(disk, b) && IsBlock(disk[b]) && sfree.Length == NICFREE
      modifies this`nfree, sfree
      ensures nfree == ChainCount(disk[b]) && sfree[..] == ChainAddrs(disk[b])
    {
      hide ChainCount, ChainAddrs;
      var next := ChainAddrs(disk[b]);
      nfree := ChainCount(disk[b]);
      forall i | 0 <= i < NICFREE {
        sfree[i] := next[i];
      }
      assert sfree[..] == next;
    }

    /** A block that is not free is written through its buffer. */
    method Write(x: int, data: Bytes)
      requires Valid() && On(disk, x) && FreeOcc(lv, x) == 0 && IsBlock(data)
      modifies this`disk
      ensures Valid() && disk == old(disk)[x := data]
    {
      WriteOffList(disk, nfree, sfree[..], lv, x, data);
      disk := disk[x := data];
    }

    /** Frees every block of the tree at `b` with `l` layers of indirect blocks, each as
        often as it occurs there, which is once.  An indirect block is copied before its
        subtrees are freed, since freeing may write any block that is free. */
    method IndFree(b: int, l: nat)
      requires Valid() && forall x :: FreeOcc(lv, x) + Occ(disk, b, l, x) <= if InData(x) then 1 else 0
      modifies this`nfree, this`tfree, this`disk, this`lv, sfree
      ensures Valid() && |disk| == |old(disk)|
      ensures forall x :: FreeOcc(lv, x) == FreeOcc(old(lv), x) + Occ(old(disk), b, l, x)
      ensures forall x :: 0 <= x < |disk| && FreeOcc(lv, x) == 0 ==> disk[x] == old(disk)[x]
      ensures sorting && Sorted(old(lv)) ==> Sorted(lv)
      decreases l
    {
      hide Chain, FreeOcc, FreeLen, KidOcc, Addr, Sorted;
      if b == 0 {
        return;
      }
      RootCounted(disk, b, l);
      if l > 0 {
        FreeKids(b, l, disk[b]);
      }
      BFree(b);
    }

    /** The loop of indfree over the addresses of the copied indirect block. */
    method FreeKids(b: int, l: nat, cur: Bytes)
      requires Valid() && l > 0 && On(disk, b) && cur == disk[b]
      requires forall x :: FreeOcc(lv, x) + Occ(disk, b, l, x) <= if InData(x) then 1 else 0
      modifies this`nfree, this`tfree, this`disk, this`lv, sfree
      ensures Valid() && |disk| == |old(disk)|
      ensures forall x :: FreeOcc(lv, x) + (if x == b then 1 else 0) == FreeOcc(old(lv), x) + Occ(old(disk), b, l, x)
      ensures forall x :: 0 <= x < |disk| && FreeOcc(lv, x) == 0 ==> disk[x] == old(disk)[x]
      ensures sorting && Sorted(old(lv)) ==> Sorted(lv)
      decreases l, 0
    {
      hide Chain, FreeOcc, FreeLen, KidOcc, Occ, Addr, Sorted;
      ghost var d0, L0 := disk, lv;
      WholeBlock(d0, b, l);
      var i := NBN;
      while i > 0
        invariant 0 <= i <= NBN && Valid() && |disk| == |d0|
        invariant forall x :: FreeOcc(lv, x) + KidOcc(d0, cur, i, l - 1, x) + (if x == b then 1 else 0) ==
                    FreeOcc(L0, x) + Occ(d0, b, l, x)
        invariant forall x :: 0 <= x < |disk| && FreeOcc(lv, x) == 0 ==> disk[x] == d0[x]
        invariant sorting && Sorted(L0) ==> Sorted(lv)
      {
        i := i - 1;
        LastKid(d0, cur, i, l - 1);
        var b1 := Addr(cur, i);
        if b1 != 0 {
          KidUntouched(d0, disk, lv, b1, l - 1);
          if l - 1 == 0 {
            LoneBlock(d0, b1);
            BFree(b1);
          } else {
            IndFree(b1, l - 1);
          }
        } else {
          NoTree(d0, l - 1);
        }
      }
      NoKids(d0, cur, l - 1);
    }
  }

  /** With sorted lists a block that is freed while the list has room goes where the next
      allocation finds it if it is the smallest: that takes the smallest of the new block and
      those behind slot 0. */
  method FreeThenAlloc(v: Volume, b: int) returns (c: int)
    requires v.Valid() && FreeOcc(v.lv, b) == 0 && v.InData(b) && v.sorting && Sorted(v.lv) && 0 < v.nfree < NICFREE
    modifies v, v.sfree
    ensures v.Valid() && Sorted(v.lv) && v.nfree == old(v.nfree) && v.sfree[0] == old(v.sfree[0])
    ensures Smallest(c, old(v.nfree), old(v.sfree[..]), b)
    ensures multiset(v.sfree[..v.nfree]) + multiset{c} == multiset(old(v.sfree[..v.nfree])) + multiset{b}
  {
    hide Chain, FreeOcc, FreeLen, Stack, Sorted, ChainCount, ChainAddrs, Smallest;
    ghost var n, fr := v.nfree, v.sfree[..];
    v.BFree(b);
    ghost var mid := v.sfree[..];
    c := v.BAlloc();
    assert mid[..n + 1] == mid[..n] + [c] && v.sfree[..n] == mid[..n];
  }

  lemma Unsorted(n: int, fr: seq<int>, b: int)
    requires 0 <= n <= |fr| == NICFREE
    ensures SameBut(n, fr, fr, b, b) && (n == 0 ==> Smallest(b, n, fr, b))
  {
  }

  lemma WithSlot(n: int, fr: seq<int>, mid: seq<int>, b: int, c: int)
    requires 0 <= n <= |fr| == |mid| == NICFREE && SameBut(n, fr, mid, b, c)
    ensures multiset(mid[..n]) + multiset{c} == multiset(fr[..n]) + multiset{b}
  {
    if n > 0 {
      var x, s, t := multiset{fr[0]}, multiset(fr[1..n]), multiset(mid[1..n]);
      assert fr[..n] == [fr[0]] + fr[1..n] && mid[..n] == [fr[0]] + mid[1..n];
      assert multiset(fr[..n]) == x + s && multiset(mid[..n]) == x + t;
      assert x + t + multiset{c} == x + (t + multiset{c}) && x + s + multiset{b} == x + (s + multiset{b});
    }
  }

  lemma ListedNow(d: Disk, n: int, fr: seq<int>, mid: seq<int>, d': Disk, n': int, sorting: bool, b: int, c: int)
    requires 0 <= n <= |fr| == |mid| == NICFREE && 0 < n' <= NICFREE && SameBut(n, fr, mid, b, c)
    requires |d'| == |d| && On(d', c) && (n == 0 || !sorting ==> c == b)
    requires if 0 < n < NICFREE then n' == n + 1 && d' == d
             else n' == 1 && IsBlock(d'[c]) && ChainCount(d'[c]) == n && ChainAddrs(d'[c]) == mid
    requires forall x :: 0 <= x < |d| && x != c ==> d'[x] == d[x]
    ensures Listed(d, n, fr, d', n', mid[n' - 1 := c], sorting, b)
  {
    hide ChainCount, ChainAddrs;
    WithSlot(n, fr, mid, b, c);
    assert 0 < n < NICFREE ==> mid[n := c][..n + 1] == mid[..n] + [c];
  }

  /** What sorting takes out is the smallest. */
  lemma SmallestGoesOut(n: int, fr: seq<int>, mid: seq<int>, b: int, c: int, lv: Levels)
    requires 0 < n <= |fr| == |mid| == NICFREE && SameBut(n, fr, mid, b, c)
    requires |lv| > 0 && lv[0] == mid[..n] && SmallerThanSlots(lv, c)
    ensures Smallest(c, n, fr, b)
  {
    var s, t := fr[1..n], mid[1..n];
    assert forall i :: 0 <= i < |t| ==> t[i] == lv[0][i + 1];
    forall i | 1 <= i < n ensures c <= fr[i] {
      assert s[i - 1] in multiset(t) + multiset{c};
    }
    assert b in multiset(t) + multiset{c} && c in multiset(s) + multiset{b};
    if c != b {
      var i :| 0 <= i < |s| && s[i] == c;
      assert fr[i + 1] == c;
    }
  }

  // ----- counting lemmas for the freeing loop -----

  lemma RootCounted(d: Disk, b: int, l: nat)
    requires IsDisk(d) && b != 0
    ensures Occ(d, b, l, b) > 0
    ensures l == 0 ==> forall x :: Occ(d, b, l, x) == if x == b then 1 else 0
  {
  }

  lemma WholeBlock(d: Disk, b: int, l: nat)
    requires IsDisk(d) && l > 0 && On(d, b)
    ensures forall x :: Occ(d, b, l, x) == KidOcc(d, d[b], NBN, l - 1, x) + if x == b then 1 else 0
  {
  }

  lemma LastKid(d: Disk, blk: Bytes, i: int, l: nat)
    requires IsDisk(d) && IsBlock(blk) && 0 <= i < NBN
    ensures forall x :: KidOcc(d, blk, i + 1, l, x) == KidOcc(d, blk, i, l, x) + Occ(d, Addr(blk, i), l, x)
  {
  }

  lemma NoKids(d: Disk, blk: Bytes, l: nat)
    requires IsDisk(d) && IsBlock(blk)
    ensures forall x :: KidOcc(d, blk, 0, l, x) == 0
  {
  }

  lemma NoTree(d: Disk, l: nat)
    requires IsDisk(d)
    ensures forall x :: Occ(d, 0, l, x) == 0
  {
  }

  lemma LoneBlock(d: Disk, b: int)
    requires IsDisk(d) && b != 0
    ensures forall x :: Occ(d, b, 0, x) == if x == b then 1 else 0
  {
  }

  /** A tree none of whose blocks is free has not been written. */
  lemma KidUntouched(d0: Disk, d: Disk, lv: Levels, b: int, l: nat)
    requires IsDisk(d0) && IsDisk(d) && |d| == |d0|
    requires forall x :: FreeOcc(lv, x) + Occ(d0, b, l, x) <= 1
    requires forall x :: 0 <= x < |d| && FreeOcc(lv, x) == 0 ==> d[x] == d0[x]
    ensures forall x :: Occ(d, b, l, x) == Occ(d0, b, l, x)
  {
    hide Occ, FreeOcc;
    forall x ensures Occ(d, b, l, x) == Occ(d0, b, l, x) {
      TreeFrame(d0, d, b, l, x);
    }
  }

  // ----- sorted lists -----

  /** Slots 1.. of every list of the chain are strictly descending. */
  ghost predicate Sorted(lv: Levels) {
    forall i {:trigger lv[i]} :: 0 <= i < |lv| && |lv[i]| > 0 ==> Descending(lv[i][1..])
  }

  ghost predicate SmallerThanSlots(lv: Levels, b: int) {
    |lv| > 0 && forall i :: 1 <= i < |lv[0]| ==> lv[0][i] > b
  }

  lemma EmptyIsSorted()
    ensures Sorted([[]])
  {
  }

  /** With sorted lists the block that balloc takes is the smallest resident one, the link
      in slot 0 set aside. */
  lemma LastIsSmallest(lv: Levels, i: int)
    requires Sorted(lv) && |lv| > 0 && 1 <= i < |lv[0]|
    ensures lv[0][|lv[0]| - 1] <= lv[0][i]
  {
    var s := lv[0][1..];
    assert s[|s| - 1] == lv[0][|lv[0]| - 1] && s[i - 1] == lv[0][i];
  }

  lemma SortedAfter(n: int, fr: seq<int>, lv: Levels, b: int, fr': seq<int>, r: int)
    requires ShortList(n, fr) && n > 0 && |fr'| == NICFREE && |lv| > 0 && lv[0] == fr[..n] && b !in fr[1..n]
    requires (fr'[1..n], r) == Insert(fr[1..n], b, 0)
    ensures Sorted(lv) ==> Sorted([fr'[..n]] + lv[1..]) && SmallerThanSlots([fr'[..n]] + lv[1..], r)
  {
    if Sorted(lv) {
      assert lv[0][1..] == fr[1..n] && fr'[..n][1..] == fr'[1..n];
      InsertSorts(fr[1..n], b, 0);
      hide Insert;
      var M := [fr'[..n]] + lv[1..];
      forall i | 0 <= i < |M| && |M[i]| > 0 ensures Descending(M[i][1..]) {
        if i > 0 { assert M[i] == lv[i]; }
      }
      forall i | 1 <= i < |M[0]| ensures M[0][i] > r {
        assert M[0][i] == fr'[1..n][i - 1];
      }
    }
  }

  /** Behind slot 0 the new block has come in and `r` has gone out. */
  lemma SortResident(n: int, fr: seq<int>, b: int, fr': seq<int>, r: int)
    requires 0 < n <= |fr| == |fr'| && fr'[0] == fr[0] && b !in fr[1..n]
    requires (fr'[1..n], r) == Insert(fr[1..n], b, 0)
    ensures |fr| == NICFREE ==> SameBut(n, fr, fr', b, r)
  {
    hide Insert;
    forall x
      ensures multiset(fr'[1..n])[x] + (if x == r then 1 else 0) == multiset(fr[1..n])[x] + (if x == b then 1 else 0)
    {
      InsertKeeps(fr[1..n], b, 0, x);
    }
  }

  lemma SortedPop(n: int, fr: seq<int>, lv: Levels)
    requires 0 < n <= |fr| && |lv| > 0 && lv[0] == fr[..n]
    ensures Sorted(lv) ==> Sorted(lv[1..]) && Sorted([fr[..n - 1]] + lv[1..])
  {
    if Sorted(lv) {
      forall i | 0 <= i < |lv[1..]| && |lv[1..][i]| > 0 ensures Descending(lv[1..][i][1..]) {
        assert lv[1..][i] == lv[i + 1];
      }
      var M := [fr[..n - 1]] + lv[1..];
      forall i | 0 <= i < |M| && |M[i]| > 0 ensures Descending(M[i][1..]) {
        if i > 0 {
          assert M[i] == lv[i];
        } else {
          assert M[0][1..] == lv[0][1..][..n - 2];
        }
      }
    }
  }
}
