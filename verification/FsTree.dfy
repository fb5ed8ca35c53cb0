/** The blocks of a file as a tree on the disk: how often a block occurs in it, where a
    path leads, and what linking a new block or writing a leaf changes. */
module FsTree {
  import opened FsBytes

  type Disk = seq<Bytes>

  ghost predicate IsDisk(d: Disk) {
    forall i :: 0 <= i < |d| ==> IsBlock(d[i])
  }

  predicate On(d: Disk, b: int) {
    0 < b < |d|
  }

  /** How often block `x` occurs in the tree at `b` with `l` layers of indirect blocks;
      address 0 means that there is no tree. */
  ghost function Occ(d: Disk, b: int, l: nat, x: int): nat
    requires IsDisk(d)
    decreases l, 0
  {
    if b == 0 then 0
    else (if b == x then 1 else 0) + if l > 0 && On(d, b) then KidOcc(d, d[b], NBN, l - 1, x) else 0
  }

  /** The same for the trees below the first `n` addresses of an indirect block. */
  ghost function KidOcc(d: Disk, blk: Bytes, n: int, l: nat, x: int): nat
    requires IsDisk(d) && IsBlock(blk) && 0 <= n <= NBN
    decreases l, n + 1
  {
    if n == 0 then 0 else KidOcc(d, blk, n - 1, l, x) + Occ(d, Addr(blk, n - 1), l, x)
  }

  predicate IsIndexPath(q: seq<int>) {
    forall i :: 0 <= i < |q| ==> 0 <= q[i] < NBN
  }

  /** The block that index path `q` leads to from `b`, 0 if it ends at a hole. */
  ghost function Follow(d: Disk, b: int, q: seq<int>): int
    requires IsDisk(d) && IsIndexPath(q)
    decreases |q|
  {
    if b == 0 || q == [] then b
    else if !On(d, b) then 0
    else Follow(d, Addr(d[b], q[0]), q[1..])
  }

  /** No block occurs twice in the tree. */
  ghost predicate Once(d: Disk, b: int, l: nat)
    requires IsDisk(d)
  {
    forall x :: Occ(d, b, l, x) <= 1
  }

  /** The disks agree on all blocks of the tree. */
  ghost predicate Agree(d: Disk, d': Disk, b: int, l: nat)
    requires IsDisk(d)
  {
    |d'| == |d| && forall x :: 0 <= x < |d| && Occ(d, b, l, x) > 0 ==> d'[x] == d[x]
  }

  // ----- sums over the addresses of a block -----

  lemma {:induction false} KidIn(d: Disk, blk: Bytes, n: int, l: nat, i: int, x: int)
    requires IsDisk(d) && IsBlock(blk) && 0 <= i < n <= NBN
    ensures Occ(d, Addr(blk, i), l, x) <= KidOcc(d, blk, n, l, x)
    decreases n
  {
    hide Addr, Occ;
    if i < n - 1 { KidIn(d, blk, n - 1, l, i, x); }
  }

  lemma {:induction false} TwoKidsIn(d: Disk, blk: Bytes, n: int, l: nat, i: int, j: int, x: int)
    requires IsDisk(d) && IsBlock(blk) && 0 <= i < n <= NBN && 0 <= j < n && i != j
    ensures Occ(d, Addr(blk, i), l, x) + Occ(d, Addr(blk, j), l, x) <= KidOcc(d, blk, n, l, x)
    decreases n
  {
    hide Addr, Occ;
    if i == n - 1 {
      KidIn(d, blk, n - 1, l, j, x);
    } else if j == n - 1 {
      KidIn(d, blk, n - 1, l, i, x);
    } else {
      TwoKidsIn(d, blk, n - 1, l, i, j, x);
    }
  }

  /** Subtree `i` gains `more` occurrences, the others stay. */
  lemma {:induction false} KidsGain(d: Disk, blk: Bytes, d': Disk, blk': Bytes, n: int, l: nat, i: int, x: int,
                                    more: int)
    requires IsDisk(d) && IsDisk(d') && IsBlock(blk) && IsBlock(blk') && 0 <= n <= NBN
    requires forall j :: 0 <= j < n && j != i ==> Occ(d', Addr(blk', j), l, x) == Occ(d, Addr(blk, j), l, x)
    requires 0 <= i < n ==> Occ(d', Addr(blk', i), l, x) == Occ(d, Addr(blk, i), l, x) + more
    ensures KidOcc(d', blk', n, l, x) == KidOcc(d, blk, n, l, x) + if 0 <= i < n then more else 0
    decreases n
  {
    hide Addr, Occ;
    if n > 0 {
      KidsGain(d, blk, d', blk', n - 1, l, i, x, more);
    }
  }

  // ----- the subtrees of a block -----

  /** What occurs below address `i` occurs in the tree. */
  lemma SubtreeIn(d: Disk, b: int, l: nat, i: int, x: int)
    requires IsDisk(d) && l > 0 && On(d, b) && 0 <= i < NBN
    ensures Occ(d, b, l, x) >= (if b == x then 1 else 0) + Occ(d, Addr(d[b], i), l - 1, x)
  {
    KidIn(d, d[b], NBN, l - 1, i, x);
  }

  /** A subtree does not contain the block above it, and shares nothing with the other
      subtrees. */
  lemma SubtreesApart(d: Disk, b: int, l: nat, i: int, x: int, j: int)
    requires IsDisk(d) && l > 0 && On(d, b) && Once(d, b, l) && 0 <= i < NBN && 0 <= j < NBN
    requires Occ(d, Addr(d[b], i), l - 1, x) > 0
    ensures x != b && (j != i ==> Occ(d, Addr(d[b], j), l - 1, x) == 0)
  {
    assert Occ(d, b, l, x) <= 1;
    SubtreeIn(d, b, l, i, x);
    if j != i { TwoKidsIn(d, d[b], NBN, l - 1, i, j, x); }
  }

  lemma SubtreeOnce(d: Disk, b: int, l: nat, i: int)
    requires IsDisk(d) && l > 0 && On(d, b) && Once(d, b, l) && 0 <= i < NBN
    ensures Once(d, Addr(d[b], i), l - 1) && Occ(d, Addr(d[b], i), l - 1, b) == 0
  {
    hide Occ, Addr;
    var c, k := Addr(d[b], i), l - 1;
    forall x ensures Occ(d, c, k, x) <= 1 && (x == b ==> Occ(d, c, k, x) == 0) {
      assert Occ(d, b, l, x) <= 1;
      SubtreeIn(d, b, l, i, x);
    }
  }

  lemma SubtreeAgree(d: Disk, d': Disk, b: int, l: nat, i: int)
    requires IsDisk(d) && l > 0 && On(d, b) && Agree(d, d', b, l) && 0 <= i < NBN
    ensures Agree(d, d', Addr(d[b], i), l - 1)
  {
    hide Occ, Addr;
    forall x | 0 <= x < |d| && Occ(d, Addr(d[b], i), l - 1, x) > 0 ensures d'[x] == d[x] {
      SubtreeIn(d, b, l, i, x);
    }
  }

  // ----- what a tree depends on -----

  /** A tree depends only on the contents of its own blocks. */
  lemma {:induction false} TreeFrame(d: Disk, d': Disk, b: int, l: nat, x: int)
    requires IsDisk(d) && IsDisk(d') && Agree(d, d', b, l)
    ensures Occ(d', b, l, x) == Occ(d, b, l, x)
    decreases l
  {
    hide Addr, KidOcc;
    if b != 0 && l > 0 && On(d, b) {
      assert Occ(d, b, l, b) > 0;
      forall i | 0 <= i < NBN ensures Occ(d', Addr(d[b], i), l - 1, x) == Occ(d, Addr(d[b], i), l - 1, x) {
        SubtreeAgree(d, d', b, l, i);
        TreeFrame(d, d', Addr(d[b], i), l - 1, x);
      }
      KidsGain(d, d[b], d', d[b], NBN, l - 1, -1, x, 0);
    }
  }

  /** How many of the blocks on index path `q` from `b` on there are, `b` included. */
  ghost function Steps(d: Disk, b: int, q: seq<int>): (n: nat)
    requires IsDisk(d) && IsIndexPath(q)
    ensures n <= |q| + 1
    decreases |q|
  {
    if !On(d, b) then 0 else if q == [] then 1 else 1 + Steps(d, Addr(d[b], q[0]), q[1..])
  }

  /** Where a path can be followed, these blocks are there, and the next one or not. */
  lemma {:induction false} StepsAt(d: Disk, b: int, q: seq<int>, j: int)
    requires IsDisk(d) && IsIndexPath(q) && 0 <= j <= |q| && On(d, Follow(d, b, q[..j]))
    ensures Steps(d, b, q) > j
    ensures j < |q| ==> (Steps(d, b, q) == j + 1 <==> !On(d, Addr(d[Follow(d, b, q[..j])], q[j])))
    decreases |q|
  {
    hide Addr;
    if j > 0 {
      assert q[..j][1..] == q[1..][..j - 1];
      StepsAt(d, Addr(d[b], q[0]), q[1..], j - 1);
    }
  }

  lemma {:induction false} FollowFrame(d: Disk, d': Disk, b: int, l: nat, q: seq<int>)
    requires IsDisk(d) && IsDisk(d') && IsIndexPath(q) && |q| <= l && Agree(d, d', b, l)
    ensures Follow(d', b, q) == Follow(d, b, q)
    decreases l
  {
    hide Addr, KidOcc;
    if b != 0 && q != [] && On(d, b) {
      assert Occ(d, b, l, b) > 0;
      SubtreeAgree(d, d', b, l, q[0]);
      FollowFrame(d, d', Addr(d[b], q[0]), l - 1, q[1..]);
    }
  }

  /** A path ends in the tree. */
  lemma {:induction false} FollowIn(d: Disk, b: int, l: nat, q: seq<int>)
    requires IsDisk(d) && IsIndexPath(q) && |q| <= l && Follow(d, b, q) != 0
    ensures Occ(d, b, l, Follow(d, b, q)) > 0
    decreases l
  {
    hide Addr, KidOcc;
    if q != [] {
      FollowIn(d, Addr(d[b], q[0]), l - 1, q[1..]);
      SubtreeIn(d, b, l, q[0], Follow(d, b, q));
    }
  }

  /** One more index: one more indirect block is read. */
  lemma {:induction false} FollowOn(d: Disk, b: int, q: seq<int>, i: int)
    requires IsDisk(d) && IsIndexPath(q) && 0 <= i < NBN && On(d, Follow(d, b, q))
    ensures Follow(d, b, q + [i]) == Addr(d[Follow(d, b, q)], i)
    decreases |q|
  {
    hide Addr;
    if q == [] {
      assert ([] + [i])[1..] == [];
    } else {
      assert (q + [i])[1..] == q[1..] + [i];
      FollowOn(d, Addr(d[b], q[0]), q[1..], i);
    }
  }

  // ----- two paths lead to different blocks -----

  lemma {:induction false} DifferentPaths(d: Disk, b: int, l: nat, q: seq<int>, r: seq<int>)
    requires IsDisk(d) && IsIndexPath(q) && IsIndexPath(r) && |q| <= |r| <= l && q != r && Once(d, b, l)
    requires Follow(d, b, q) != 0 && Follow(d, b, r) != 0
    ensures Follow(d, b, q) != Follow(d, b, r)
    decreases l
  {
    hide Addr, Occ, Once;
    FollowIn(d, Addr(d[b], r[0]), l - 1, r[1..]);
    if q == [] {
      SubtreesApart(d, b, l, r[0], Follow(d, b, r), r[0]);
    } else {
      assert q == [q[0]] + q[1..] && r == [r[0]] + r[1..];
      FollowIn(d, Addr(d[b], q[0]), l - 1, q[1..]);
      if q[0] == r[0] {
        SubtreeOnce(d, b, l, q[0]);
        DifferentPaths(d, Addr(d[b], q[0]), l - 1, q[1..], r[1..]);
      } else {
        SubtreesApart(d, b, l, q[0], Follow(d, b, q), r[0]);
      }
    }
  }

  /** Below a hole there are only holes. */
  lemma {:induction false} HolesBelow(d: Disk, b: int, q: seq<int>, r: seq<int>)
    requires IsDisk(d) && IsIndexPath(r) && q <= r && IsIndexPath(q) && Follow(d, b, q) == 0
    ensures Follow(d, b, r) == 0
    decreases |q|
  {
    hide Addr;
    if q != [] && b != 0 && On(d, b) {
      HolesBelow(d, Addr(d[b], q[0]), q[1..], r[1..]);
    }
  }

  // ----- writing a leaf -----

  /** Path `q` leads to leaf `x`. */
  ghost predicate Leaf(d: Disk, b: int, l: nat, q: seq<int>, x: int) {
    IsDisk(d) && IsIndexPath(q) && |q| == l && Once(d, b, l) && On(d, x) && Follow(d, b, q) == x
  }

  lemma LeafBelow(d: Disk, b: int, l: nat, q: seq<int>, x: int)
    requires Leaf(d, b, l, q, x) && l > 0
    ensures On(d, b) && x != b && Leaf(d, Addr(d[b], q[0]), l - 1, q[1..], x)
    ensures forall j :: 0 <= j < NBN && j != q[0] ==> Occ(d, Addr(d[b], j), l - 1, x) == 0
  {
    hide Addr, Occ;
    FollowIn(d, Addr(d[b], q[0]), l - 1, q[1..]);
    SubtreeOnce(d, b, l, q[0]);
    forall j | 0 <= j < NBN && j != q[0] ensures Occ(d, Addr(d[b], j), l - 1, x) == 0 {
      SubtreesApart(d, b, l, q[0], x, j);
    }
    SubtreesApart(d, b, l, q[0], x, q[0]);
  }

  lemma ElsewhereAgree(d: Disk, b: int, l: nat, x: int, data: Bytes)
    requires IsDisk(d) && On(d, x) && IsBlock(data) && Occ(d, b, l, x) == 0
    ensures Agree(d, d[x := data], b, l)
  {
    hide Occ;
  }

  /** Writing the contents of a leaf changes no membership. */
  lemma {:induction false} WriteLeaf(d: Disk, b: int, l: nat, q: seq<int>, x: int, data: Bytes, y: int)
    requires Leaf(d, b, l, q, x) && IsBlock(data)
    ensures Occ(d[x := data], b, l, y) == Occ(d, b, l, y)
    decreases l
  {
    hide Addr, KidOcc, Once, Agree;
    var d' := d[x := data];
    if l > 0 {
      LeafBelow(d, b, l, q, x);
      forall j | 0 <= j < NBN ensures Occ(d', Addr(d[b], j), l - 1, y) == Occ(d, Addr(d[b], j), l - 1, y) {
        if j == q[0] {
          WriteLeaf(d, Addr(d[b], j), l - 1, q[1..], x, data, y);
        } else {
          ElsewhereAgree(d, Addr(d[b], j), l - 1, x, data);
          TreeFrame(d, d', Addr(d[b], j), l - 1, y);
        }
      }
      KidsGain(d, d[b], d', d[b], NBN, l - 1, -1, y, 0);
    }
  }

  /** Nor does it change where any path leads. */
  lemma {:induction false} WriteLeafFollow(d: Disk, b: int, l: nat, q: seq<int>, x: int, data: Bytes, r: seq<int>)
    requires Leaf(d, b, l, q, x) && IsBlock(data) && IsIndexPath(r) && |r| <= l
    ensures Follow(d[x := data], b, r) == Follow(d, b, r)
    decreases l
  {
    hide Addr, Occ, Once, Agree;
    if r != [] {
      LeafBelow(d, b, l, q, x);
      if r[0] == q[0] {
        WriteLeafFollow(d, Addr(d[b], q[0]), l - 1, q[1..], x, data, r[1..]);
      } else {
        ElsewhereAgree(d, Addr(d[b], r[0]), l - 1, x, data);
        FollowFrame(d, d[x := data], Addr(d[b], r[0]), l - 1, r[1..]);
      }
    }
  }

  // ----- linking a new block -----

  /** Address `i` of block `p` is set to the new block `nb`, whose contents are `fill`. */
  function Link(d: Disk, p: int, i: int, nb: int, fill: Bytes): Disk
    requires On(d, p) && On(d, nb) && IsBlock(d[p]) && 0 <= i < NBN && nb < 0x1_0000_0000
  {
    d[p := SetAddr(d[p], i, nb)][nb := fill]
  }

  lemma {:induction false} EmptyKids(d: Disk, n: int, l: nat, x: int)
    requires IsDisk(d) && 0 <= n <= NBN
    ensures KidOcc(d, Zeros(), n, l, x) == 0
    decreases n
  {
    if n > 0 {
      EmptyKids(d, n - 1, l, x);
      ZeroAddr(n - 1);
    }
  }

  /** `nb` goes where path `q` found a hole below block `p`. */
  ghost predicate Links(d: Disk, b: int, l: nat, q: seq<int>, p: int, nb: int, fill: Bytes) {
    && IsDisk(d) && IsBlock(fill) && IsIndexPath(q) && 1 <= |q| <= l
    && On(d, p) && Follow(d, b, q[..|q| - 1]) == p && Follow(d, b, q) == 0
    && On(d, nb) && nb < 0x1_0000_0000 && Occ(d, b, l, nb) == 0 && Once(d, b, l)
    && (|q| < l ==> fill == Zeros())
  }

  lemma LinksBelow(d: Disk, b: int, l: nat, q: seq<int>, p: int, nb: int, fill: Bytes)
    requires Links(d, b, l, q, p, nb, fill) && |q| > 1
    ensures On(d, b) && p != b && nb != b
    ensures Links(d, Addr(d[b], q[0]), l - 1, q[1..], p, nb, fill)
    ensures forall j :: 0 <= j < NBN && j != q[0] ==>
              Occ(d, Addr(d[b], j), l - 1, p) == 0 == Occ(d, Addr(d[b], j), l - 1, nb)
  {
    hide Addr, KidOcc;
    var c := Addr(d[b], q[0]);
    assert q[..|q| - 1][1..] == q[1..][..|q| - 2];
    FollowIn(d, c, l - 1, q[1..][..|q| - 2]);
    SubtreeOnce(d, b, l, q[0]);
    SubtreesApart(d, b, l, q[0], p, q[0]);
    forall j | 0 <= j < NBN
      ensures Occ(d, Addr(d[b], j), l - 1, nb) == 0 && (j != q[0] ==> Occ(d, Addr(d[b], j), l - 1, p) == 0)
    {
      SubtreeIn(d, b, l, j, nb);
      SubtreesApart(d, b, l, q[0], p, j);
    }
  }

  lemma LinksHere(d: Disk, b: int, l: nat, q: seq<int>, p: int, nb: int, fill: Bytes)
    requires Links(d, b, l, q, p, nb, fill) && |q| == 1
    ensures p == b && nb != b && On(d, b) && Addr(d[b], q[0]) == 0
    ensures forall j :: 0 <= j < NBN ==> Occ(d, Addr(d[b], j), l - 1, b) == 0 == Occ(d, Addr(d[b], j), l - 1, nb)
  {
    hide Addr, KidOcc;
    assert q[..0] == [] && q[1..] == [] && Follow(d, b, q) == Follow(d, Addr(d[b], q[0]), []);
    assert Occ(d, b, l, b) > 0;
    forall j | 0 <= j < NBN ensures Occ(d, Addr(d[b], j), l - 1, b) == 0 == Occ(d, Addr(d[b], j), l - 1, nb) {
      SubtreeIn(d, b, l, j, nb);
      SubtreeOnce(d, b, l, j);
    }
  }

  lemma LinkAgrees(d: Disk, b: int, l: nat, p: int, i: int, nb: int, fill: Bytes)
    requires IsDisk(d) && On(d, p) && On(d, nb) && 0 <= i < NBN && nb < 0x1_0000_0000 && IsBlock(fill)
    requires Occ(d, b, l, p) == 0 == Occ(d, b, l, nb)
    ensures Agree(d, Link(d, p, i, nb, fill), b, l)
  {
    hide Occ, SetAddr;
  }

  lemma NewTree(d: Disk, l: nat, nb: int, x: int)
    requires IsDisk(d) && On(d, nb) && (l > 0 ==> d[nb] == Zeros())
    ensures Occ(d, nb, l, x) == if x == nb then 1 else 0
  {
    if l > 0 { EmptyKids(d, NBN, l - 1, x); }
  }

  /** Linking adds exactly the new block to the tree. */
  lemma {:induction false} LinkGrows(d: Disk, b: int, l: nat, q: seq<int>, p: int, nb: int, fill: Bytes, x: int)
    requires Links(d, b, l, q, p, nb, fill)
    ensures IsDisk(Link(d, p, q[|q| - 1], nb, fill))
    ensures Occ(Link(d, p, q[|q| - 1], nb, fill), b, l, x) == Occ(d, b, l, x) + if x == nb then 1 else 0
    decreases l
  {
    hide Addr, SetAddr, KidOcc, Once, Agree;
    var i := q[|q| - 1];
    var d' := Link(d, p, i, nb, fill);
    if |q| == 1 {
      LinksHere(d, b, l, q, p, nb, fill);
      NewTree(d', l - 1, nb, x);
    } else {
      LinksBelow(d, b, l, q, p, nb, fill);
      LinkGrows(d, Addr(d[b], q[0]), l - 1, q[1..], p, nb, fill, x);
    }
    forall j | 0 <= j < NBN && j != q[0] ensures Occ(d', Addr(d'[b], j), l - 1, x) == Occ(d, Addr(d[b], j), l - 1, x) {
      LinkAgrees(d, Addr(d[b], j), l - 1, p, i, nb, fill);
      TreeFrame(d, d', Addr(d[b], j), l - 1, x);
    }
    KidsGain(d, d[b], d', d'[b], NBN, l - 1, q[0], x, if x == nb then 1 else 0);
  }

  /** After linking, path `q` leads to the new block, paths beyond it to holes, and all
      other paths where they led before. */
  lemma {:induction false} LinkFollow(d: Disk, b: int, l: nat, q: seq<int>, p: int, nb: int, fill: Bytes, r: seq<int>)
    requires Links(d, b, l, q, p, nb, fill) && IsIndexPath(r) && |r| <= l
    ensures IsDisk(Link(d, p, q[|q| - 1], nb, fill))
    ensures Follow(Link(d, p, q[|q| - 1], nb, fill), b, r) ==
            if r == q then nb else if q <= r then 0 else Follow(d, b, r)
    decreases l
  {
    hide Addr, SetAddr, Occ, Once, Agree;
    var i := q[|q| - 1];
    var d' := Link(d, p, i, nb, fill);
    if r != [] {
      if r[0] != q[0] {
        if |q| == 1 { LinksHere(d, b, l, q, p, nb, fill); } else { LinksBelow(d, b, l, q, p, nb, fill); }
        LinkAgrees(d, Addr(d[b], r[0]), l - 1, p, i, nb, fill);
        FollowFrame(d, d', Addr(d[b], r[0]), l - 1, r[1..]);
      } else if |q| == 1 {
        LinksHere(d, b, l, q, p, nb, fill);
        assert r == q + r[1..] && Follow(d', b, r) == Follow(d', nb, r[1..]);
        if |r| > 1 {
          ZeroAddr(r[1]);
          assert Follow(d', nb, r[1..]) == Follow(d', 0, r[1..][1..]);
        }
      } else {
        LinksBelow(d, b, l, q, p, nb, fill);
        LinkFollow(d, Addr(d[b], q[0]), l - 1, q[1..], p, nb, fill, r[1..]);
        assert q == [q[0]] + q[1..] && r == [r[0]] + r[1..];
        assert q <= r <==> q[1..] <= r[1..];
      }
    }
  }
}
