/** From the block number inside a file to the path through the inode's addresses and
    the indirect blocks. */
module FsMap {
  import opened FsBytes
  import Chains

  const ND: int := 10          // direct addresses in an inode
  const NI: int := 3           // indirect addresses
  const NADDR: int := 13

  const BPFMAX: int := ND + NBN + NBN * NBN + NBN * NBN * NBN

  /** How many indirect blocks lie between an inode slot and the file's blocks. */
  function Level(slot: int): int {
    if slot < ND then 0 else slot - ND + 1
  }

  /** A path from the inode: a slot, then one index for each indirect block. */
  predicate IsPath(p: seq<int>) {
    && |p| >= 1 && 0 <= p[0] < NADDR && |p| == 1 + Level(p[0])
    && forall i :: 1 <= i < |p| ==> 0 <= p[i] < NBN
  }

  /** The path of block `n` of a file, root first. */
  function PathOf(n: int): seq<int>
    requires 0 <= n < BPFMAX
  {
    if n < ND then [n]
    else
      var m := n - ND;
      if m / NBN == 0 then [ND, m % NBN]
      else
        var k := m / NBN - 1;
        if k / NBN == 0 then [ND + 1, k % NBN, m % NBN]
        else [ND + 2, (k / NBN - 1) % NBN, k % NBN, m % NBN]
  }

  /** The block number that a path leads to. */
  function BlockOf(p: seq<int>): int
    requires IsPath(p)
  {
    if |p| == 1 then p[0]
    else if |p| == 2 then ND + p[1]
    else if |p| == 3 then ND + NBN + NBN * p[1] + p[2]
    else ND + NBN + NBN * NBN + NBN * NBN * p[1] + NBN * p[2] + p[3]
  }

  /** Block numbers below the limit and paths correspond one to one. */
  lemma PathRoundTrip(n: int)
    requires 0 <= n < BPFMAX
    ensures IsPath(PathOf(n)) && BlockOf(PathOf(n)) == n
  {
  }

  lemma BlockRoundTrip(p: seq<int>)
    requires IsPath(p)
    ensures 0 <= BlockOf(p) < BPFMAX && PathOf(BlockOf(p)) == p
  {
    var m := BlockOf(p) - ND;
    if |p| == 1 {
      assert p == [p[0]];
    } else if |p| == 2 {
      assert m / NBN == 0 && m % NBN == p[1];
      assert p == [p[0], p[1]];
    } else if |p| == 3 {
      Digit(m, p[2], 1 + p[1]);
      assert p == [p[0], p[1], p[2]];
    } else {
      Digit(m, p[3], 1 + NBN + NBN * p[1] + p[2]);
      Digit(NBN + NBN * p[1] + p[2], p[2], 1 + p[1]);
      assert p == [p[0], p[1], p[2], p[3]];
    }
  }

  lemma Digit(m: int, d: int, h: int)
    requires 0 <= d < NBN && m == NBN * h + d
    ensures m % NBN == d && m / NBN == h
  {
  }

  /** `p` comes before `q` when read from the root on. */
  predicate Precedes(p: seq<int>, q: seq<int>) {
    exists i :: 0 <= i < |p| && i < |q| && p[..i] == q[..i] && p[i] < q[i]
  }

  /** Higher block numbers have later paths, so the layout is the only one in order. */
  lemma PathsAreInOrder(n: int, m: int)
    requires 0 <= n < m < BPFMAX
    ensures Precedes(PathOf(n), PathOf(m))
  {
    var p, q := PathOf(n), PathOf(m);
    var x, y := (n - ND) / NBN, (m - ND) / NBN;
    if n < ND || p[0] < q[0] {
      assert p[..0] == q[..0] && p[0] < q[0];
    } else if |p| == 2 || x == y {
      var k := |p| - 1;
      assert p[..k] == q[..k] && p[k] < q[k];
    } else if |p| == 3 || (x - 1) / NBN == (y - 1) / NBN {
      var k := |p| - 2;
      assert p[..k] == q[..k] && p[k] < q[k];
    } else {
      assert p[..1] == q[..1] && p[1] < q[1];
    }
  }

  /** How many blocks from `n` on share its path up to the last index. */
  function RunLength(n: int): int
    requires 0 <= n < BPFMAX
  {
    if n < ND then ND - n else NBN - (n - ND) % NBN
  }

  /** Along a run only the last index advances. */
  lemma RunAdvancesLeaf(n: int, j: int)
    requires 0 <= n < BPFMAX && 0 <= j < RunLength(n)
    ensures n + j < BPFMAX
    ensures var p := PathOf(n); PathOf(n + j) == p[|p| - 1 := p[|p| - 1] + j]
  {
    if n >= ND {
      var m := n - ND;
      assert (m + j) / NBN == m / NBN && (m + j) % NBN == m % NBN + j;
    }
  }

  /** The run is as long as it can be: the block after it has another path. */
  lemma RunIsMaximal(n: int)
    requires 0 <= n < BPFMAX && n + RunLength(n) < BPFMAX
    ensures var p, q := PathOf(n), PathOf(n + RunLength(n)); |p| != |q| || p[..|p| - 1] != q[..|q| - 1]
  {
    if n >= ND {
      var m, r := n - ND, RunLength(n);
      assert (m + r) / NBN == m / NBN + 1 && (m + r) % NBN == 0;
      var p, q := PathOf(n), PathOf(n + r);
      if |p| == |q| == 3 { assert p[1] != q[1]; }
      if |p| == |q| == 4 { assert p[1] != q[1] || p[2] != q[2]; }
    } else {
      assert PathOf(ND) == [ND, 0];
    }
  }

  /** lmap: stores the path backwards, leaf first, in `listp` and returns the position
      just after the slot; -1 reports EFBIG. */
  method Lmap(blockofs: int, listp: array<int>) returns (end: int, numblocks: int)
    requires blockofs >= 0 && listp.Length == 1 + NI
    modifies listp
    ensures end == -1 <==> blockofs >= BPFMAX
    ensures end != -1 ==> 1 <= end <= 1 + NI && numblocks == RunLength(blockofs)
    ensures end != -1 ==> Chains.Reverse(listp[..end]) == PathOf(blockofs)
  {
    var n := ND - blockofs;
    if n > 0 {
      listp[0] := blockofs;
      assert listp[..1] == [blockofs];
      return 1, n;
    }
    var ofs := blockofs - ND;
    n := ofs % NBN;
    numblocks := NBN - n;
    listp[0] := n;
    ofs := ofs / NBN;
    if ofs == 0 {
      listp[1] := ND;
      assert listp[..2] == [n, ND];
      return 2, numblocks;
    }
    ofs := ofs - 1;
    listp[1] := ofs % NBN;
    ofs := ofs / NBN;
    if ofs == 0 {
      listp[2] := ND + 1;
      assert listp[..3] == [n, listp[1], ND + 1];
      return 3, numblocks;
    }
    ofs := ofs - 1;
    listp[2] := ofs % NBN;
    ofs := ofs / NBN;
    if ofs == 0 {
      listp[3] := ND + 2;
      assert listp[..4] == [n, listp[1], listp[2], ND + 2];
      return 4, numblocks;
    }
    end := -1;
  }
}
