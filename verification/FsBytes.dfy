/** Disk blocks as bytes: block addresses inside indirect blocks and inside the chain
    blocks of the free list. */
module FsBytes {
  const BSIZE: int := 512
  const NBN: int := 128        // addresses in an indirect block
  const NICFREE: int := 64     // addresses in a free-list block

  type Bytes = seq<int>

  predicate IsBlock(b: Bytes) {
    |b| == BSIZE
  }

  function Zeros(): (z: Bytes)
    ensures |z| == BSIZE && forall i :: 0 <= i < BSIZE ==> z[i] == 0
  {
    seq(BSIZE, _ => 0)
  }

  /** The four-byte number at offset `o`, low byte first. */
  function Get(b: Bytes, o: int): int
    requires 0 <= o && o + 4 <= |b|
  {
    b[o] + 0x100 * b[o + 1] + 0x1_0000 * b[o + 2] + 0x100_0000 * b[o + 3]
  }

  lemma FourDigits(v: int)
    requires v >= 0
    ensures v == v % 0x100 + 0x100 * (v / 0x100 % 0x100) + 0x1_0000 * (v / 0x1_0000 % 0x100)
                 + 0x100_0000 * (v / 0x100_0000)
  {
    assert v / 0x1_0000 == v / 0x100 / 0x100 && v / 0x100_0000 == v / 0x1_0000 / 0x100;
  }

  function Put(b: Bytes, o: int, v: int): (r: Bytes)
    requires 0 <= o && o + 4 <= |b| && 0 <= v < 0x1_0000_0000
    ensures |r| == |b| && Get(r, o) == v
    ensures forall i :: 0 <= i < |b| && !(o <= i < o + 4) ==> r[i] == b[i]
  {
    FourDigits(v);
    b[o := v % 0x100][o + 1 := v / 0x100 % 0x100][o + 2 := v / 0x1_0000 % 0x100][o + 3 := v / 0x100_0000]
  }

  /** Address `i` of an indirect block. */
  function Addr(b: Bytes, i: int): int
    requires IsBlock(b) && 0 <= i < NBN
  {
    Get(b, 4 * i)
  }

  function SetAddr(b: Bytes, i: int, v: int): (r: Bytes)
    requires IsBlock(b) && 0 <= i < NBN && 0 <= v < 0x1_0000_0000
    ensures IsBlock(r) && Addr(r, i) == v
    ensures forall j :: 0 <= j < NBN && j != i ==> Addr(r, j) == Addr(b, j)
  {
    Put(b, 4 * i, v)
  }

  lemma ZeroAddr(i: int)
    requires 0 <= i < NBN
    ensures Addr(Zeros(), i) == 0
  {
  }

  // ----- chain blocks: a two-byte count, then NICFREE addresses -----

  function ChainCount(b: Bytes): int
    requires IsBlock(b)
  {
    b[0] + 0x100 * b[1]
  }

  function ChainAddr(b: Bytes, i: int): int
    requires IsBlock(b) && 0 <= i < NICFREE
  {
    Get(b, 2 + 4 * i)
  }

  function ChainAddrs(b: Bytes): (a: seq<int>)
    requires IsBlock(b)
    ensures |a| == NICFREE && forall i :: 0 <= i < NICFREE ==> a[i] == ChainAddr(b, i)
  {
    seq(NICFREE, i requires 0 <= i < NICFREE => ChainAddr(b, i))
  }

  predicate AddrRange(a: seq<int>) {
    forall i :: 0 <= i < |a| ==> 0 <= a[i] < 0x1_0000_0000
  }

  /** The first `n` addresses written into `b`. */
  function PutAddrs(b: Bytes, a: seq<int>, n: int): (r: Bytes)
    requires IsBlock(b) && 0 <= n <= |a| == NICFREE && AddrRange(a)
    ensures IsBlock(r) && r[0] == b[0] && r[1] == b[1]
    ensures forall i :: 0 <= i < n ==> ChainAddr(r, i) == a[i]
    decreases n
  {
    if n == 0 then b else Put(PutAddrs(b, a, n - 1), 2 + 4 * (n - 1), a[n - 1])
  }

  /** The block that `bfree` writes when it spills the list of the superblock. */
  function ChainBlock(n: int, a: seq<int>): (r: Bytes)
    requires 0 <= n <= |a| == NICFREE && AddrRange(a)
    ensures IsBlock(r) && ChainCount(r) == n && ChainAddrs(r) == a
  {
    PutAddrs(Zeros()[0 := n % 0x100][1 := n / 0x100], a, NICFREE)
  }
}
