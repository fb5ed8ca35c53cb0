/** Files as plain byte sequences: what the operations on blocks mean for them. */
module FsContent {
  import opened FsBytes
  import opened FsMap
  import opened FsTree
  import opened FsFiles
  import opened FsIO
  import opened FsRead

  /** The file as a byte sequence. */
  ghost function Content(d: Disk, ino: Inode): (c: seq<int>)
    requires IsDisk(d) && |ino.addr| == NADDR && 0 <= ino.size <= LIMIT
    ensures |c| == ino.size
  {
    Stretch(d, ino, 0, ino.size)
  }

  /** `data` put into `c` at `start`; a gap before it is filled with zeros. */
  function Spliced(c: seq<int>, start: int, data: seq<int>): (r: seq<int>)
    requires 0 <= start
    ensures |r| == if data != [] && start + |data| > |c| then start + |data| else |c|
    ensures forall i :: 0 <= i < |r| ==>
              r[i] == if start <= i < start + |data| then data[i - start] else if i < |c| then c[i] else 0
  {
    var n := if data != [] && start + |data| > |c| then start + |data| else |c|;
    seq(n, i requires 0 <= i < n =>
          if start <= i < start + |data| then data[i - start] else if i < |c| then c[i] else 0)
  }

  /** Two ways to say that nothing follows the end of a file. */
  lemma TailBytes(d: Disk, ino: Inode)
    requires IsDisk(d) && |ino.addr| == NADDR && 0 <= ino.size
    ensures TailZero(d, ino) <==> forall k :: ino.size <= k < LIMIT ==> ByteAt(d, ino, k) == 0
  {
    hide BlockBytes;
    if forall k :: ino.size <= k < LIMIT ==> ByteAt(d, ino, k) == 0 {
      forall n, o | 0 <= n < BPFMAX && 0 <= o < BSIZE && n * BSIZE + o >= ino.size
        ensures BlockBytes(d, ino, n)[o] == 0
      {
        var k := n * BSIZE + o;
        assert k / BSIZE == n && k % BSIZE == o && ByteAt(d, ino, k) == 0;
      }
    }
    if TailZero(d, ino) {
      forall k | ino.size <= k < LIMIT ensures ByteAt(d, ino, k) == 0 {
        assert k == k / BSIZE * BSIZE + k % BSIZE;
      }
    }
  }

  /** Writing: the file's sequence has the data spliced in, also where the write starts
      beyond the old end, the bytes after the new end stay zero, and no other file
      changes. */
  lemma WriteRefines(d: Disk, I: seq<Inode>, d': Disk, I': seq<Inode>, f: int, start: int, data: seq<int>)
    requires Written(d, I, d', I', f, start, data) && TailZero(d, I[f])
    ensures Content(d', I'[f]) == Spliced(Content(d, I[f]), start, data) && TailZero(d', I'[f])
    ensures forall g {:trigger I'[g]} :: 0 <= g < |I| && g != f ==> Content(d', I'[g]) == Content(d, I[g])
  {
    hide ByteAt, TailZero;
    TailBytes(d, I[f]);
    TailBytes(d', I'[f]);
    forall k | 0 <= k < LIMIT
      ensures ByteAt(d', I'[f], k) == if start <= k < start + |data| then data[k - start] else ByteAt(d, I[f], k)
    {
      assert WrittenAt(d, I, d', I', f, start, data, f, k);
    }
    forall g | 0 <= g < |I| && g != f ensures Content(d', I'[g]) == Content(d, I[g]) {
      OthersKeepBytes(d, I, d', I', f, start, data, g);
    }
  }

  lemma OthersKeepBytes(d: Disk, I: seq<Inode>, d': Disk, I': seq<Inode>, f: int, start: int, data: seq<int>, g: int)
    requires Written(d, I, d', I', f, start, data) && 0 <= g < |I| && g != f
    ensures Content(d', I'[g]) == Content(d, I[g]) && (TailZero(d, I[g]) ==> TailZero(d', I'[g]))
  {
    hide ByteAt, TailZero;
    assert I'[g] == I[g];
    TailBytes(d, I[g]);
    TailBytes(d', I'[g]);
    forall k | 0 <= k < LIMIT ensures ByteAt(d', I'[g], k) == ByteAt(d, I[g], k) {
      assert WrittenAt(d, I, d', I', f, start, data, g, k);
    }
  }

  /** A read gets a slice of the sequence. */
  lemma ReadRefines(d: Disk, ino: Inode, seek: int, count: int)
    requires IsDisk(d) && |ino.addr| == NADDR && 0 <= ino.size <= LIMIT && 0 <= seek <= ino.size && 0 <= count
    ensures var n := ReadSize(ino, seek, count); Stretch(d, ino, seek, n) == Content(d, ino)[seek..seek + n]
  {
    hide ByteAt;
  }

  /** A read returns what was written last. */
  lemma ReadBack(d: Disk, I: seq<Inode>, d': Disk, I': seq<Inode>, f: int, start: int, data: seq<int>)
    requires Written(d, I, d', I', f, start, data) && data != []
    ensures ReadSize(I'[f], start, |data|) == |data| && Stretch(d', I'[f], start, |data|) == data
  {
    hide ByteAt;
    var s := Stretch(d', I'[f], start, |data|);
    forall i | 0 <= i < |data| ensures s[i] == data[i] {
      var k := start + i;
      assert WrittenAt(d, I, d', I', f, start, data, f, k);
    }
  }

  /** A file whose blocks read as before is the same sequence. */
  lemma SameContent(d: Disk, ino: Inode, d': Disk)
    requires IsDisk(d) && IsDisk(d') && |ino.addr| == NADDR && 0 <= ino.size <= LIMIT && SameBlocks(d, ino, d', ino)
    ensures Content(d', ino) == Content(d, ino) && (TailZero(d, ino) ==> TailZero(d', ino))
  {
    hide BlockBytes;
  }

  /** A truncated file is empty, whatever was in its blocks. */
  lemma TruncatedIsEmpty(d: Disk, ino: Inode)
    requires IsDisk(d) && ino == Inode(seq(NADDR, _ => 0), 0)
    ensures Content(d, ino) == [] && TailZero(d, ino)
  {
    forall n | 0 <= n < BPFMAX ensures BlockBytes(d, ino, n) == Zeros() {
      assert Locate(d, ino, n) == 0;
    }
    hide BlockBytes;
  }
}
