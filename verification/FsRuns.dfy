/** Files over runs of calls. */
module FsRuns {
  // Any sequence of writes, reads and truncations behaves as if every file were a sequence of
  // bytes, though writes allocate blocks, truncations free them, and a full disk cuts writes
  // short.

  import opened FsMap
  import opened FsTree
  import opened FsFree
  import opened FsFiles
  import opened FsHoles
  import opened FsIO
  import opened FsRead
  import opened FsContent

  /** The part of a sequence that a read gets. */
  function Slice(c: seq<int>, seek: int, count: int): (r: seq<int>)
    requires 0 <= seek && 0 <= count
    ensures |r| <= count && (r != [] ==> seek + |r| <= |c|) && (|r| < count ==> seek + |r| >= |c|)
    ensures forall i :: 0 <= i < |r| ==> r[i] == c[seek + i]
  {
    if seek > |c| then [] else if |c| - seek > count then c[seek..seek + count] else c[seek..]
  }

  /** Each file reads as its sequence. */
  ghost predicate Holds(d: Disk, I: seq<Inode>, contents: seq<seq<int>>) {
    && IsDisk(d) && Inodes(I) && |contents| == |I|
    && forall f :: 0 <= f < |I| ==> HoldsFile(d, I[f], contents[f])
  }

  ghost predicate HoldsFile(d: Disk, ino: Inode, c: seq<int>)
    requires IsDisk(d) && |ino.addr| == NADDR && 0 <= ino.size <= LIMIT
  {
    TailZero(d, ino) && Content(d, ino) == c
  }

  lemma WriteHolds(d: Disk, I: seq<Inode>, d': Disk, I': seq<Inode>, f: int, start: int, data: seq<int>,
                   contents: seq<seq<int>>)
    requires Holds(d, I, contents) && Written(d, I, d', I', f, start, data)
    ensures Holds(d', I', contents[f := Spliced(contents[f], start, data)])
  {
    hide TailZero, Content, Spliced, Written;
    WrittenSame(d, I, d', I', f, start, data);
    assert HoldsFile(d, I[f], contents[f]);
    WriteRefines(d, I, d', I', f, start, data);
    var after := contents[f := Spliced(contents[f], start, data)];
    forall g | 0 <= g < |I'| ensures HoldsFile(d', I'[g], after[g]) {
      assert HoldsFile(d, I[g], contents[g]);
      if g != f { OthersKeepBytes(d, I, d', I', f, start, data, g); }
    }
  }

  lemma WrittenSame(d: Disk, I: seq<Inode>, d': Disk, I': seq<Inode>, f: int, start: int, data: seq<int>)
    requires Written(d, I, d', I', f, start, data)
    ensures IsDisk(d') && Inodes(I') && |I'| == |I| && 0 <= f < |I| && 0 <= start
  {
  }

  lemma TruncateHolds(d: Disk, I: seq<Inode>, d': Disk, I': seq<Inode>, f: int, contents: seq<seq<int>>)
    requires Holds(d, I, contents) && IsDisk(d') && Inodes(I') && 0 <= f < |I|
    requires I' == I[f := Inode(seq(NADDR, _ => 0), 0)]
    requires forall g {:trigger I'[g]} :: 0 <= g < |I| && g != f ==> SameBlocks(d, I'[g], d', I'[g])
    ensures Holds(d', I', contents[f := []])
  {
    hide TailZero, Content, SameBlocks;
    TruncatedIsEmpty(d', I'[f]);
    forall g | 0 <= g < |I'| ensures HoldsFile(d', I'[g], contents[f := []][g]) {
      if g != f {
        assert HoldsFile(d, I[g], contents[g]);
        SameContent(d, I'[g], d');
      }
    }
  }

  lemma ReadHolds(d: Disk, I: seq<Inode>, f: int, seek: int, count: int, contents: seq<seq<int>>, out: seq<int>)
    requires Holds(d, I, contents) && 0 <= f < |I| && 0 <= seek && 0 <= count
    requires |out| == ReadSize(I[f], seek, count) && (seek + |out| <= LIMIT || out == [])
    requires |out| > 0 ==> out == Stretch(d, I[f], seek, |out|)
    ensures out == Slice(contents[f], seek, count)
  {
    hide TailZero, Stretch, Content;
    assert HoldsFile(d, I[f], contents[f]);
    if |out| > 0 { ReadRefines(d, I[f], seek, count); }
  }

  // ----- calls -----

  datatype Call =
    | Write(f: int, start: int, data: seq<int>)
    | Truncate(f: int)
    | Read(f: int, seek: int, count: int)

  datatype Answer = Wrote(n: int) | Truncated | Got(out: seq<int>)

  /** A call names a file, and places in it. */
  predicate Proper(call: Call, files: int) {
    && 0 <= call.f < files
    && (call.Write? ==> 0 <= call.start) && (call.Read? ==> 0 <= call.seek && 0 <= call.count)
  }

  /** The answer to a call is one that byte sequences would give. */
  predicate Right(contents: seq<seq<int>>, call: Call, answer: Answer)
    requires Proper(call, |contents|)
  {
    match call
    case Write(f, start, data) => answer.Wrote? && 0 <= answer.n <= |data|
    case Truncate(f) => answer == Truncated
    case Read(f, seek, count) => answer == Got(Slice(contents[f], seek, count))
  }

  /** What the call makes of the byte sequences. */
  function After(contents: seq<seq<int>>, call: Call, answer: Answer): (after: seq<seq<int>>)
    requires Proper(call, |contents|) && Right(contents, call, answer)
    ensures |after| == |contents|
  {
    match call
    case Write(f, start, data) => contents[f := Spliced(contents[f], start, data[..answer.n])]
    case Truncate(f) => contents[f := []]
    case Read(_, _, _) => contents
  }

  /** The answers to a run of calls are those of byte sequences, which are `after` in the end. */
  predicate Behaves(contents: seq<seq<int>>, calls: seq<Call>, answers: seq<Answer>, after: seq<seq<int>>)
    requires forall i :: 0 <= i < |calls| ==> Proper(calls[i], |contents|)
    decreases |calls|
  {
    |answers| == |calls| &&
    if calls == [] then after == contents
    else Right(contents, calls[0], answers[0])
         && Behaves(After(contents, calls[0], answers[0]), calls[1..], answers[1..], after)
  }

  lemma {:induction false} BehavesOn(contents: seq<seq<int>>, calls: seq<Call>, answers: seq<Answer>,
                                     mid: seq<seq<int>>, call: Call, answer: Answer)
    requires forall i :: 0 <= i < |calls| ==> Proper(calls[i], |contents|)
    requires Behaves(contents, calls, answers, mid) && |mid| == |contents|
    requires Proper(call, |mid|) && Right(mid, call, answer)
    ensures forall i :: 0 <= i < |calls| + 1 ==> Proper((calls + [call])[i], |contents|)
    ensures Behaves(contents, calls + [call], answers + [answer], After(mid, call, answer))
    decreases |calls|
  {
    hide Right, After, Proper;
    var cs, as' := calls + [call], answers + [answer];
    if calls == [] {
      assert cs[1..] == [] && as'[1..] == [];
    } else {
      BehavesOn(After(contents, calls[0], answers[0]), calls[1..], answers[1..], mid, call, answer);
      assert cs[1..] == calls[1..] + [call] && as'[1..] == answers[1..] + [answer];
    }
  }

  class Files {
    const fs: FileSystem
    const readahead: int               // t_readahead, and how vmap maps runs
    const groupmode: bool
    ghost var contents: seq<seq<int>>  // every file as a byte sequence

    ghost predicate Valid()
      reads this, fs, fs.vol, fs.vol.sfree
    {
      && fs.Valid() && 0 <= readahead < READGROUP + READAHEAD
      && Holds(fs.vol.disk, fs.inodes, contents)
    }

    constructor (files: FileSystem, ahead: int, group: bool)
      requires files.Valid() && 0 <= ahead < READGROUP + READAHEAD
      requires forall f :: 0 <= f < |files.inodes| ==> TailZero(files.vol.disk, files.inodes[f])
      ensures Valid() && fs == files
    {
      fs, readahead, groupmode := files, ahead, group;
      contents := seq(|files.inodes|, f requires 0 <= f < |files.inodes| reads files, files.vol, files.vol.sfree
                                        requires files.Valid() => Content(files.vol.disk, files.inodes[f]));
    }

    /** One call: it is answered as byte sequences would, and a write stores the most that fits. */
    method Serve(call: Call) returns (answer: Answer)
      requires Valid() && Proper(call, |contents|)
      modifies this, fs, fs.vol, fs.vol.sfree
      ensures Valid() && Right(old(contents), call, answer) && contents == After(old(contents), call, answer)
      ensures call.Write? ==>
                && Fits(old(fs.vol.disk), old(fs.inodes)[call.f], old(fs.vol.tfree), call.start, answer.n)
                && (answer.n < |call.data| ==>
                    !Fits(old(fs.vol.disk), old(fs.inodes)[call.f], old(fs.vol.tfree), call.start, answer.n + 1))
    {
      hide Fits, Written, Content, TailZero, FreeOcc, FilesOcc, Balanced, Spliced, Slice, SameBlocks;
      ghost var d, I, was := fs.vol.disk, fs.inodes, contents;
      match call
      case Write(f, start, data) =>
        var w := fs.FWrite(f, start, data);
        WriteHolds(d, I, fs.vol.disk, fs.inodes, f, start, data[..w], was);
        contents := was[f := Spliced(was[f], start, data[..w])];
        answer := Wrote(w);
      case Truncate(f) =>
        fs.ITruncate(f);
        TruncateHolds(d, I, fs.vol.disk, fs.inodes, f, was);
        contents := was[f := []];
        answer := Truncated;
      case Read(f, seek, count) =>
        var out := FRead(fs, f, seek, count, readahead, groupmode);
        ReadHolds(d, I, f, seek, count, was, out);
        answer := Got(out);
    }

    /** Any run of calls. */
    method ServeAll(calls: seq<Call>) returns (answers: seq<Answer>)
      requires Valid() && forall i :: 0 <= i < |calls| ==> Proper(calls[i], |contents|)
      modifies this, fs, fs.vol, fs.vol.sfree
      ensures Valid() && Behaves(old(contents), calls, answers, contents)
    {
      hide Right, After, Holds, Proper, Behaves;
      answers := [];
      ghost var start := contents;
      Nothing(start);
      var k := 0;
      while k < |calls|
        invariant 0 <= k <= |calls| && Valid() && |contents| == |start|
        invariant Behaves(start, calls[..k], answers, contents)
      {
        ghost var mid := contents;
        var answer := Serve(calls[k]);
        BehavesOn(start, calls[..k], answers, mid, calls[k], answer);
        assert calls[..k + 1] == calls[..k] + [calls[k]];
        answers := answers + [answer];
        k := k + 1;
      }
      assert calls[..k] == calls;
    }
  }

  lemma Nothing(contents: seq<seq<int>>)
    ensures Behaves(contents, [], [], contents)
  {
  }
}
