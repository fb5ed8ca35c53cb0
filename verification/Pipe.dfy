/** Pipes. */
module Pipe {
  // The ring buffer in a pipe's inode, and the order and atomicity of what goes through it.
  //
  // The ring is held in the direct blocks of the inode, here one array, with a flag for
  // each block that says whether the inode has it.  A block is taken from the file system
  // when it is first written; `free` is the number of blocks that are free there when a
  // call begins.  `sent` and `got` record all bytes that ever went in and came out; the
  // invariant says that what went in is what came out and what is held, in this order.
  // A read or write that has to wait returns, and is called again with what is left when
  // the pipe has changed.

  import opened FsBytes
  import opened FsMap

  const PIPE_MAX: int := 5120

  /** Position `k` of the ring, for `k` at most once around. */
  function Wrap(k: int): int {
    if k >= PIPE_MAX then k - PIPE_MAX else k
  }

  predicate IsRing(ring: seq<int>, x: int, n: int) {
    |ring| == PIPE_MAX && 0 <= x < PIPE_MAX && 0 <= n <= PIPE_MAX
  }

  /** The `n` bytes from position `x` on. */
  function Held(ring: seq<int>, x: int, n: int): (r: seq<int>)
    requires IsRing(ring, x, n)
    ensures |r| == n
  {
    seq(n, i requires 0 <= i < n => ring[Wrap(x + i)])
  }

  /** `data` stored from position `at` on, without wrapping. */
  function Stored(ring: seq<int>, at: int, data: seq<int>): (r: seq<int>)
    requires 0 <= at && at + |data| <= |ring|
    ensures |r| == |ring| && forall k :: 0 <= k < |ring| ==>
              r[k] == if at <= k < at + |data| then data[k - at] else ring[k]
  {
    ring[..at] + data + ring[at + |data|..]
  }

  /** Storing behind the bytes held appends to them. */
  lemma StoredIsAppended(ring: seq<int>, x: int, n: int, data: seq<int>)
    requires IsRing(ring, x, n) && n + |data| <= PIPE_MAX && |data| <= PIPE_MAX - Wrap(x + n)
    ensures Held(Stored(ring, Wrap(x + n), data), x, n + |data|) == Held(ring, x, n) + data
  {
    var at := Wrap(x + n);
    var ring' := Stored(ring, at, data);
    forall i | 0 <= i < n + |data| ensures ring'[Wrap(x + i)] == (Held(ring, x, n) + data)[i] {
      var k := Wrap(x + i);
      if i >= n { assert k == at + (i - n); }
    }
  }

  lemma StoredNothing(ring: seq<int>, at: int, data: seq<int>)
    requires 0 <= at <= |ring|
    ensures data[..0] == [] && Stored(ring, at, []) == ring
  {
  }

  /** A piece stored behind a piece. */
  lemma StoredTwice(ring: seq<int>, at: int, data: seq<int>, n: int, m: int)
    requires 0 <= at && 0 <= n && 0 <= m && n + m <= |data| && at + |data| <= |ring|
    ensures Stored(Stored(ring, at, data[..n]), at + n, data[n..n + m]) == Stored(ring, at, data[..n + m])
  {
  }

  /** Taking from the front. */
  lemma TakenFromFront(ring: seq<int>, x: int, n: int, m: int)
    requires IsRing(ring, x, n) && 0 <= m <= n && m <= PIPE_MAX - x
    ensures Wrap(x + m) == if x + m == PIPE_MAX then 0 else x + m
    ensures Wrap(Wrap(x + m) + (n - m)) == Wrap(x + n) && Wrap(0) == 0
    ensures IsRing(ring, Wrap(x + m), n - m)
    ensures ring[x..x + m] == Held(ring, x, n)[..m] && Held(ring, Wrap(x + m), n - m) == Held(ring, x, n)[m..]
  {
    var rest := Held(ring, Wrap(x + m), n - m);
    forall i | 0 <= i < m ensures ring[x..x + m][i] == Held(ring, x, n)[..m][i] {
      assert Wrap(x + i) == x + i;
    }
    forall i | 0 <= i < n - m ensures rest[i] == Held(ring, x, n)[m..][i] {
      assert Wrap(Wrap(x + m) + i) == Wrap(x + (m + i));
    }
  }

  // ----- the blocks of the ring -----

  /** How many of the blocks from `lo` to `hi` the inode does not have. */
  function Missing(have: seq<bool>, lo: int, hi: int): (n: nat)
    requires 0 <= lo && hi <= |have|
    decreases hi - lo
  {
    if lo >= hi then 0 else (if have[lo] then 0 else 1) + Missing(have, lo + 1, hi)
  }

  /** How many of `len` bytes can be stored from position `at` on when `free` blocks are free:
      block by block, up to the first that is missing and cannot be had. */
  function Fits(have: seq<bool>, at: int, len: int, free: nat): (n: int)
    requires 0 <= at && 0 <= len && at + len <= |have| * BSIZE
    ensures 0 <= n <= len
    decreases len
  {
    var m := InBlock(at, len);
    if len == 0 then 0
    else if have[at / BSIZE] then m + Fits(have, at + m, len - m, free)
    else if free == 0 then 0
    else m + Fits(have, at + m, len - m, free - 1)
  }

  /** How many of `len` bytes belong in the block of position `at`. */
  function InBlock(at: int, len: int): (m: int)
    requires 0 <= at && 0 <= len
    ensures 0 <= m <= len && (len > 0 ==> m > 0)
  {
    if len < BSIZE - at % BSIZE then len else BSIZE - at % BSIZE
  }

  lemma InBlockIs(at: int, len: int)
    requires 0 <= at && 0 <= len
    ensures var m := InBlock(at, len);
            && (m < len ==> (at + m) % BSIZE == 0 && (at + m) / BSIZE == at / BSIZE + 1)
            && (m == len > 0 ==> (at + m + BSIZE - 1) / BSIZE == at / BSIZE + 1)
    ensures forall p :: at <= p < at + InBlock(at, len) ==> p / BSIZE == at / BSIZE
  {
  }

  /** The block after the last one of `n` bytes from position `at` on. */
  function BlocksEnd(at: int, n: int): (b: int) {
    (at + n + BSIZE - 1) / BSIZE
  }

  lemma FitsStep(have: seq<bool>, at: int, len: int, free: nat)
    requires 0 <= at && 0 < len && at + len <= |have| * BSIZE
    ensures var m := InBlock(at, len);
            Fits(have, at, len, free) ==
              if have[at / BSIZE] then m + Fits(have, at + m, len - m, free)
              else if free == 0 then 0
              else m + Fits(have, at + m, len - m, free - 1)
  {
  }

  lemma MissingFirst(have: seq<bool>, lo: int, hi: int)
    requires 0 <= lo < hi <= |have|
    ensures Missing(have, lo, hi) == (if have[lo] then 0 else 1) + Missing(have, lo + 1, hi)
  {
  }

  lemma NothingFits(have: seq<bool>, at: int, free: nat)
    requires 0 <= at <= |have| * BSIZE
    ensures Fits(have, at, 0, free) == 0
  {
  }

  /** All bytes fit if and only if there is a free block for every missing one among theirs. */
  lemma {:induction false} WholeIffBlocksSuffice(have: seq<bool>, at: int, len: int, free: nat)
    requires 0 <= at && 0 < len && at + len <= |have| * BSIZE
    ensures Fits(have, at, len, free) == len <==> Missing(have, at / BSIZE, BlocksEnd(at, len)) <= free
    decreases len
  {
    hide Fits, InBlock;
    var m := InBlock(at, len);
    var left := if have[at / BSIZE] || free == 0 then free else free - 1;
    InBlockIs(at, len);
    FitsStep(have, at, len, free);
    if m < len {
      WholeIffBlocksSuffice(have, at + m, len - m, left);
    } else {
      NothingFits(have, at + m, left);
    }
  }

  /** Where it stops, the next block is missing, and those before took all free blocks. */
  lemma {:induction false} StopsWhereNoBlockIs(have: seq<bool>, at: int, len: int, free: nat)
    requires 0 <= at && 0 <= len && at + len <= |have| * BSIZE && Fits(have, at, len, free) < len
    ensures Fits(have, at, len, free) == 0 || (at + Fits(have, at, len, free)) % BSIZE == 0
    ensures var b := (at + Fits(have, at, len, free)) / BSIZE;
            at / BSIZE <= b < |have| && !have[b] && Missing(have, at / BSIZE, b) == free
    decreases len
  {
    hide Fits, InBlock;
    if len == 0 {
      NothingFits(have, at, free);
    } else {
      InBlockIs(at, len);
      FitsStep(have, at, len, free);
      var m, first := InBlock(at, len), at / BSIZE;
      var left := if have[first] || free == 0 then free else free - 1;
      if have[first] || free > 0 {
        hide Missing;
        StopsWhereNoBlockIs(have, at + m, len - m, left);
        MissingFirst(have, first, (at + Fits(have, at, len, free)) / BSIZE);
      }
    }
  }

  /** A new pipe has no blocks. */
  const NoBlocks: seq<bool> := seq(ND, _ => false)

  /** With one free block only half of a record of two blocks goes into a new pipe. */
  lemma FullDiskTearsRecord()
    ensures Fits(NoBlocks, 0, 1024, 1) == 512
  {
    assert Fits(NoBlocks, 512, 512, 0) == 0;
  }

  /** What the writing of blocks does to the flags: none is lost, those of the bytes written
      are set, and the rest is as before. */
  ghost predicate Grown(had: seq<bool>, have: seq<bool>, at: int, n: int) {
    && |had| == |have| == ND
    && (forall b :: 0 <= b < ND ==> have[b] || !had[b])
    && (forall b :: 0 <= b < ND && b >= (if n == 0 then at / BSIZE else BlocksEnd(at, n)) ==> have[b] == had[b])
    && (forall p :: at <= p < at + n ==> HasBlock(have, p))
  }

  lemma NothingGrown(have: seq<bool>, at: int)
    requires |have| == ND && 0 <= at
    ensures Grown(have, have, at, 0)
  {
  }

  lemma GrownMore(had: seq<bool>, now: seq<bool>, at: int, n: int, len: int)
    requires Grown(had, now, at, n) && 0 <= at && 0 <= n < len && at + len <= PIPE_MAX
    requires n == 0 || (at + n) % BSIZE == 0
    ensures Grown(had, now[(at + n) / BSIZE := true], at, n + InBlock(at + n, len - n))
    ensures now[(at + n) / BSIZE] == had[(at + n) / BSIZE]
    ensures var m := InBlock(at + n, len - n); (n + m == len || (at + n + m) % BSIZE == 0) && InBlock(at + n, m) == m
  {
    InBlockIs(at + n, len - n);
    var next, m := now[(at + n) / BSIZE := true], InBlock(at + n, len - n);
    forall p | at <= p < at + n + m ensures HasBlock(next, p) {
      if p < at + n { assert HasBlock(now, p); }
    }
  }

  /** Another block for the inode is one less on the device. */
  lemma {:induction false} OneBlockMore(have: seq<bool>, b: int, lo: int, hi: int)
    requires 0 <= lo && hi <= |have| && 0 <= b < |have| && !have[b]
    ensures Missing(have[b := true], lo, hi) == Missing(have, lo, hi) - if lo <= b < hi then 1 else 0
    decreases hi - lo
  {
    if lo < hi { OneBlockMore(have, b, lo + 1, hi); }
  }

  /** The inode has the block of position `k`. */
  predicate HasBlock(have: seq<bool>, k: int) {
    |have| == ND && 0 <= k < PIPE_MAX && have[k / BSIZE]
  }

  /** The byte `i` places behind position `x` of the ring is in a block that the inode has. */
  predicate HasAt(have: seq<bool>, x: int, i: int) {
    HasBlock(have, Wrap(x + i))
  }

  /** So are the `n` bytes of the ring from position `x` on. */
  ghost predicate Backed(have: seq<bool>, x: int, n: int) {
    |have| == ND && forall i :: 0 <= i < n ==> HasAt(have, x, i)
  }

  lemma NothingHeld(ring: seq<int>, x: int)
    requires IsRing(ring, x, 0)
    ensures Held(ring, x, 0) == Held(ring, 0, 0)
  {
  }

  lemma NothingIsBacked(have: seq<bool>, x: int)
    requires |have| == ND
    ensures Backed(have, x, 0)
  {
  }

  lemma BackedAppend(have: seq<bool>, have': seq<bool>, x: int, n: int, m: int)
    requires 0 <= x < PIPE_MAX && 0 <= n && 0 <= m && n + m <= PIPE_MAX && Backed(have, x, n)
    requires Wrap(x + n) + m <= PIPE_MAX && Grown(have, have', Wrap(x + n), m)
    ensures Backed(have', x, n + m)
  {
    forall i | 0 <= i < n + m ensures HasAt(have', x, i) {
      if i >= n {
        assert Wrap(x + i) == Wrap(x + n) + (i - n);
      } else {
        assert HasAt(have, x, i);
      }
    }
  }

  lemma BackedSuffix(have: seq<bool>, x: int, n: int, m: int)
    requires 0 <= x < PIPE_MAX && 0 <= m <= n && m <= PIPE_MAX - x && n <= PIPE_MAX && Backed(have, x, n)
    ensures Backed(have, Wrap(x + m), n - m)
  {
    forall i {:trigger HasAt(have, Wrap(x + m), i)} | 0 <= i < n - m ensures HasAt(have, Wrap(x + m), i) {
      assert HasAt(have, x, m + i) && Wrap(Wrap(x + m) + i) == Wrap(x + (m + i));
    }
  }

  /** What becomes of a write of at most PIPE_MAX bytes that need not wait: it goes in as one
      piece that does not wrap, and as a whole if and only if there are free blocks for those
      that it needs and the inode does not have; otherwise the call ends with ENOSPC. */
  ghost predicate GoesIn(have: seq<bool>, at: int, len: int, free: nat, w: int, at': int, how: Outcome) {
    && 0 <= at && 0 < len && at + len <= PIPE_MAX && |have| == ND
    && w == Fits(have, at, len, free)
    && at' == (if at + w == PIPE_MAX then 0 else at + w)
    && (w == len <==> Missing(have, at / BSIZE, BlocksEnd(at, len)) <= free)
    && how == if w == len then Done else NoSpace
  }

  lemma PieceGoesIn(have: seq<bool>, at: int, len: int, free: nat, at': int)
    requires 0 <= at && 0 < len && at + len <= PIPE_MAX && |have| == ND
    requires var w := Fits(have, at, len, free); at' == if at + w == PIPE_MAX then 0 else at + w
    ensures var w := Fits(have, at, len, free); GoesIn(have, at, len, free, w, at', if w == len then Done else NoSpace)
  {
    WholeIffBlocksSuffice(have, at, len, free);
  }

  lemma OneMorePiece(was: seq<int>, data: seq<int>, w: int, n: int, m: int)
    requires 0 <= w && 0 <= m <= n && w + n <= |data|
    ensures was + data[..w] + data[w..w + n][..m] == was + data[..w + m]
  {
    assert data[..w + m] == data[..w] + data[w..w + n][..m];
  }

  lemma Divided(got: seq<int>, held: seq<int>, n: int)
    requires 0 <= n <= |held|
    ensures held == held[..n] + held[n..] && got + held == got + held[..n] + held[n..]
  {
  }

  lemma SameFront(got: seq<int>, held: seq<int>, held': seq<int>, more: seq<int>)
    requires got + held' == (got + held) + more
    ensures held' == held + more
  {
    assert (got + held) + more == got + (held + more);
    assert forall s: seq<int> :: s == (got + s)[|got|..];
  }

  /** How a call ends: all done, nothing to wait for (O_NDELAY), EAGAIN, end of file or no
      reader left, ENOSPC, or asleep until the pipe changes. */
  datatype Outcome = Done | NoDelay | Again | Hangup | NoSpace | Asleep

  class PipeNode {
    const ring: array<int>       // the blocks of the pipe's inode
    const have: array<bool>      // which of them it has
    var pnc: int                 // characters in the pipe
    var prx: int                 // where reading begins
    var pwx: int                 // where writing begins
    ghost var sent: seq<int>     // all bytes ever written
    ghost var got: seq<int>      // all bytes ever read

    ghost predicate Valid()
      reads this, ring, have
    {
      && ring.Length == PIPE_MAX && IsRing(ring[..], prx, pnc) && pwx == Wrap(prx + pnc)
      && have.Length == ND && Backed(have[..], prx, pnc)
      && (pnc == 0 ==> prx == 0)
      && sent == got + Contents()
    }

    /** The bytes in the pipe, oldest first. */
    ghost function Contents(): seq<int>
      reads this, ring
    {
      if IsRing(ring[..], prx, pnc) then Held(ring[..], prx, pnc) else []
    }

    lemma Bounds()
      requires Valid()
      ensures ring.Length == PIPE_MAX && have.Length == ND && 0 <= pnc <= PIPE_MAX && 0 <= prx < PIPE_MAX
      ensures pwx == Wrap(prx + pnc) && 0 <= pwx < PIPE_MAX && |Contents()| == pnc && sent == got + Contents()
    {
    }

    constructor ()
      ensures Valid() && Contents() == [] == sent && fresh(ring) && fresh(have)
      ensures have[..] == NoBlocks && prx == pwx == pnc == 0
    {
      ring := new int[PIPE_MAX];
      have := new bool[ND](_ => false);
      pnc, prx, pwx, sent, got := 0, 0, 0, [], [];
    }

    /** aread with the turn of fwrite behind it: the bytes of one block, taken from the file
        system when the inode does not have it. */
    method WriteBlock(at: int, data: seq<int>, free: nat) returns (ok: bool, left: nat)
      requires ring.Length == PIPE_MAX && have.Length == ND && 0 <= at && at + |data| <= PIPE_MAX
      requires data != [] && InBlock(at, |data|) == |data|
      modifies ring, have
      ensures ok <==> old(have[at / BSIZE]) || free > 0
      ensures have[..] == old(have[..])[at / BSIZE := ok]
      ensures left == if old(have[at / BSIZE]) || free == 0 then free else free - 1
      ensures free - left == Missing(old(have[..]), 0, ND) - Missing(have[..], 0, ND)
      ensures ring[..] == if ok then Stored(old(ring[..]), at, data) else old(ring[..])
    {
      hide Missing, Stored, InBlock;
      var lbn := at / BSIZE;
      left := free;
      ok := true;
      ghost var had, was := have[..], ring[..];
      if !have[lbn] {
        if left == 0 {
          assert have[..] == had[lbn := false];
          return false, left;
        }
        OneBlockMore(had, lbn, 0, ND);
        have[lbn] := true;
        assert have[..] == had[lbn := true];
        left := left - 1;
      }
      forall i | 0 <= i < |data| {
        ring[at + i] := data[i];
      }
      assert ring[..] == Stored(was, at, data);
      assert have[..] == had[lbn := true];
      if had[lbn] { assert had[lbn := true] == had; }
    }

    /** fwrite on the blocks of the ring: stores as much as there are blocks for. */
    method FWrite(at: int, data: seq<int>, free: nat) returns (n: int, left: nat)
      requires ring.Length == PIPE_MAX && have.Length == ND && 0 <= at && at + |data| <= PIPE_MAX
      modifies ring, have
      ensures n == Fits(old(have[..]), at, |data|, free) && 0 <= n <= |data|
      ensures ring[..] == Stored(old(ring[..]), at, data[..n])
      ensures Grown(old(have[..]), have[..], at, n)
      ensures free - left == Missing(old(have[..]), 0, ND) - Missing(have[..], 0, ND)
      ensures n < |data| ==> left == 0 && !have[..][(at + n) / BSIZE]
    {
      hide Missing, Stored, Fits, Grown, InBlock;
      n, left := 0, free;
      ghost var had, was := have[..], ring[..];
      NothingGrown(had, at);
      StoredNothing(was, at, data);
      while n < |data|
        invariant 0 <= n <= |data| && (n == |data| || n == 0 || (at + n) % BSIZE == 0)
        invariant n + Fits(had, at + n, |data| - n, left) == Fits(had, at, |data|, free)
        invariant Grown(had, have[..], at, n)
        invariant ring[..] == Stored(was, at, data[..n])
        invariant free - left == Missing(had, 0, ND) - Missing(have[..], 0, ND)
      {
        var m := InBlock(at + n, |data| - n);
        FitsStep(had, at + n, |data| - n, left);
        GrownMore(had, have[..], at, n, |data|);
        ghost var now := have[..];
        var ok: bool;
        ok, left := WriteBlock(at + n, data[n..n + m], left);
        if !ok {
          assert have[..] == now;
          return;
        }
        StoredTwice(was, at, data, n, m);
        n := n + m;
      }
      NothingFits(had, at + n, left);
      assert data[..n] == data;
    }

    /** One piece goes into the ring, or as much of it as there are blocks for. */
    method Put(data: seq<int>, free: nat) returns (n: int, left: nat)
      requires Valid() && |data| <= PIPE_MAX - pwx && |data| <= PIPE_MAX - pnc
      modifies this`pnc, this`pwx, this`sent, ring, have
      ensures Valid() && n == Fits(old(have[..]), old(pwx), |data|, free) && 0 <= n <= |data|
      ensures Contents() == old(Contents()) + data[..n] && sent == old(sent) + data[..n] && pnc == old(pnc) + n
      ensures pwx == if old(pwx) + n == PIPE_MAX then 0 else old(pwx) + n
      ensures free - left == Missing(old(have[..]), 0, ND) - Missing(have[..], 0, ND)
      ensures n < |data| ==> left == 0 && !have[pwx / BSIZE]
    {
      hide Held, Stored, Backed, Missing, Fits, Grown;
      ghost var before, had := ring[..], have[..];
      n, left := FWrite(pwx, data, free);
      StoredIsAppended(before, prx, pnc, data[..n]);
      BackedAppend(had, have[..], prx, pnc, n);
      pwx := if pwx + n == PIPE_MAX then 0 else pwx + n;
      pnc := pnc + n;
      sent := sent + data[..n];
      assert got + (old(Contents()) + data[..n]) == got + old(Contents()) + data[..n];
    }

    /** One piece leaves the ring. */
    method Take(n: int) returns (out: seq<int>)
      requires Valid() && 0 < n <= pnc && n <= PIPE_MAX - prx
      modifies this`pnc, this`prx, this`pwx, this`got
      ensures Valid() && out + Contents() == old(Contents()) && |out| == n && got == old(got) + out
                && pnc == old(pnc) - n
    {
      hide Held, Backed, Wrap;
      TakenFromFront(ring[..], prx, pnc, n);
      BackedSuffix(have[..], prx, pnc, n);
      Divided(got, Contents(), n);
      out := ring[..][prx..prx + n];
      prx := if prx + n == PIPE_MAX then 0 else prx + n;
      pnc := pnc - n;
      got := got + out;
      if pnc == 0 {
        NothingIsBacked(have[..], 0);
        NothingHeld(ring[..], prx);
        prx := 0;
        pwx := 0;
      }
    }

    /** pread, up to the point where it sleeps or returns; a reader that was asleep calls
        it again. */
    method PRead(count: int, ndelay: bool, nonblock: bool, writers: bool) returns (out: seq<int>, how: Outcome)
      requires Valid() && 0 <= count
      modifies this`pnc, this`prx, this`pwx, this`got
      ensures Valid() && out + Contents() == old(Contents()) && got == old(got) + out
      ensures |out| == if count <= |old(Contents())| then count else |old(Contents())|
      ensures how == if old(pnc) > 0 then Done else if ndelay then NoDelay else if !writers then Hangup
                else if nonblock then Again else Asleep
    {
      hide Valid, Contents;
      Bounds();
      out := [];
      if pnc == 0 {
        how := if ndelay then NoDelay else if !writers then Hangup else if nonblock then Again else Asleep;
        return;
      }
      var ioc := count;
      while ioc > 0 && pnc > 0
        invariant Valid() && out + Contents() == old(Contents()) && got == old(got) + out && 0 <= ioc
        invariant |out| + ioc == count
      {
        Bounds();
        var n := PIPE_MAX - prx;
        if n > ioc {
          n := ioc;
        }
        if n > pnc {
          n := pnc;
        }
        var piece := Take(n);
        assert out + (piece + Contents()) == out + piece + Contents();
        out := out + piece;
        ioc := ioc - n;
      }
      Bounds();
      how := Done;
    }

    /** Whether a writer with `ioc` bytes left has to wait. */
    predicate MustWait(ioc: int)
      reads this
    {
      var n := Piece(ioc);
      n == 0 || (ioc <= PIPE_MAX && n != ioc)
    }

    /** How many bytes fit in one piece. */
    function Piece(ioc: int): int
      reads this
    {
      var n := if PIPE_MAX - pwx > ioc then ioc else PIPE_MAX - pwx;
      if n > PIPE_MAX - pnc then PIPE_MAX - pnc else n
    }

    /** The `n` bytes of `data` after the first `w`, which were sent behind `was`. */
    method PutPart(ghost was: seq<int>, data: seq<int>, w: int, n: int, free: nat) returns (stored: int, left: nat)
      requires Valid() && 0 <= w && 0 < n && w + n <= |data| && n <= PIPE_MAX - pwx && n <= PIPE_MAX - pnc
      requires sent == was + data[..w]
      modifies this`pnc, this`pwx, this`sent, ring, have
      ensures Valid() && 0 <= stored <= n && sent == was + data[..w + stored]
      ensures stored == Fits(old(have[..]), old(pwx), n, free)
      ensures pnc == old(pnc) + stored && pwx == if old(pwx) + stored == PIPE_MAX then 0 else old(pwx) + stored
      ensures free - left == Missing(old(have[..]), 0, ND) - Missing(have[..], 0, ND)
      ensures stored < n ==> left == 0 && !have[pwx / BSIZE]
    {
      hide Valid, Contents, Missing, Fits;
      Bounds();
      stored, left := Put(data[w..w + n], free);
      OneMorePiece(was, data, w, n, stored);
      Bounds();
    }

    lemma Appended(was: seq<int>, more: seq<int>)
      requires Valid() && sent == (got + was) + more
      ensures Contents() == was + more
    {
      SameFront(got, was, Contents(), more);
    }

    /** pwrite, up to the point where it sleeps or returns; a writer that was asleep calls
        it again with the rest. */
    method PWrite(data: seq<int>, ndelay: bool, nonblock: bool, readers: bool, free: nat)
        returns (w: int, how: Outcome, left: nat)
      requires Valid()
      modifies this`pnc, this`pwx, this`sent, ring, have
      ensures Valid() && 0 <= w <= |data|
      ensures Contents() == old(Contents()) + data[..w] && sent == old(sent) + data[..w]
      ensures free - left == Missing(old(have[..]), 0, ND) - Missing(have[..], 0, ND)
      ensures |data| <= PIPE_MAX && (old(MustWait(|data|)) || !readers) ==> w == 0 && how != NoSpace
      ensures |data| <= PIPE_MAX && !old(MustWait(|data|)) && readers ==>
                GoesIn(old(have[..]), old(pwx), |data|, free, w, pwx, how)
      ensures how == NoSpace ==> w < |data| && readers && left == 0 && pnc < PIPE_MAX && !have[pwx / BSIZE]
      ensures (how == Done <==> w == |data|) && (how == Hangup <==> w < |data| && !readers)
      ensures w < |data| && readers && how != NoSpace ==>
                && MustWait(|data| - w)
                && (how == NoDelay <==> ndelay) && (how == Again <==> !ndelay && nonblock)
                && (how == Asleep <==> !ndelay && !nonblock)
      ensures !readers ==> w == 0
    {
      hide Valid, Contents, Missing, Fits, BlocksEnd, GoesIn, Wrap;
      Bounds();
      w, left, how := 0, free, Done;
      ghost var had, at, was, small := have[..], pwx, sent, |data| <= PIPE_MAX && !MustWait(|data|);
      while w < |data|
        invariant Valid() && 0 <= w <= |data| && how == Done
        invariant sent == was + data[..w]
        invariant free - left == Missing(had, 0, ND) - Missing(have[..], 0, ND)
        invariant w == 0 ==> pwx == at && pnc == old(pnc) && have[..] == had && left == free
        invariant !readers ==> w == 0
        invariant |data| <= PIPE_MAX && w > 0 ==> small && w == |data| && GoesIn(had, at, |data|, free, w, pwx, Done)
      {
        if !readers {
          how := Hangup;
          break;
        }
        Bounds();
        var ioc := |data| - w;
        var n := Piece(ioc);
        if n == 0 || (ioc <= PIPE_MAX && n != ioc) {
          how := if ndelay then NoDelay else if nonblock then Again else Asleep;
          break;
        }
        var stored: int;
        stored, left := PutPart(was, data, w, n, left);
        w := w + stored;
        if stored < n {
          how := NoSpace;
        }
        if small { PieceGoesIn(had, at, |data|, free, pwx); }
        if stored < n {
          break;
        }
      }
      Appended(old(Contents()), data[..w]);
    }

    /** The write position is where the ring says it is. */
    lemma WritePosition()
      requires Valid()
      ensures 0 <= pnc <= PIPE_MAX && pwx == (prx + pnc) % PIPE_MAX
    {
    }

    /** A writer waits only while there is something to read: a reader and a writer never
        wait for each other.  An emptied pipe takes any small write at once. */
    lemma WaitersDoNotBlockEachOther(ioc: int)
      requires Valid() && ioc > 0
      ensures MustWait(ioc) ==> pnc > 0
    {
    }

    /** A small write waits exactly when the rest of the ring behind the write position, or
        the room in all, is too short for it: also while enough room is left in all. */
    lemma SmallWriteWaitsIff(ioc: int)
      requires Valid() && 0 < ioc <= PIPE_MAX
      ensures MustWait(ioc) <==> ioc > PIPE_MAX - pwx || ioc > PIPE_MAX - pnc
    {
    }

    /** A large write waits exactly when the pipe is full. */
    lemma LargeWriteWaitsIff(ioc: int)
      requires Valid() && ioc > PIPE_MAX
      ensures MustWait(ioc) <==> pnc == PIPE_MAX
    {
    }
  }

  lemma TornInTwo(w: int, at': int, how: Outcome)
    requires GoesIn(NoBlocks, 0, 1024, 1, w, at', how)
    ensures w == 512 && how == NoSpace
  {
    hide Missing, Fits;
    FullDiskTearsRecord();
  }

  /** The reader of such a pipe gets half a record. */
  method TornRecord(record: seq<int>) returns (w: int, how: Outcome, out: seq<int>)
    requires |record| == 1024
    ensures w == 512 && how == NoSpace && out == record[..512]
  {
    hide Missing, Fits, GoesIn, PipeNode.Valid, PipeNode.Contents;
    var pipe := new PipeNode();
    var left: nat;
    pipe.Bounds();
    w, how, left := pipe.PWrite(record, false, false, true, 1);
    TornInTwo(w, pipe.pwx, how);
    pipe.Bounds();
    assert pipe.Contents() == record[..512];
    var read: Outcome;
    out, read := pipe.PRead(1024, false, false, true);
    assert pipe.Contents() == [] && out == out + [];
  }
}
