/** The buffer cache. */
module CacheSpec {
  // A state machine of one claiming process and the driver: what a read of a block yields
  // does not depend on what the cache does.

  type Block = seq<int>
  type Disk = imap<(int, int), Block>

  const NODEV: int := -1

  /** Who holds the lock of a buffer: nobody, the process, or the driver on behalf of an
      asynchronous transfer. */
  datatype Lock = Free | Mine | Io

  /** `ntp` is BFNTP, the buffer is not or no longer what it claims to be until a transfer is
      over; `mod` is BFMOD; `writing` is b_req; while `busy` the driver has the buffer. */
  datatype Buf = Buf(dev: int, bno: int, ntp: bool, mod: bool, lock: Lock, writing: bool, busy: bool, data: Block)

  datatype State = State(bufs: seq<Buf>, disk: Disk)

  ghost predicate Whole(disk: Disk) {
    forall d, b :: (d, b) in disk
  }

  predicate Has(x: Buf, d: int, b: int) {
    x.dev == d && x.bno == b
  }

  /** The buffer's data count: it is clean and present, or changed. */
  predicate Counts(x: Buf) {
    !x.ntp || x.mod
  }

  // ----- what a block contains -----

  ghost predicate Cached(s: State, d: int, b: int) {
    exists i :: 0 <= i < |s.bufs| && Has(s.bufs[i], d, b) && Counts(s.bufs[i])
  }

  /** The contents of block `b` of device `d`, as far as anybody can tell. */
  ghost function Logical(s: State, d: int, b: int): Block
    requires Whole(s.disk)
  {
    if Cached(s, d, b) then
      var i :| 0 <= i < |s.bufs| && Has(s.bufs[i], d, b) && Counts(s.bufs[i]);
      s.bufs[i].data
    else s.disk[(d, b)]
  }

  // ----- the invariant -----

  ghost predicate BufOk(s: State, i: int)
    requires Whole(s.disk) && 0 <= i < |s.bufs|
  {
    var x := s.bufs[i];
    && (!x.ntp && !x.mod && x.dev != NODEV ==> x.data == s.disk[(x.dev, x.bno)])
    && (x.mod ==> x.dev != NODEV)
    && (x.busy ==> x.lock != Free && x.ntp && x.dev != NODEV && (x.writing <==> x.mod))
    && (x.lock == Io ==> x.busy)
    && (x.lock == Free && x.ntp ==> !x.mod)
  }

  /** A block of a device is claimed by at most one buffer. */
  ghost predicate Unique(s: State) {
    forall i, j :: 0 <= i < j < |s.bufs| && s.bufs[i].dev != NODEV ==> !Has(s.bufs[j], s.bufs[i].dev, s.bufs[i].bno)
  }

  ghost predicate Inv(s: State) {
    Whole(s.disk) && Unique(s) && forall i :: 0 <= i < |s.bufs| ==> BufOk(s, i)
  }

  lemma OnlyOne(s: State, i: int, j: int)
    requires Unique(s) && 0 <= i < |s.bufs| && 0 <= j < |s.bufs| && s.bufs[i].dev != NODEV
    requires Has(s.bufs[j], s.bufs[i].dev, s.bufs[i].bno)
    ensures i == j
  {
  }

  /** A buffer whose data count holds the contents of its block. */
  lemma CachedIsLogical(s: State, i: int)
    requires Inv(s) && 0 <= i < |s.bufs| && s.bufs[i].dev != NODEV
    ensures Logical(s, s.bufs[i].dev, s.bufs[i].bno) ==
              if Counts(s.bufs[i]) then s.bufs[i].data else s.disk[(s.bufs[i].dev, s.bufs[i].bno)]
  {
    var x := s.bufs[i];
    if Cached(s, x.dev, x.bno) {
      var j :| 0 <= j < |s.bufs| && Has(s.bufs[j], x.dev, x.bno) && Counts(s.bufs[j])
          && Logical(s, x.dev, x.bno) == s.bufs[j].data;
      OnlyOne(s, i, j);
    }
  }

  lemma UncachedIsDisk(s: State, d: int, b: int)
    requires Whole(s.disk) && forall i :: 0 <= i < |s.bufs| ==> !Has(s.bufs[i], d, b)
    ensures Logical(s, d, b) == s.disk[(d, b)]
  {
  }

  /** A step that turns buffer `i` into `x`: all blocks but those of the old and the new
      buffer have the contents they had. */
  lemma OthersAlike(s: State, s': State, i: int, d: int, b: int)
    requires Inv(s) && Inv(s') && 0 <= i < |s.bufs| == |s'.bufs| && d != NODEV && s'.disk[(d, b)] == s.disk[(d, b)]
    requires forall j :: 0 <= j < |s.bufs| && j != i ==> s'.bufs[j] == s.bufs[j]
    requires !Has(s.bufs[i], d, b) && !Has(s'.bufs[i], d, b)
    ensures Logical(s', d, b) == Logical(s, d, b)
  {
    if j :| 0 <= j < |s.bufs| && Has(s.bufs[j], d, b) {
      CachedIsLogical(s, j);
      CachedIsLogical(s', j);
    } else {
      UncachedIsDisk(s, d, b);
      UncachedIsDisk(s', d, b);
    }
  }

  // ----- steps -----

  function With(s: State, i: int, x: Buf): State
    requires 0 <= i < |s.bufs|
  {
    s.(bufs := s.bufs[i := x])
  }

  /** Taking over a free, clean buffer for another block. */
  function Claimed(x: Buf, d: int, b: int, sync: bool): Buf {
    Buf(d, b, true, false, if sync then Mine else Free, true, false, x.data)
  }

  /** dblock for a read or a write. */
  function Started(x: Buf, write: bool, sync: bool): Buf {
    x.(ntp := true, writing := write, busy := true, lock := if sync then Mine else Io)
  }

  /** The driver has done the transfer and calls biodone. */
  function Done(x: Buf, onDisk: Block): Buf {
    x.(ntp := false, busy := false, mod := if x.writing then false else x.mod,
       data := if x.writing then x.data else onDisk, lock := if x.lock == Io then Free else x.lock)
  }

  datatype Action =
      DoLock(i: int)
    | DoClaim(i: int, d: int, b: int, sync: bool)
    | DoRead(i: int, sync: bool)
    | DoWrite(i: int, sync: bool)
    | DoChange(i: int, data: Block)
    | DoRelease(i: int)
    | DoDrop(i: int)
    | DoComplete(i: int)

  /** When the steps are taken.  A read is started on a buffer claimed for a block and not
      filled; data are written by the process only into a buffer it has locked, and a
      buffer that was not filled is not released before it is written. */
  ghost predicate Allowed(s: State, a: Action) {
    && 0 <= a.i < |s.bufs|
    && var x := s.bufs[a.i];
       match a
       case DoLock(i) => x.lock == Free
       case DoClaim(i, d, b, sync) =>
         x.lock == Free && !x.mod && d != NODEV && forall j :: 0 <= j < |s.bufs| ==> !Has(s.bufs[j], d, b)
       case DoRead(i, sync) =>
         x.ntp && !x.mod && !x.busy && x.dev != NODEV && (if sync then x.lock == Mine else x.lock == Free)
       case DoWrite(i, sync) => x.mod && !x.busy && (x.lock == Mine || (x.lock == Free && !sync))
       case DoChange(i, data) => x.lock == Mine && !x.busy && x.dev != NODEV
       case DoRelease(i) => x.lock == Mine && !x.busy && Counts(x)
       case DoDrop(i) => x.lock == Free && !x.mod && !x.ntp
       case DoComplete(i) => x.busy
  }

  ghost function Step(s: State, a: Action): (s': State)
    requires Whole(s.disk) && Allowed(s, a)
    ensures |s'.bufs| == |s.bufs| && Whole(s'.disk)
  {
    var x := s.bufs[a.i];
    match a
    case DoLock(i) => With(s, i, x.(lock := Mine))
    case DoClaim(i, d, b, sync) => With(s, i, Claimed(x, d, b, sync))
    case DoRead(i, sync) => With(s, i, Started(x, false, sync))
    case DoWrite(i, sync) => With(s, i, Started(x, true, sync))
    case DoChange(i, data) => With(s, i, x.(data := data, mod := true))
    case DoRelease(i) => With(s, i, x.(ntp := false, lock := Free))
    case DoDrop(i) => With(s, i, x.(dev := NODEV, ntp := true))
    case DoComplete(i) =>
      State(s.bufs[i := Done(x, s.disk[(x.dev, x.bno)])],
            if x.writing then s.disk[(x.dev, x.bno) := x.data] else s.disk)
  }

  lemma StepKeeps(s: State, a: Action)
    requires Inv(s) && Allowed(s, a)
    ensures Inv(Step(s, a))
  {
    var s', x := Step(s, a), s.bufs[a.i];
    assert BufOk(s, a.i);
    forall j | 0 <= j < |s'.bufs| ensures BufOk(s', j) {
      assert BufOk(s, j);
      if j != a.i && a.DoComplete? && s.bufs[j].dev != NODEV && Has(s.bufs[j], x.dev, x.bno) {
        OnlyOne(s, a.i, j);
      }
    }
  }

  /** Claiming, evicting, syncing, reading ahead, dropping and completing transfers leave the
      contents of every block alone; the process changes just the block of the buffer that
      it writes into. */
  lemma StepKeepsContents(s: State, a: Action, d: int, b: int)
    requires Inv(s) && Allowed(s, a) && d != NODEV
    ensures Inv(Step(s, a))
    ensures Logical(Step(s, a), d, b) == if a.DoChange? && Has(s.bufs[a.i], d, b) then a.data else Logical(s, d, b)
  {
    StepKeeps(s, a);
    var s', x := Step(s, a), s.bufs[a.i];
    var y := s'.bufs[a.i];
    assert BufOk(s, a.i);
    if !Has(x, d, b) && !Has(y, d, b) {
      OthersAlike(s, s', a.i, d, b);
    } else if Has(x, d, b) && Has(y, d, b) {
      CachedIsLogical(s, a.i);
      CachedIsLogical(s', a.i);
    } else if Has(x, d, b) {
      CachedIsLogical(s, a.i);
      forall j | 0 <= j < |s'.bufs| ensures !Has(s'.bufs[j], d, b) {
        if j != a.i && Has(s.bufs[j], d, b) { OnlyOne(s, a.i, j); }
      }
      UncachedIsDisk(s', d, b);
    } else {
      UncachedIsDisk(s, d, b);
      CachedIsLogical(s', a.i);
    }
  }

  // ----- what single steps do, field by field -----

  /** Everything but buffer `i` is the same, which still is for the same block. */
  ghost predicate OnlyBuf(s: State, s': State, i: int)
    requires 0 <= i < |s.bufs| == |s'.bufs|
  {
    && s'.bufs[i].dev == s.bufs[i].dev && s'.bufs[i].bno == s.bufs[i].bno
    && forall j :: 0 <= j < |s.bufs| && j != i ==> s'.bufs[j] == s.bufs[j]
  }

  /** Buffer `i` is with the driver, changed or not as it was, its data kept. */
  ghost predicate InTransfer(s: State, s': State, i: int, write: bool, sync: bool)
    requires 0 <= i < |s.bufs| == |s'.bufs|
  {
    var x, y := s.bufs[i], s'.bufs[i];
    && y.busy && y.ntp && y.writing == write && y.lock == (if sync then Mine else Io)
    && y.mod == x.mod && y.data == x.data
  }

  /** What the process does: only locking, storing and releasing change what it sees of the
      buffer; transfers that it starts leave the data alone. */
  lemma ProcessStepDoes(s: State, a: Action)
    requires Inv(s) && Allowed(s, a) && !a.DoComplete? && !a.DoClaim? && !a.DoDrop?
    ensures var s', x, y := Step(s, a), s.bufs[a.i], Step(s, a).bufs[a.i];
            && OnlyBuf(s, s', a.i) && s'.disk == s.disk
            && match a
               case DoLock(_) => y.lock == Mine && y == x.(lock := y.lock)
               case DoRead(i, sync) => InTransfer(s, s', i, false, sync)
               case DoWrite(i, sync) => InTransfer(s, s', i, true, sync)
               case DoChange(_, data) => y.data == data && y.mod && y.lock == Mine && y.ntp == x.ntp && !y.busy
               case _ => y.lock == Free && !y.ntp && !y.busy && y.mod == x.mod && y.data == x.data
  {
    assert BufOk(s, a.i);
  }

  /** A claimed buffer is for the new block, and not present; a dropped one is for none. */
  lemma ClaimDoes(s: State, a: Action)
    requires Inv(s) && Allowed(s, a) && (a.DoClaim? || a.DoDrop?)
    ensures var s', y := Step(s, a), Step(s, a).bufs[a.i];
            && s'.disk == s.disk && (forall j :: 0 <= j < |s.bufs| && j != a.i ==> s'.bufs[j] == s.bufs[j])
            && y.ntp && !y.mod && !y.busy
            && (a.DoClaim? ==> Has(y, a.d, a.b) && y.lock == if a.sync then Mine else Free)
            && (a.DoDrop? ==> y.dev == NODEV && y.lock == Free)
  {
    assert BufOk(s, a.i);
  }

  /** A completed write leaves the buffer clean and the contents of its block on the disk; a
      completed read leaves them in the buffer.  Either way the buffer is present, and unlocked
      if nobody waits for it. */
  lemma CompleteDoes(s: State, i: int)
    requires Inv(s) && Allowed(s, DoComplete(i))
    ensures var s', x, y := Step(s, DoComplete(i)), s.bufs[i], Step(s, DoComplete(i)).bufs[i];
            && OnlyBuf(s, s', i) && !y.ntp && !y.mod && !y.busy
            && y.lock == (if x.lock == Io then Free else Mine)
            && y.data == Logical(s, x.dev, x.bno) == s'.disk[(x.dev, x.bno)]
            && (x.writing ==> y.data == x.data)
            && forall d, b :: (d, b) != (x.dev, x.bno) || !x.writing ==> s'.disk[(d, b)] == s.disk[(d, b)]
  {
    assert BufOk(s, i);
    CachedIsLogical(s, i);
  }

  // ----- runs -----

  ghost predicate Runs(s: State, run: seq<Action>)
    requires Whole(s.disk)
    decreases |run|
  {
    run == [] || (Allowed(s, run[0]) && Runs(Step(s, run[0]), run[1..]))
  }

  ghost function Last(s: State, run: seq<Action>): (s': State)
    requires Whole(s.disk) && Runs(s, run)
    ensures Whole(s'.disk)
    decreases |run|
  {
    if run == [] then s else Last(Step(s, run[0]), run[1..])
  }

  /** What a plain disk would hold: the last data that the process wrote. */
  ghost function Plain(s: State, run: seq<Action>, d: int, b: int, was: Block): Block
    requires Whole(s.disk) && Runs(s, run)
    decreases |run|
  {
    if run == [] then was
    else
      Plain(Step(s, run[0]), run[1..], d, b,
            if run[0].DoChange? && Has(s.bufs[run[0].i], d, b) then run[0].data else was)
  }

  /** Over any run the cache behaves like the disk it speeds up. */
  lemma {:induction false} CacheIsTransparent(s: State, run: seq<Action>, d: int, b: int)
    requires Inv(s) && Runs(s, run) && d != NODEV
    ensures Inv(Last(s, run)) && Logical(Last(s, run), d, b) == Plain(s, run, d, b, Logical(s, d, b))
    decreases |run|
  {
    if run != [] {
      StepKeepsContents(s, run[0], d, b);
      CacheIsTransparent(Step(s, run[0]), run[1..], d, b);
    }
  }

  /** What a process sees in a buffer it has read is the contents of the block. */
  lemma ReadIsLogical(s: State, i: int)
    requires Inv(s) && 0 <= i < |s.bufs| && s.bufs[i].dev != NODEV && !s.bufs[i].ntp
    ensures s.bufs[i].data == Logical(s, s.bufs[i].dev, s.bufs[i].bno)
  {
    CachedIsLogical(s, i);
  }

  /** When everything has been written and the driver is done, the disk has it all. */
  lemma SyncedDiskIsLogical(s: State, d: int, b: int)
    requires Inv(s) && d != NODEV && forall i :: 0 <= i < |s.bufs| ==> !s.bufs[i].mod
    ensures s.disk[(d, b)] == Logical(s, d, b)
  {
    if i :| 0 <= i < |s.bufs| && Has(s.bufs[i], d, b) {
      assert BufOk(s, i);
      CachedIsLogical(s, i);
    } else {
      UncachedIsDisk(s, d, b);
    }
  }

  // ----- a sync -----

  /** What a sync starts: every changed buffer that nobody has locked is being written,
      unchanged as to its block and its data, and every other buffer is as it was. */
  ghost predicate SyncStarted(s: State, s': State) {
    && |s'.bufs| == |s.bufs| && s'.disk == s.disk
    && forall i {:trigger s'.bufs[i]} :: 0 <= i < |s.bufs| ==>
         if Dirty(s.bufs[i]) then BeingWritten(s.bufs[i], s'.bufs[i]) else s'.bufs[i] == s.bufs[i]
  }

  /** Changed, and nobody has it locked. */
  predicate Dirty(x: Buf) {
    x.mod && x.lock == Free
  }

  /** What was `x` is with the driver, for the same block with the same data. */
  predicate BeingWritten(x: Buf, y: Buf) {
    && y.busy && y.writing && y.ntp && y.lock == Io && y.mod
    && y.dev == x.dev && y.bno == x.bno && y.data == x.data
  }

  function Completions(order: seq<int>): seq<Action> {
    seq(|order|, k requires 0 <= k < |order| => DoComplete(order[k]))
  }

  /** The driver completes transfers in whatever order: none of these buffers is changed any
      more, and no block has other contents. */
  lemma {:induction false} AllComplete(s: State, order: seq<int>)
    requires Inv(s) && forall k :: 0 <= k < |order| ==> 0 <= order[k] < |s.bufs| && s.bufs[order[k]].busy
    requires forall k, l :: 0 <= k < l < |order| ==> order[k] != order[l]
    ensures Runs(s, Completions(order)) && Inv(Last(s, Completions(order)))
    ensures var t := Last(s, Completions(order));
            && |t.bufs| == |s.bufs|
            && (forall i :: 0 <= i < |s.bufs| && i !in order ==> t.bufs[i] == s.bufs[i])
            && forall i :: 0 <= i < |s.bufs| && i in order ==>
                 !t.bufs[i].mod && !t.bufs[i].busy && Has(t.bufs[i], s.bufs[i].dev, s.bufs[i].bno)
    ensures var t := Last(s, Completions(order));
            forall d, b :: d != NODEV ==> Logical(t, d, b) == Logical(s, d, b)
    decreases |order|
  {
    if order != [] {
      var i, rest := order[0], order[1..];
      var u := Step(s, DoComplete(i));
      assert Completions(order)[1..] == Completions(rest);
      assert Completions(order)[0] == DoComplete(i);
      StepKeeps(s, DoComplete(i));
      CompleteDoes(s, i);
      forall d, b | d != NODEV ensures Logical(u, d, b) == Logical(s, d, b) {
        StepKeepsContents(s, DoComplete(i), d, b);
      }
      assert forall k :: 0 <= k < |rest| ==> rest[k] == order[k + 1];
      hide Inv, Step, Logical;
      AllComplete(u, rest);
      assert forall j :: j in order <==> j == i || j in rest;
    }
  }

  /** Once all transfers that are under way after a sync are complete, the disk holds the
      contents of every block but those in changed buffers that the process had locked. */
  lemma SyncReachesDisk(s: State, s': State, order: seq<int>, d: int, b: int)
    requires Inv(s) && Inv(s') && SyncStarted(s, s') && d != NODEV
    requires forall k, l :: 0 <= k < l < |order| ==> order[k] != order[l]
    requires forall i :: i in order <==> 0 <= i < |s'.bufs| && s'.bufs[i].busy
    requires forall i :: 0 <= i < |s.bufs| && Has(s.bufs[i], d, b) && s.bufs[i].mod && !s.bufs[i].busy ==>
               s.bufs[i].lock == Free
    ensures Runs(s', Completions(order))
    ensures var t := Last(s', Completions(order));
            && t.disk[(d, b)] == Logical(s, d, b) && |t.bufs| == |s.bufs|
            && forall i :: 0 <= i < |s.bufs| && s.bufs[i].mod && s.bufs[i].lock == Free ==> !t.bufs[i].mod
  {
    assert forall k :: 0 <= k < |order| ==> order[k] in order;
    AllComplete(s', order);
    var t := Last(s', Completions(order));
    SyncKeepsContents(s, s', d, b);
    if i :| 0 <= i < |t.bufs| && Has(t.bufs[i], d, b) {
      assert BufOk(t, i) && BufOk(s, i);
      CachedIsLogical(t, i);
    } else {
      UncachedIsDisk(t, d, b);
    }
  }

  lemma SyncKeepsContents(s: State, s': State, d: int, b: int)
    requires Inv(s) && Inv(s') && SyncStarted(s, s') && d != NODEV
    ensures Logical(s', d, b) == Logical(s, d, b)
  {
    if i :| 0 <= i < |s.bufs| && Has(s.bufs[i], d, b) {
      assert Has(s'.bufs[i], d, b) && BufOk(s, i);
      CachedIsLogical(s, i);
      CachedIsLogical(s', i);
    } else {
      assert forall i :: 0 <= i < |s.bufs| ==> Has(s'.bufs[i], d, b) ==> Has(s.bufs[i], d, b);
      UncachedIsDisk(s, d, b);
      UncachedIsDisk(s', d, b);
    }
  }
}
