/** The buffer cache in place.  Every operation is a run of steps of the state machine, so
    that none of them, but for the data a process stores, changes what a block contains.

    A request that finds its buffer locked, or no buffer to reuse, ends asleep and is made
    again later; a synchronous transfer is waited for by the caller, while the driver
    completes it in a step of its own. */
module Cache {
  import opened Chains
  import opened CacheLists
  import opened CacheSpec

  function Hash(dev: int, bno: int, nhash: int): (h: int)
    requires nhash > 0
    ensures 0 <= h < nhash
  {
    (dev * 257 + bno) % nhash
  }

  /** A run that stores no data. */
  ghost predicate Quiet(run: seq<Action>) {
    forall i :: 0 <= i < |run| ==> !run[i].DoChange?
  }

  /** `s'` comes from `s` by steps that store no data. */
  ghost predicate Leads(s: State, s': State) {
    Whole(s.disk) && exists run :: Quiet(run) && Runs(s, run) && Last(s, run) == s'
  }

  lemma {:induction false} RunsOn(s: State, run: seq<Action>, a: Action)
    requires Whole(s.disk) && Runs(s, run) && Allowed(Last(s, run), a)
    ensures Runs(s, run + [a]) && Last(s, run + [a]) == Step(Last(s, run), a)
    decreases |run|
  {
    if run == [] {
      assert [a][1..] == [] && ([] + [a])[1..] == [];
    } else {
      assert (run + [a])[1..] == run[1..] + [a];
      RunsOn(Step(s, run[0]), run[1..], a);
    }
  }

  lemma LeadsNowhere(s: State)
    requires Whole(s.disk)
    ensures Leads(s, s)
  {
    assert Quiet([]) && Runs(s, []) && Last(s, []) == s;
  }

  lemma LeadsOn(s: State, s': State, a: Action)
    requires Leads(s, s') && Whole(s'.disk) && Allowed(s', a) && !a.DoChange?
    ensures Leads(s, Step(s', a))
  {
    var run :| Quiet(run) && Runs(s, run) && Last(s, run) == s';
    RunsOn(s, run, a);
    assert Quiet(run + [a]);
  }

  lemma {:induction false} RunsFurther(s: State, run: seq<Action>, more: seq<Action>)
    requires Whole(s.disk) && Runs(s, run) && Runs(Last(s, run), more)
    ensures Runs(s, run + more) && Last(s, run + more) == Last(Last(s, run), more)
    decreases |run|
  {
    if run == [] {
      assert run + more == more;
    } else {
      assert (run + more)[1..] == run[1..] + more;
      RunsFurther(Step(s, run[0]), run[1..], more);
    }
  }

  lemma LeadsFurther(s: State, s': State, s'': State)
    requires Leads(s, s') && Leads(s', s'')
    ensures Leads(s, s'')
  {
    var run :| Quiet(run) && Runs(s, run) && Last(s, run) == s';
    var more :| Quiet(more) && Runs(s', more) && Last(s', more) == s'';
    RunsFurther(s, run, more);
    assert Quiet(run + more);
  }

  /** What leads on quietly leaves all contents alone. */
  lemma LeadsQuietly(s: State, s': State, d: int, b: int)
    requires Inv(s) && Leads(s, s') && d != NODEV
    ensures Inv(s') && Logical(s', d, b) == Logical(s, d, b)
  {
    var run :| Quiet(run) && Runs(s, run) && Last(s, run) == s';
    CacheIsTransparent(s, run, d, b);
    QuietIsPlain(s, run, d, b, Logical(s, d, b));
  }

  lemma {:induction false} QuietIsPlain(s: State, run: seq<Action>, d: int, b: int, was: Block)
    requires Whole(s.disk) && Runs(s, run) && Quiet(run)
    ensures Plain(s, run, d, b, was) == was
    decreases |run|
  {
    if run != [] {
      assert !run[0].DoChange?;
      assert forall i :: 0 <= i < |run[1..]| ==> run[1..][i] == run[i + 1];
      QuietIsPlain(Step(s, run[0]), run[1..], d, b, was);
    }
  }

  /** How a request for a buffer ends: with the buffer, with a transfer that must be waited
      for, with one that goes on by itself, or asleep until a buffer is released. */
  datatype Outcome = Ready | Pending | Underway | Asleep

  class BufferCache {
    const n: int                 // NBUF
    const lru: LruChain
    const hash: HashChains
    var bufs: seq<Buf>
    var disk: Disk

    ghost function View(): State
      reads this
    {
      State(bufs, disk)
    }

    ghost predicate Valid()
      reads this, lru, lru.forw, lru.back, hash, hash.heads, hash.link, hash.hashval
    {
      && 0 < n == |bufs| && Inv(View())
      && {lru.forw, lru.back} !! {hash.heads, hash.link, hash.hashval}
      && lru.Valid() && lru.forw.Length == n == |lru.order| && (forall i :: 0 <= i < n ==> i in lru.order)
      && hash.Valid() && hash.link.Length == n && (forall i :: 0 <= i < n ==> OnItsChain(i))
    }

    /** A buffer is on the chain that the hash of its identity names. */
    ghost predicate OnItsChain(i: int)
      requires 0 <= i < |bufs|
      reads this, hash, hash.hashval
    {
      hash.Chained(i) && (bufs[i].dev != NODEV ==>
          0 < hash.heads.Length && hash.hashval[i] == Hash(bufs[i].dev, bufs[i].bno, hash.heads.Length))
    }

    constructor (nbuf: int, nhash: int, d: Disk)
      requires nbuf > 0 && nhash > 0 && Whole(d)
      ensures Valid() && disk == d && n == nbuf && forall i :: 0 <= i < n ==>
                bufs[i].dev == NODEV && bufs[i].lock == Free
      ensures fresh(lru) && fresh(hash)
    {
      n, disk := nbuf, d;
      lru := new LruChain(nbuf);
      hash := new HashChains(nbuf, nhash);
      bufs := seq(nbuf, _ => Buf(NODEV, 0, false, false, Free, true, false, []));
      new;
      hide ListAt;
      forall i | 0 <= i < n ensures i in lru.order { assert lru.order[i] == i; }
      assert Inv(View());
      forall i | 0 <= i < n ensures OnItsChain(i) { assert hash.Chained(i) && bufs[i].dev == NODEV; }
    }

    // ----- one buffer -----

    /** Replaces buffer `i`, keeping its identity or giving it up. */
    method Set(i: int, x: Buf)
      requires 0 <= i < |bufs| && Valid() && (x.dev == NODEV || (x.dev == bufs[i].dev && x.bno == bufs[i].bno))
      requires Inv(State(bufs[i := x], disk))
      modifies this`bufs
      ensures Valid() && View() == With(old(View()), i, x)
    {
      ghost var was := bufs;
      bufs := bufs[i := x];
      forall j | 0 <= j < n ensures OnItsChain(j) { assert old(OnItsChain(j)) && (j != i ==> bufs[j] == was[j]); }
    }

    /** dblock on behalf of bwrite or of a sync: the driver begins to write. */
    method WriteStart(i: int, sync: bool)
      requires Valid() && Allowed(View(), DoWrite(i, sync))
      modifies this`bufs
      ensures Valid() && View() == Step(old(View()), DoWrite(i, sync))
    {
      hide Inv, BufOk;
      StepKeeps(View(), DoWrite(i, sync));
      Set(i, bufs[i].(ntp := true, writing := true, busy := true, lock := if sync then Mine else Io));
    }

    method ReadStart(i: int, sync: bool)
      requires Valid() && Allowed(View(), DoRead(i, sync))
      modifies this`bufs
      ensures Valid() && View() == Step(old(View()), DoRead(i, sync))
    {
      StepKeeps(View(), DoRead(i, sync));
      Set(i, bufs[i].(ntp := true, writing := false, busy := true, lock := if sync then Mine else Io));
    }

    method LockBuffer(i: int)
      requires Valid() && Allowed(View(), DoLock(i))
      modifies this`bufs
      ensures Valid() && View() == Step(old(View()), DoLock(i))
    {
      StepKeeps(View(), DoLock(i));
      Set(i, bufs[i].(lock := Mine));
    }

    /** The process stores into a buffer it has locked, and marks it changed. */
    method Store(i: int, data: Block)
      requires Valid() && Allowed(View(), DoChange(i, data))
      modifies this`bufs
      ensures Valid() && View() == Step(old(View()), DoChange(i, data))
    {
      StepKeeps(View(), DoChange(i, data));
      Set(i, bufs[i].(data := data, mod := true));
    }

    method BRelease(i: int)
      requires Valid() && Allowed(View(), DoRelease(i))
      modifies this`bufs
      ensures Valid() && View() == Step(old(View()), DoRelease(i))
    {
      StepKeeps(View(), DoRelease(i));
      Set(i, bufs[i].(ntp := false, lock := Free));
    }

    /** What a flush does with a clean buffer: its identity is given up. */
    method FlushFinish(i: int)
      requires Valid() && Allowed(View(), DoDrop(i))
      modifies this`bufs
      ensures Valid() && View() == Step(old(View()), DoDrop(i))
    {
      StepKeeps(View(), DoDrop(i));
      Set(i, bufs[i].(dev := NODEV, ntp := true));
    }

    /** The driver has transferred the data, and calls biodone: a written buffer is clean,
        and an asynchronous transfer unlocks its buffer. */
    method Transferred(i: int)
      requires Valid() && Allowed(View(), DoComplete(i))
      modifies this`bufs, this`disk
      ensures Valid() && View() == Step(old(View()), DoComplete(i))
    {
      StepKeeps(View(), DoComplete(i));
      var x := bufs[i];
      if x.writing {
        disk := disk[(x.dev, x.bno) := x.data];
      } else {
        x := x.(data := disk[(x.dev, x.bno)]);
      }
      if x.writing {
        x := x.(mod := false);
      }
      x := x.(ntp := false, busy := false);
      if x.lock == Io {
        x := x.(lock := Free);
      }
      ghost var was := bufs;
      bufs := bufs[i := x];
      forall j | 0 <= j < n ensures OnItsChain(j) { assert old(OnItsChain(j)) && (j != i ==> bufs[j] == was[j]); }
    }

    // ----- finding and claiming -----

    /** buffer_find, without the lock: searches the chain that the hash names. */
    method BufferFind(dev: int, bno: int) returns (bp: int)
      requires Valid() && dev != NODEV
      ensures bp != NULL ==> 0 <= bp < n && Has(bufs[bp], dev, bno)
      ensures bp == NULL ==> forall i :: 0 <= i < n ==> !Has(bufs[i], dev, bno)
    {
      hide ListAt, Inv;
      var h := Hash(dev, bno, hash.heads.Length);
      ghost var c, k := hash.chains[h], 0;
      hash.NextOnChain(h, 0);
      bp := hash.heads[h];
      while bp != NULL && !Has(bufs[bp], dev, bno)
        invariant 0 <= k <= |c| && bp == if k < |c| then c[k] else NULL
        invariant bp != NULL ==> 0 <= bp < n
        invariant forall j :: 0 <= j < k ==> Missed(c[j], dev, bno)
        decreases |c| - k
      {
        hash.NextOnChain(h, k);
        if k + 1 < |c| { hash.NextOnChain(h, k + 1); }
        bp := hash.link[bp];
        k := k + 1;
      }
      if k < |c| { hash.NextOnChain(h, k); }
      if bp == NULL {
        forall i | 0 <= i < n ensures !Has(bufs[i], dev, bno) {
          assert OnItsChain(i);
          if bufs[i].dev == dev && bufs[i].bno == bno {
            var j := PlaceOf(c, i);
            assert Missed(c[j], dev, bno);
          }
        }
      }
    }

    ghost predicate Missed(i: int, dev: int, bno: int)
      reads this
    {
      0 <= i < |bufs| ==> !Has(bufs[i], dev, bno)
    }

    /** general_sync without waiting: the driver begins to write every changed buffer that
        nobody has locked. */
    method SyncDirty()
      requires Valid()
      modifies this`bufs
      ensures Valid() && Leads(old(View()), View())
      ensures SyncStarted(old(View()), View())
    {
      hide Inv, Leads;
      ghost var s := View();
      StartOf(s);
      var i := 0;
      while i < n
        invariant 0 <= i <= n && Valid() && Leads(s, View()) && disk == old(disk)
        invariant |bufs| == |s.bufs| && forall j :: i <= j < n ==> bufs[j] == s.bufs[j]
        invariant forall j {:trigger bufs[j]} :: 0 <= j < i ==>
                    if Dirty(s.bufs[j]) then BeingWritten(s.bufs[j], bufs[j]) else bufs[j] == s.bufs[j]
      {
        if bufs[i].lock == Free && bufs[i].mod {
          ghost var s1 := View();
          Idle(s1, i);
          ProcessStepDoes(s1, DoWrite(i, false));
          WriteStart(i, false);
          LeadsOn(s, s1, DoWrite(i, false));
        }
        i := i + 1;
      }
    }

    /** LRUupdate; the links of the chain are nobody else's business. */
    method MoveUp(bp: int, ghost k: int)
      requires Valid() && 0 <= k < |lru.order| && lru.order[k] == bp
      modifies lru, lru.forw, lru.back
      ensures Valid() && lru.order == ToFront(old(lru.order), k)
    {
      hide Inv, ListAt, ToFront;
      ToFrontDistinct(lru.order, k);
      lru.Update(bp, k);
    }

    /** Gives buffer `bp` the identity of another block: off its chain, to the front of the
        chain of recent use, and onto the new chain. */
    method TakeOver(bp: int, dev: int, bno: int, sync: bool, ghost k: int)
      requires Valid() && Allowed(View(), DoClaim(bp, dev, bno, sync)) && 0 <= k < |lru.order| && lru.order[k] == bp
      modifies this`bufs, lru, lru.forw, lru.back, hash`chains, hash.heads, hash.link, hash.hashval
      ensures Valid() && View() == Step(old(View()), DoClaim(bp, dev, bno, sync))
                && lru.order == ToFront(old(lru.order), k)
    {
      hide Inv, ListAt, ToFront;
      StepKeeps(View(), DoClaim(bp, dev, bno, sync));
      ToFrontDistinct(lru.order, k);
      assert OnItsChain(bp);
      ghost var C, h := hash.chains, hash.hashval[bp];
      assert hash.ChainOk(h);
      ghost var j := hash.Delete(bp);
      CutDistinct(C[h], j);
      forall i | 0 <= i < n && i != bp ensures hash.Chained(i) {
        assert old(OnItsChain(i));
      }
      lru.Update(bp, k);
      bufs := bufs[bp := Claimed(bufs[bp], dev, bno, sync)];
      ghost var D := hash.chains;
      hash.Insert(bp, Hash(dev, bno, hash.heads.Length));
      forall i | 0 <= i < n ensures OnItsChain(i) {
        assert old(OnItsChain(i));
      }
    }

    /** The second half of bclaim: looks for a buffer from the least recently used on. */
    method Replace(dev: int, bno: int, sync: bool) returns (bp: int, how: Outcome, ghost k: int)
      requires Valid() && dev != NODEV && forall i :: 0 <= i < n ==> !Has(bufs[i], dev, bno)
      modifies this`bufs, lru, lru.forw, lru.back, hash`chains, hash.heads, hash.link, hash.hashval
      ensures Valid() && Leads(old(View()), View())
      ensures how == Ready || how == Asleep
      ensures how == Ready ==> 0 <= bp < n && Has(bufs[bp], dev, bno) && lru.order[0] == bp
      ensures how == Ready ==> (sync ==> bufs[bp].lock == Mine)
      ensures how == Ready ==> bufs[bp].ntp && !bufs[bp].mod && !bufs[bp].busy && (!sync ==> bufs[bp].lock == Free)
      ensures how == Ready ==> old(bufs[bp].lock == Free && !bufs[bp].mod)
      ensures how == Ready ==> 0 <= k < |old(lru.order)| && old(lru.order)[k] == bp
      ensures how == Ready ==> lru.order == ToFront(old(lru.order), k)
      ensures how == Ready ==> forall j :: k < j < |old(lru.order)| ==> InUse(old(View()), old(lru.order)[j])
      ensures how == Asleep ==> lru.order == old(lru.order)
      ensures how == Asleep <==> forall i :: 0 <= i < n ==> InUse(old(View()), i)
      ensures how == Asleep ==> forall i :: 0 <= i < n ==> bufs[i].lock != Free
      ensures how == Ready ==> forall j :: k < j < |old(lru.order)| ==> Taken(View(), old(lru.order)[j])
      ensures forall i :: 0 <= i < n && (how == Ready ==> i != bp) ==> AsOrWritten(old(bufs[i]), bufs[i])
    {
      hide Inv, Leads, ListAt, ToFront, PartlySynced, InUse, Taken, AsOrWritten, SyncStarted,
           LruChain.Valid, HashChains.Valid, HashChains.Chained, OnItsChain;
      ghost var s0 := View();
      StartOf(s0);
      NotYetSynced(s0);
      bp := lru.lastbuf;
      k := n - 1;
      lru.Neighbours(n - 1);
      while bp != NULL
        invariant -1 <= k < n && Valid() && Leads(s0, View()) && disk == s0.disk && lru.order == old(lru.order)
        invariant bp == (if k >= 0 then lru.order[k] else NULL) && (k >= 0 ==> bp != NULL)
        invariant PartlySynced(s0, View())
        invariant forall j :: k < j < n ==> InUse(s0, lru.order[j]) && Taken(View(), lru.order[j])
        decreases k
      {
        lru.Neighbours(k);
        if k > 0 { lru.Neighbours(k - 1); }
        if bufs[bp].lock != Free {
          CameDirty(s0, View(), bp);
          bp := lru.back[bp];
          k := k - 1;
          continue;
        }
        if bufs[bp].mod {
          ghost var s1 := View();
          SyncDirty();
          LeadsFurther(s0, s1, View());
          StillPartly(s0, s1, View());
          StillTaken(s1, View());
          CameDirty(s0, s1, bp);
          bp := lru.back[bp];
          k := k - 1;
          continue;
        }
        ghost var s1 := View();
        CameClean(s0, s1, bp, dev, bno);
        TakeOver(bp, dev, bno, sync, k);
        LeadsOn(s0, s1, DoClaim(bp, dev, bno, sync));
        TakenApart(s1, View(), bp);
        PartlyApart(s0, s1, View(), bp);
        return bp, Ready, k;
      }
      forall i | 0 <= i < n ensures InUse(s0, i) && Taken(View(), i) {
        var j := PlaceOf(lru.order, i);
      }
      AllTaken(s0, View());
      how := Asleep;
    }

    /** bclaim: the buffer for a block, newly claimed when the block is in none.  A new one
        is the least recently used of those that are free and clean.  The buffer goes to
        the front of the chain of recent use. */
    method BClaim(dev: int, bno: int, sync: bool) returns (bp: int, how: Outcome, ghost k: int)
      requires Valid() && dev != NODEV
      modifies this`bufs, lru, lru.forw, lru.back, hash`chains, hash.heads, hash.link, hash.hashval
      ensures Valid() && Leads(old(View()), View())
      ensures how == Ready || how == Asleep
      ensures how == Ready ==> 0 <= bp < n && Has(bufs[bp], dev, bno) && lru.order[0] == bp
      ensures how == Ready ==> (sync ==> bufs[bp].lock == Mine)
      ensures how == Ready && old(Has(bufs[bp], dev, bno)) && sync ==> old(bufs[bp]).lock == Free
      ensures how == Ready && old(Has(bufs[bp], dev, bno)) ==>
                bufs[bp] == if sync then old(bufs[bp]).(lock := Mine) else old(bufs[bp])
      ensures how == Ready && !old(Has(bufs[bp], dev, bno)) ==>
                bufs[bp].ntp && !bufs[bp].mod && !bufs[bp].busy && (!sync ==> bufs[bp].lock == Free)
                    && old(bufs[bp].lock == Free && !bufs[bp].mod)
      ensures how == Ready ==> 0 <= k < |old(lru.order)| && old(lru.order)[k] == bp
      ensures how == Ready ==> lru.order == ToFront(old(lru.order), k)
      ensures how == Ready && !old(Has(bufs[bp], dev, bno)) ==> forall j :: k < j < |old(lru.order)| ==>
                InUse(old(View()), old(lru.order)[j])
      ensures how == Asleep ==> lru.order == old(lru.order)
      ensures how == Asleep <==> MustWait(old(View()), dev, bno, sync)
      ensures how == Asleep ==> if Resident(old(View()), dev, bno) then View() == old(View())
                                else forall i :: 0 <= i < n ==> bufs[i].lock != Free
      ensures how == Ready ==> (old(Has(bufs[bp], dev, bno)) <==> Resident(old(View()), dev, bno))
      ensures forall i :: 0 <= i < n && (how == Ready ==> i != bp) ==> AsOrWritten(old(bufs[i]), bufs[i])
    {
      hide Inv, Leads, ListAt, ToFront, LruChain.Valid, HashChains.Valid, HashChains.Chained, OnItsChain;
      bp := BufferFind(dev, bno);
      k := 0;
      StartOf(View());
      if bp != NULL {
        ResidentOne(View(), bp, dev, bno, sync);
        if sync {
          if bufs[bp].lock != Free {
            return bp, Asleep, k;
          }
          ghost var s := View();
          LockBuffer(bp);
          LeadsOn(s, s, DoLock(bp));
        }
        k := PlaceOf(lru.order, bp);
        MoveUp(bp, k);
        return bp, Ready, k;
      }
      bp, how, k := Replace(dev, bno, sync);
    }

    /** bread.  A synchronous read ends with the buffer of the block locked, and its contents
        in it, or with a transfer to wait for.  A read ahead ends with a transfer under way,
        or finds that there is nothing to do. */
    method BRead(dev: int, bno: int, sync: bool) returns (bp: int, how: Outcome)
      requires Valid() && dev != NODEV
      requires !sync ==> forall i :: 0 <= i < n && Has(bufs[i], dev, bno) ==> bufs[i].lock != Mine
      modifies this`bufs, lru, lru.forw, lru.back, hash`chains, hash.heads, hash.link, hash.hashval
      ensures Valid() && Leads(old(View()), View())
      ensures how != Asleep ==> 0 <= bp < n && Has(bufs[bp], dev, bno)
      ensures how == Ready && sync ==>
                bufs[bp].lock == Mine && !bufs[bp].ntp && bufs[bp].data == Logical(old(View()), dev, bno)
      ensures how == Ready && !sync ==> !bufs[bp].ntp
      ensures how == Pending ==> sync && bufs[bp].busy && !bufs[bp].writing && bufs[bp].lock == Mine
      ensures how == Underway ==> !sync && bufs[bp].busy && bufs[bp].lock == Io
      ensures how == Asleep <==> MustWait(old(View()), dev, bno, sync)
      ensures how == Ready <==> !MustWait(old(View()), dev, bno, sync) && Present(old(View()), dev, bno)
      ensures how != Asleep && how != Ready ==> how == if sync then Pending else Underway
    {
      hide Leads, ListAt, ToFront, LruChain.Valid, HashChains.Valid, HashChains.Chained, OnItsChain, AsOrWritten;
      ghost var s := View();
      ghost var k;
      bp, how, k := BClaim(dev, bno, sync);
      if how == Asleep {
        return;
      }
      ghost var s1 := View();
      assert BufOk(s, bp) && BufOk(s1, bp);
      if !bufs[bp].ntp {
        LeadsQuietly(s, s1, dev, bno);
        ReadIsLogical(s1, bp);
        return;
      }
      if sync {
        ReadStart(bp, true);
        LeadsOn(s, s1, DoRead(bp, true));
        return bp, Pending;
      }
      if bufs[bp].lock == Io {
        return bp, Underway;
      }
      ReadStart(bp, false);
      LeadsOn(s, s1, DoRead(bp, false));
      how := Underway;
    }
  }

  /** A read that was waited for yields the contents of the block. */
  lemma ReadArrives(s: State, i: int)
    requires Inv(s) && 0 <= i < |s.bufs| && s.bufs[i].busy && !s.bufs[i].writing && s.bufs[i].lock == Mine
    ensures var s', x := Step(s, DoComplete(i)), s.bufs[i];
            Inv(s') && !s'.bufs[i].ntp && s'.bufs[i].lock == Mine && Has(s'.bufs[i], x.dev, x.bno)
                && s'.bufs[i].data == Logical(s, x.dev, x.bno)
  {
    assert BufOk(s, i);
    StepKeepsContents(s, DoComplete(i), s.bufs[i].dev, s.bufs[i].bno);
    ReadIsLogical(Step(s, DoComplete(i)), i);
  }

  /** A buffer that bclaim passes over: locked, or changed. */
  predicate InUse(s: State, i: int) {
    0 <= i < |s.bufs| ==> s.bufs[i].lock != Free || s.bufs[i].mod
  }

  ghost predicate Resident(s: State, dev: int, bno: int) {
    exists i :: 0 <= i < |s.bufs| && Has(s.bufs[i], dev, bno)
  }

  /** A buffer has the contents of the block. */
  ghost predicate Present(s: State, dev: int, bno: int) {
    exists i :: 0 <= i < |s.bufs| && Has(s.bufs[i], dev, bno) && !s.bufs[i].ntp
  }

  /** When a claim goes to sleep: the buffer of the block is locked, and the caller wants it for
      itself; or the block has none, and all buffers are locked or changed. */
  ghost predicate MustWait(s: State, dev: int, bno: int, sync: bool) {
    if Resident(s, dev, bno) then
      sync && exists i :: 0 <= i < |s.bufs| && Has(s.bufs[i], dev, bno) && s.bufs[i].lock != Free
    else forall i :: 0 <= i < |s.bufs| ==> InUse(s, i)
  }

  /** There is one such buffer only. */
  lemma ResidentOne(s: State, i: int, dev: int, bno: int, sync: bool)
    requires Inv(s) && 0 <= i < |s.bufs| && dev != NODEV && Has(s.bufs[i], dev, bno)
    ensures Resident(s, dev, bno) && (Present(s, dev, bno) <==> !s.bufs[i].ntp)
    ensures MustWait(s, dev, bno, sync) <==> sync && s.bufs[i].lock != Free
  {
    forall j | 0 <= j < |s.bufs| && Has(s.bufs[j], dev, bno) ensures j == i {
      OnlyOne(s, i, j);
    }
  }

  /** Some syncs have been over the buffers of `s0`. */
  ghost predicate PartlySynced(s0: State, s: State) {
    |s.bufs| == |s0.bufs| && forall i :: 0 <= i < |s.bufs| ==> AsOrWritten(s0.bufs[i], s.bufs[i])
  }

  /** A buffer is as it was, or was changed and unlocked and is being written. */
  predicate AsOrWritten(x: Buf, y: Buf) {
    y == x || (Dirty(x) && BeingWritten(x, y))
  }

  lemma StillPartly(s0: State, s: State, s': State)
    requires PartlySynced(s0, s) && SyncStarted(s, s')
    ensures PartlySynced(s0, s') && forall i :: 0 <= i < |s.bufs| ==> !Dirty(s'.bufs[i])
    ensures forall i :: 0 <= i < |s.bufs| && s.bufs[i].lock != Free ==> s'.bufs[i].lock != Free
  {
    forall i | 0 <= i < |s.bufs|
      ensures AsOrWritten(s0.bufs[i], s'.bufs[i]) && !Dirty(s'.bufs[i])
                && (s.bufs[i].lock != Free || Dirty(s.bufs[i]) ==> s'.bufs[i].lock != Free)
    {
      assert AsOrWritten(s0.bufs[i], s.bufs[i]);
      assert if Dirty(s.bufs[i]) then BeingWritten(s.bufs[i], s'.bufs[i]) else s'.bufs[i] == s.bufs[i];
    }
  }

  /** A buffer that somebody has locked. */
  predicate Taken(s: State, i: int) {
    0 <= i < |s.bufs| ==> s.bufs[i].lock != Free
  }

  lemma StillTaken(s: State, s': State)
    requires SyncStarted(s, s')
    ensures forall i :: Taken(s, i) || InUse(s, i) ==> Taken(s', i)
  {
    forall i | 0 <= i < |s.bufs| && (s.bufs[i].lock != Free || s.bufs[i].mod) ensures s'.bufs[i].lock != Free {
      assert if Dirty(s.bufs[i]) then BeingWritten(s.bufs[i], s'.bufs[i]) else s'.bufs[i] == s.bufs[i];
    }
  }

  lemma TakenApart(s: State, s': State, bp: int)
    requires |s'.bufs| == |s.bufs| && forall i :: 0 <= i < |s.bufs| && i != bp ==> s'.bufs[i] == s.bufs[i]
    ensures forall i :: i != bp && Taken(s, i) ==> Taken(s', i)
  {
  }

  lemma PartlyApart(s0: State, s: State, s': State, bp: int)
    requires PartlySynced(s0, s) && |s'.bufs| == |s.bufs|
    requires forall i :: 0 <= i < |s.bufs| && i != bp ==> s'.bufs[i] == s.bufs[i]
    ensures forall i :: 0 <= i < |s.bufs| && i != bp ==> AsOrWritten(s0.bufs[i], s'.bufs[i])
  {
  }

  lemma AllTaken(s0: State, s: State)
    requires PartlySynced(s0, s) && forall i :: 0 <= i < |s.bufs| ==> Taken(s, i)
    ensures forall i :: 0 <= i < |s.bufs| ==> AsOrWritten(s0.bufs[i], s.bufs[i]) && s.bufs[i].lock != Free
  {
    forall i | 0 <= i < |s.bufs| ensures AsOrWritten(s0.bufs[i], s.bufs[i]) && s.bufs[i].lock != Free {
      assert Taken(s, i);
    }
  }

  lemma NotYetSynced(s: State)
    ensures PartlySynced(s, s)
  {
  }

  /** What is found locked or changed was so before. */
  lemma CameDirty(s0: State, s: State, i: int)
    requires PartlySynced(s0, s) && 0 <= i < |s.bufs| && (s.bufs[i].lock != Free || s.bufs[i].mod)
    ensures InUse(s0, i) && InUse(s, i) && (s.bufs[i].lock != Free ==> Taken(s, i))
  {
  }

  /** What is found free and clean is as it was before; and no buffer has got the block. */
  lemma CameClean(s0: State, s: State, i: int, dev: int, bno: int)
    requires PartlySynced(s0, s) && 0 <= i < |s.bufs| && s.bufs[i].lock == Free && !s.bufs[i].mod
    requires forall j :: 0 <= j < |s0.bufs| ==> !Has(s0.bufs[j], dev, bno)
    ensures s0.bufs[i] == s.bufs[i] && !InUse(s0, i) && forall j :: 0 <= j < |s.bufs| ==> !Has(s.bufs[j], dev, bno)
  {
  }

  lemma StartOf(s: State)
    requires Inv(s)
    ensures Whole(s.disk) && Leads(s, s)
  {
    LeadsNowhere(s);
  }

  lemma Idle(s: State, i: int)
    requires Inv(s) && 0 <= i < |s.bufs| && s.bufs[i].lock == Free
    ensures !s.bufs[i].busy && (s.bufs[i].mod ==> !s.bufs[i].ntp && Allowed(s, DoWrite(i, false)))
  {
    assert BufOk(s, i);
  }
}
