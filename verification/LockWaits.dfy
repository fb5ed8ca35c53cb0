/** Record locks: who waits, and the records. */
module LockWaits {
  // What holds in every run of the record-lock manager, whatever ranges the processes lock and
  // unlock: the wait-for graph has no cycle, and no record of the pool is lost.

  import opened LockRecords
  import opened LockAdding
  import opened WaitGraph
  import opened FiniteSets
  import opened LockManager

  // ----- runs -----

  datatype Action =
    | SetLock(p: nat, ip: nat, lock: Rec)
    | Unlock(p: nat, ip: nat, lock: Rec)
    | WaitForLock(p: nat, ip: nat, lock: Rec)
    | Retry(p: nat)
    | Interrupt(p: nat)

  /** A process acts on its own locks, and only `Retry` and `Interrupt` belong to a
      process that sleeps in `waitlock`. */
  ghost predicate Enabled(s: State, a: Action) {
    if a.Retry? || a.Interrupt? then a.p < |s.pend| && s.pend[a.p].Some?
    else Idle(s, a.p, a.ip, a.lock)
  }

  ghost function Do(s: State, a: Action): (State, Outcome)
    requires GoodPending(s) && Enabled(s, a)
  {
    match a
    case SetLock(_, ip, lock) => SetLockStep(s, ip, lock)
    case Unlock(_, ip, lock) => UnlockStep(s, ip, lock)
    case WaitForLock(p, ip, lock) => WaitStep(s, p, ip, lock)
    case Retry(p) => RetryStep(s, p)
    case Interrupt(p) => (Resume(s, p), Refused(EINTR))
  }

  /** `t` comes out of `s` by these actions, in order.  Nothing is assumed about the lists and
      the waits on the way; that requests name their process is what makes a step meaningful. */
  ghost predicate Runs(s: State, acts: seq<Action>, t: State)
    decreases |acts|
  {
    if acts == [] then s == t
    else GoodPending(s) && Enabled(s, acts[0]) && Runs(Do(s, acts[0]).0, acts[1..], t)
  }

  // ----- each step keeps the waits in order -----

  lemma OwnersAfterAdd(L: seq<Rec>, lock: Rec, free: seq<nat>, want: Rec)
    ensures Owners(Add(L, lock, free).list, want) <= Owners(L, want) + {lock.owner}
  {
    hide Add, Blocks;
    var M := Add(L, lock, free).list;
    forall q | q in Owners(M, want) ensures q in Owners(L, want) + {lock.owner} {
      var i :| 0 <= i < |M| && Blocks(M[i], want) && M[i].owner == q;
      if q != lock.owner { OthersAreOld(L, lock, free, i); }
    }
  }

  lemma OwnersAfterRemove(L: seq<Rec>, lock: Rec, free: seq<nat>, want: Rec)
    ensures Owners(Remove(L, lock, free).list, want) <= Owners(L, want) + {lock.owner}
  {
    hide Remove, Blocks;
    var M := Remove(L, lock, free).list;
    forall q | q in Owners(M, want) ensures q in Owners(L, want) + {lock.owner} {
      var i :| 0 <= i < |M| && Blocks(M[i], want) && M[i].owner == q;
      if q != lock.owner { var j := OthersFrom(L, lock, free, i); }
    }
  }

  /** The list of one inode becomes `M`, in which the records of others are old ones, and the
      caller, who does not sleep, may get in the way of others. */
  lemma ListChangeKeepsWaits(s: State, p: nat, ip: nat, M: seq<Rec>, free: seq<nat>)
    requires WaitInv(s) && p < |s.pend| && s.pend[p].None? && ip < |s.lists|
    requires forall i :: 0 <= i < |M| ==> M[i].owner == p || M[i] in s.lists[ip]
    requires forall want :: Owners(M, want) <= Owners(s.lists[ip], want) + {p}
    ensures WaitInv(s.(lists := s.lists[ip := M], free := free))
  {
    hide Reach, Acyclic, Owners;
    var t := s.(lists := s.lists[ip := M], free := free);
    forall e | e in WaitEdges(t) ensures (e in WaitEdges(s) || e.1 == p) && e.0 != p {
      assert e.1 in Blockers(t, e.0);
      assert e.1 == p || e.1 in Blockers(s, e.0);
    }
    EdgesIntoSinkStayAcyclic(WaitEdges(s), WaitEdges(t), p);
  }

  lemma AddKeepsWaits(s: State, p: nat, ip: nat, lock: Rec)
    requires WaitInv(s) && p < |s.pend| && s.pend[p].None? && ip < |s.lists| && lock.owner == p
    ensures WaitInv(AddTo(s, ip, lock).0)
  {
    hide Add, WaitInv, Owners;
    var a := Add(s.lists[ip], lock, s.free);
    forall i | 0 <= i < |a.list| && a.list[i].owner != p ensures a.list[i] in s.lists[ip] {
      OthersAreOld(s.lists[ip], lock, s.free, i);
    }
    forall want ensures Owners(a.list, want) <= Owners(s.lists[ip], want) + {p} {
      OwnersAfterAdd(s.lists[ip], lock, s.free, want);
    }
    ListChangeKeepsWaits(s, p, ip, a.list, a.free);
  }

  lemma RemoveKeepsWaits(s: State, p: nat, ip: nat, lock: Rec)
    requires WaitInv(s) && p < |s.pend| && s.pend[p].None? && ip < |s.lists| && lock.owner == p
    ensures WaitInv(UnlockStep(s, ip, lock).0)
  {
    hide Remove, WaitInv, Owners;
    var r := Remove(s.lists[ip], lock, s.free);
    forall i | 0 <= i < |r.list| && r.list[i].owner != p ensures r.list[i] in s.lists[ip] {
      var j := OthersFrom(s.lists[ip], lock, s.free, i);
    }
    forall want ensures Owners(r.list, want) <= Owners(s.lists[ip], want) + {p} {
      OwnersAfterRemove(s.lists[ip], lock, s.free, want);
    }
    ListChangeKeepsWaits(s, p, ip, r.list, r.free);
  }

  lemma ResumeKeepsWaits(s: State, p: nat)
    requires WaitInv(s) && p < |s.pend| && s.pend[p].Some?
    ensures WaitInv(Resume(s, p))
  {
    var t := Resume(s, p);
    forall e | e in WaitEdges(t) ensures e in WaitEdges(s) {
      assert e.1 in Blockers(t, e.0);
      assert e.1 in Blockers(s, e.0);
    }
    FewerEdgesStayAcyclic(WaitEdges(t), WaitEdges(s));
  }

  /** A request goes to sleep exactly when that closes no cycle: a refusal with EDEADLK
      happens if and only if sleeping would leave a cycle in the wait-for graph. */
  lemma RefusedIffCycle(s: State, p: nat, ip: nat, lock: Rec)
    requires WaitInv(s) && Idle(s, p, ip, lock) && s.free != []
    ensures ClosesCycle(Suspend(s, p, ip, lock), p) <==> !Acyclic(WaitEdges(Suspend(s, p, ip, lock)))
  {
    var t := Suspend(s, p, ip, lock);
    SuspendedEdges(s, p, ip, lock);
    CycleIffReachesBack(WaitEdges(t), p);
    ReachStep(WaitEdges(t), p, p);
    forall q | q in Blockers(t, p) ensures q != p && (p, q) in WaitEdges(t) {
    }
    if Reach(WaitEdges(t), p, p) {
      var c :| (p, c) in WaitEdges(t) && (c == p || Reach(WaitEdges(t), c, p));
      assert c in Blockers(t, p);
    }
  }

  /** A request that slept is never refused with EDEADLK when it wakes. */
  lemma SleeperIsNotRefused(s: State, p: nat)
    requires WaitInv(s) && p < |s.pend| && s.pend[p].Some?
    ensures !ClosesCycle(s, p) && RetryStep(s, p).1 != Refused(EDEADLK)
  {
    forall q | q in Blockers(s, p) ensures !Reach(WaitEdges(s), q, p) {
      assert (p, q) in WaitEdges(s);
      ReachStep(WaitEdges(s), p, p);
    }
  }

  lemma StepKeepsWaits(s: State, a: Action)
    requires WaitInv(s) && Enabled(s, a)
    ensures WaitInv(Do(s, a).0)
  {
    hide AddTo, Reach, Acyclic;
    match a
    case SetLock(p, ip, lock) =>
      AddKeepsWaits(s, p, ip, lock);
    case Unlock(p, ip, lock) =>
      RemoveKeepsWaits(s, p, ip, lock);
    case WaitForLock(p, ip, lock) =>
      AddKeepsWaits(s, p, ip, lock);
      if s.free != [] {
        SuspendedEdges(s, p, ip, lock);
        RefusedIffCycle(s, p, ip, lock);
      }
    case Retry(p) =>
      ResumeKeepsWaits(s, p);
      SleeperIsNotRefused(s, p);
      AddKeepsWaits(Resume(s, p), p, s.pend[p].value.ip, s.pend[p].value.lock);
    case Interrupt(p) =>
      ResumeKeepsWaits(s, p);
  }

  /** In every run the wait-for graph has no cycle. */
  lemma {:induction false} RunKeepsWaits(s: State, acts: seq<Action>, t: State)
    requires WaitInv(s) && Runs(s, acts, t)
    ensures WaitInv(t)
    decreases |acts|
  {
    if acts != [] {
      StepKeepsWaits(s, acts[0]);
      RunKeepsWaits(Do(s, acts[0]).0, acts[1..], t);
    }
  }

  /** No locks, nobody asleep, and all records free. */
  function Initial(inodes: nat, procs: nat, records: nat): State {
    State(seq(inodes, _ => []), seq(records, i => i), seq(procs, _ => None))
  }

  lemma InitialWaits(inodes: nat, procs: nat, records: nat)
    ensures WaitInv(Initial(inodes, procs, records))
  {
    var s := Initial(inodes, procs, records);
    forall a ensures !Reach(WaitEdges(s), a, a) {
      ReachStep(WaitEdges(s), a, a);
    }
  }

  /** No deadlock: if anyone sleeps, then someone sleeps whose way is barred only by
      processes that do not sleep. */
  lemma SomeoneWaitsForRunningOnly(s: State, p: nat, seen: set<nat>)
    requires WaitInv(s) && p < |s.pend| && s.pend[p].Some?
    requires forall v :: v in seen ==> v < |s.pend| && Reach(WaitEdges(s), v, p)
    ensures exists r :: 0 <= r < |s.pend| && s.pend[r].Some? &&
              forall q :: q in Blockers(s, r) ==> q < |s.pend| && s.pend[q].None?
    decreases |s.pend| - |seen|
  {
    BlockersExist(s, p);
    if q :| q in Blockers(s, p) && s.pend[q].Some? {
      assert (p, q) in WaitEdges(s);
      assert p !in seen;
      GoDeeper(WaitEdges(s), seen, p, q);
      BoundedSet(seen + {p}, |s.pend|);
      SomeoneWaitsForRunningOnly(s, q, seen + {p});
    }
  }

  lemma BlockersExist(s: State, p: nat)
    requires GoodOwners(s)
    ensures forall q :: q in Blockers(s, p) ==> q < |s.pend|
  {
  }

  // ----- conservation of pool records -----

  ghost function ListIds(ls: seq<seq<Rec>>): multiset<nat> {
    if ls == [] then multiset{} else multiset(Ids(ls[0])) + ListIds(ls[1..])
  }

  ghost function PendIds(ps: seq<Option<Pend>>): multiset<nat> {
    if ps == [] then multiset{}
    else SlotIds(ps[0]) + PendIds(ps[1..])
  }

  /** All pool records: free, active and pending. */
  ghost function Records(s: State): multiset<nat> {
    multiset(s.free) + ListIds(s.lists) + PendIds(s.pend)
  }

  /** Adding the same records on the left, the sides regrouped. */
  lemma Regroup(m: multiset<nat>, a: multiset<nat>, b: multiset<nat>, c: multiset<nat>, d: multiset<nat>)
    requires a + b == c + d
    ensures (m + a) + b == (m + c) + d
  {
    assert (m + a) + b == m + (a + b);
    assert (m + c) + d == m + (c + d);
  }

  lemma ListIdsUnfold(ls: seq<seq<Rec>>)
    requires ls != []
    ensures ListIds(ls) == multiset(Ids(ls[0])) + ListIds(ls[1..])
  {
  }

  lemma PendIdsUnfold(ps: seq<Option<Pend>>)
    requires ps != []
    ensures PendIds(ps) == SlotIds(ps[0]) + PendIds(ps[1..])
  {
  }

  lemma {:induction false} ListIdsUpdate(ls: seq<seq<Rec>>, i: nat, M: seq<Rec>)
    requires i < |ls|
    ensures ListIds(ls[i := M]) + multiset(Ids(ls[i])) == ListIds(ls) + multiset(Ids(M))
  {
    hide Ids, ListIds;
    var tail := ls[1..];
    ListIdsUnfold(ls);
    ListIdsUnfold(ls[i := M]);
    if i > 0 {
      assert ls[i := M][1..] == tail[i - 1 := M];
      ListIdsUpdate(tail, i - 1, M);
      Regroup(multiset(Ids(ls[0])), ListIds(tail[i - 1 := M]), multiset(Ids(ls[i])), ListIds(tail), multiset(Ids(M)));
    } else {
      assert ls[i := M][1..] == tail;
    }
  }

  function SlotIds(x: Option<Pend>): multiset<nat> {
    if x.Some? then multiset{x.value.lock.id} else multiset{}
  }

  lemma {:induction false} PendIdsUpdate(ps: seq<Option<Pend>>, i: nat, x: Option<Pend>)
    requires i < |ps|
    ensures PendIds(ps[i := x]) + SlotIds(ps[i]) == PendIds(ps) + SlotIds(x)
  {
    hide SlotIds, PendIds;
    var tail := ps[1..];
    PendIdsUnfold(ps);
    PendIdsUnfold(ps[i := x]);
    if i > 0 {
      assert ps[i := x][1..] == tail[i - 1 := x];
      PendIdsUpdate(tail, i - 1, x);
      Regroup(SlotIds(ps[0]), PendIds(tail[i - 1 := x]), SlotIds(ps[i]), PendIds(tail), SlotIds(x));
    } else {
      assert ps[i := x][1..] == tail;
    }
  }

  lemma ListChangeKeepsRecords(s: State, ip: nat, M: seq<Rec>, free: seq<nat>)
    requires ip < |s.lists| && Pool(M, free) == Pool(s.lists[ip], s.free)
    ensures Records(s.(lists := s.lists[ip := M], free := free)) == Records(s)
  {
    ListIdsUpdate(s.lists, ip, M);
    Cancel(multiset(Ids(s.lists[ip])), multiset(s.free), ListIds(s.lists),
           multiset(Ids(M)), multiset(free), ListIds(s.lists[ip := M]));
  }

  /** What a list gains the free list loses. */
  lemma Cancel(a: multiset<nat>, f: multiset<nat>, l: multiset<nat>, a': multiset<nat>, f': multiset<nat>,
               l': multiset<nat>)
    requires a' + f' == a + f && l' + a == l + a'
    ensures f' + l' == f + l
  {
    forall x ensures (f' + l')[x] == (f + l)[x] {
      assert (a' + f')[x] == (a + f)[x] && (l' + a)[x] == (l + a')[x];
    }
  }

  /** One record moves between the free list and a pending slot. */
  lemma Move(x: nat, f: multiset<nat>, l: multiset<nat>, p: multiset<nat>, p': multiset<nat>)
    requires p' == p + multiset{x}
    ensures f + l + p' == (f + multiset{x}) + l + p
  {
  }

  lemma SuspendKeepsRecords(s: State, p: nat, ip: nat, lock: Rec)
    requires Idle(s, p, ip, lock) && s.free != []
    ensures Records(Suspend(s, p, ip, lock)) == Records(s)
  {
    var t := Suspend(s, p, ip, lock);
    PendIdsUpdate(s.pend, p, t.pend[p]);
    assert s.free == [s.free[0]] + s.free[1..];
    Move(s.free[0], multiset(t.free), ListIds(s.lists), PendIds(s.pend), PendIds(t.pend));
  }

  lemma ResumeKeepsRecords(s: State, p: nat)
    requires p < |s.pend| && s.pend[p].Some?
    ensures Records(Resume(s, p)) == Records(s)
  {
    var t := Resume(s, p);
    PendIdsUpdate(s.pend, p, None);
    Move(s.pend[p].value.lock.id, multiset(s.free), ListIds(s.lists), PendIds(t.pend), PendIds(s.pend));
  }

  lemma AddToKeepsRecords(s: State, ip: nat, lock: Rec)
    requires ip < |s.lists|
    ensures Records(AddTo(s, ip, lock).0) == Records(s)
  {
    var a := Add(s.lists[ip], lock, s.free);
    AddKeepsPool(s.lists[ip], lock, s.free);
    ListChangeKeepsRecords(s, ip, a.list, a.free);
  }

  lemma StepKeepsRecords(s: State, a: Action)
    requires GoodPending(s) && Enabled(s, a)
    ensures Records(Do(s, a).0) == Records(s)
  {
    hide Records, AddTo;
    match a
    case SetLock(p, ip, lock) =>
      AddToKeepsRecords(s, ip, lock);
    case Unlock(p, ip, lock) =>
      RemoveKeepsPool(s.lists[ip], lock, s.free);
      var r := Remove(s.lists[ip], lock, s.free);
      ListChangeKeepsRecords(s, ip, r.list, r.free);
    case WaitForLock(p, ip, lock) =>
      AddToKeepsRecords(s, ip, lock);
      if s.free != [] { SuspendKeepsRecords(s, p, ip, lock); }
    case Retry(p) =>
      RetryKeepsRecords(s, p);
    case Interrupt(p) =>
      ResumeKeepsRecords(s, p);
  }

  lemma RetryKeepsRecords(s: State, p: nat)
    requires GoodPending(s) && p < |s.pend| && s.pend[p].Some?
    ensures Records(RetryStep(s, p).0) == Records(s)
  {
    ResumeKeepsRecords(s, p);
    if Blockers(s, p) == {} {
      AddToKeepsRecords(Resume(s, p), s.pend[p].value.ip, s.pend[p].value.lock);
    }
  }

  /** Over every run each pool record stays in exactly one place: free, active or pending. */
  lemma {:induction false} RunKeepsRecords(s: State, acts: seq<Action>, t: State)
    requires Runs(s, acts, t)
    ensures Records(t) == Records(s)
    decreases |acts|
  {
    if acts != [] {
      StepKeepsRecords(s, acts[0]);
      RunKeepsRecords(Do(s, acts[0]).0, acts[1..], t);
    }
  }

  /** Whatever the processes do from the start, in whatever order and with whatever ranges: no
      cycle of them waits, and no record is lost or doubled. */
  lemma ReachableIsOrdered(inodes: nat, procs: nat, records: nat, acts: seq<Action>, t: State)
    requires Runs(Initial(inodes, procs, records), acts, t)
    ensures Acyclic(WaitEdges(t)) && Records(t) == Records(Initial(inodes, procs, records))
  {
    hide Records, Acyclic;
    InitialWaits(inodes, procs, records);
    RunKeepsWaits(Initial(inodes, procs, records), acts, t);
    RunKeepsRecords(Initial(inodes, procs, records), acts, t);
  }
}
