/** Record locks: waking up. */
module LockWakeup {
  // Every call of `rlock` that may have changed a list ends by waking all processes that sleep
  // on that inode.  The kernel is not preempted between the end of a step and that wakeup, nor
  // between the last look at the list and the sleep, so both belong to the step.

  import opened LockRecords
  import opened LockAdding
  import opened LockManager
  import opened LockWaits

  /** The manager, and the sleepers that have been woken but have not run yet. */
  datatype Watched = Watched(s: State, woken: set<nat>)

  function Sleepers(s: State, ip: nat): set<nat> {
    set p: nat | p < |s.pend| && s.pend[p].Some? && s.pend[p].value.ip == ip
  }

  /** A sleeper runs only when it has been woken, or by a signal. */
  ghost predicate CanRun(w: Watched, a: Action) {
    GoodPending(w.s) && Enabled(w.s, a) && (a.Retry? ==> a.p in w.woken)
  }

  /** The inode that the call is about. */
  function InodeOf(s: State, a: Action): nat
    requires Enabled(s, a)
  {
    if a.Retry? || a.Interrupt? then s.pend[a.p].value.ip else a.ip
  }

  /** A step, and at the end of the call the wakeup. */
  ghost function Proceed(w: Watched, a: Action): Watched
    requires CanRun(w, a)
  {
    var (t, r) := Do(w.s, a);
    Watched(t, w.woken - {a.p} + if r == Asleep then {} else Sleepers(t, InodeOf(w.s, a)))
  }

  ghost predicate Proceeds(w: Watched, acts: seq<Action>, v: Watched)
    decreases |acts|
  {
    if acts == [] then w == v else CanRun(w, acts[0]) && Proceeds(Proceed(w, acts[0]), acts[1..], v)
  }

  /** Whoever sleeps and has not been woken is blocked. */
  ghost predicate Attended(w: Watched) {
    forall p: nat {:trigger Blockers(w.s, p)} ::
      p < |w.s.pend| && w.s.pend[p].Some? && p !in w.woken ==> Blockers(w.s, p) != {}
  }

  /** A step changes the list of its inode only, and no pending request but that of its process. */
  lemma StepIsLocal(s: State, a: Action)
    requires GoodPending(s) && Enabled(s, a)
    ensures var (t, r) := Do(s, a);
            && |t.lists| == |s.lists| && |t.pend| == |s.pend|
            && (forall f :: 0 <= f < |s.lists| && f != InodeOf(s, a) ==> t.lists[f] == s.lists[f])
            && (forall q :: 0 <= q < |s.pend| && q != a.p ==> t.pend[q] == s.pend[q])
            && (r == Asleep ==> t.lists == s.lists && t.pend[a.p].Some? && Blockers(t, a.p) != {})
            && (r != Asleep ==> t.pend[a.p].None?)
  {
    hide Add, Remove, ClosesCycle, Owners;
    if a.WaitForLock? && Do(s, a).1 == Asleep {
      SameOwners(s.lists[a.ip], a.lock, s.free[0]);
    }
  }

  lemma SameOwners(L: seq<Rec>, lock: Rec, id: nat)
    ensures Owners(L, lock.(id := id)) == Owners(L, lock)
  {
    assert forall r :: Blocks(r, lock.(id := id)) == Blocks(r, lock);
  }

  /** A call wakes exactly those that sleep on its inode; one that ends asleep wakes nobody. */
  lemma WakesExactly(w: Watched, a: Action, q: nat)
    requires CanRun(w, a) && q != a.p
    ensures q in Proceed(w, a).woken <==>
            || q in w.woken
            || (Do(w.s, a).1 != Asleep && q < |w.s.pend| && w.s.pend[q].Some?
                && w.s.pend[q].value.ip == InodeOf(w.s, a))
  {
    hide Do;
    StepIsLocal(w.s, a);
  }

  /** No wakeup is lost in a step. */
  lemma StepAttends(w: Watched, a: Action)
    requires Attended(w) && CanRun(w, a)
    ensures Attended(Proceed(w, a))
  {
    hide Do, Owners;
    StepIsLocal(w.s, a);
    var v := Proceed(w, a);
    forall q: nat | q < |v.s.pend| && v.s.pend[q].Some? && q !in v.woken ensures Blockers(v.s, q) != {} {
      if q != a.p {
        assert Blockers(w.s, q) != {};
        assert Blockers(v.s, q) == Blockers(w.s, q);
      }
    }
  }

  /** No wakeup is lost in any run. */
  lemma {:induction false} RunAttends(w: Watched, acts: seq<Action>, v: Watched)
    requires Attended(w) && Proceeds(w, acts, v)
    ensures Attended(v)
    decreases |acts|
  {
    if acts != [] {
      StepAttends(w, acts[0]);
      RunAttends(Proceed(w, acts[0]), acts[1..], v);
    }
  }

  /** A run with wakeups is a run. */
  lemma {:induction false} ProceedsRuns(w: Watched, acts: seq<Action>, v: Watched)
    requires Proceeds(w, acts, v)
    ensures Runs(w.s, acts, v.s)
    decreases |acts|
  {
    hide Do, Enabled, GoodPending;
    if acts != [] { ProceedsRuns(Proceed(w, acts[0]), acts[1..], v); }
  }

  /** In every run from the start: whoever sleeps unwoken is blocked, and processes never all
      sleep unwoken. */
  lemma SomebodyGoesOn(inodes: nat, procs: nat, records: nat, acts: seq<Action>, v: Watched)
    requires Proceeds(Watched(Initial(inodes, procs, records), {}), acts, v)
    ensures Attended(v)
    ensures |v.s.pend| > 0 ==> exists p: nat :: p < |v.s.pend| && (v.s.pend[p].None? || p in v.woken)
  {
    hide Proceeds;
    var w := Watched(Initial(inodes, procs, records), {});
    RunAttends(w, acts, v);
    ProceedsRuns(w, acts, v);
    InitialWaits(inodes, procs, records);
    RunKeepsWaits(w.s, acts, v.s);
    if |v.s.pend| > 0 && v.s.pend[0].Some? {
      SomeoneWaitsForRunningOnly(v.s, 0, {});
      var r :| 0 <= r < |v.s.pend| && v.s.pend[r].Some? &&
               forall q :: q in Blockers(v.s, r) ==> q < |v.s.pend| && v.s.pend[q].None?;
      if r !in v.woken {
        var q :| q in Blockers(v.s, r);
        assert v.s.pend[q].None?;
      }
    }
  }
}
