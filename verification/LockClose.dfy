/** Record locks: closing. */
module LockClose {
  // Closing a file unlocks its whole range, so that no lock outlives its file and its process.
  // That fails for records that start below zero, which requests up to the top offset leave.
  // Here is what records can look like in any run, and exactly when closing drops them.

  import opened LockRecords
  import opened LockAdding
  import opened LockManager
  import opened LockWaits

  // ----- what records look like -----

  lemma CutIsFormed(x: Rec, lock: Rec, id: nat)
    requires Formed(x) && Formed(lock)
    ensures forall k :: 0 <= k < |Cut(x, lock)| ==> Formed(Cut(x, lock)[k]) && Formed(Cut(x, lock)[k].(id := id))
  {
  }

  lemma {:induction false} RemoveKeepsFormed(L: seq<Rec>, lock: Rec, free: seq<nat>)
    requires AllFormed(L) && Formed(lock)
    ensures AllFormed(Remove(L, lock, free).list)
    decreases 2 * |L| + |free|
  {
    hide Formed, Cut, Meets;
    if L != [] {
      var x, T := L[0], L[1..];
      var c := Cut(x, lock);
      PiecesAtMostTwo(x, lock);
      if x.owner != lock.owner || !Meets(x, lock) {
        RemoveKeepsFormed(T, lock, free);
      } else if |c| == 0 {
        RemoveKeepsFormed(T, lock, [x.id] + free);
      } else if |c| == 1 {
        CutIsFormed(x, lock, 0);
        RemoveKeepsFormed(T, lock, free);
      } else if free != [] {
        CutIsFormed(x, lock, free[0]);
        RemoveKeepsFormed([c[1].(id := free[0])] + T, lock, free[1..]);
      }
    }
  }

  /** The range that a request and its neighbours make up. */
  lemma {:induction false} AbsorbIsFormed(L: seq<Rec>, wide: Rec, top: int, bot: int, free: seq<nat>)
    requires AllFormed(L) && Formed(wide.(start := top, end := bot))
    ensures var m := Absorb(L, wide, top, bot, free); Formed(wide.(start := m.top, end := m.bot))
  {
    if L != [] {
      var x := L[0];
      if Absorbs(x, wide) {
        AbsorbIsFormed(L[1..], wide, Lower(top, x), Upper(bot, x), [x.id] + free);
      } else {
        AbsorbIsFormed(L[1..], wide, top, bot, free);
      }
    }
  }

  lemma AddKeepsFormed(L: seq<Rec>, lock: Rec, free: seq<nat>)
    requires AllFormed(L) && WF(lock)
    ensures AllFormed(Add(L, lock, free).list)
  {
    hide Absorb, Remove, Widen, AllWithin, Pool, Absorbs, Formed;
    var m := Absorb(L, Widen(lock), lock.start, lock.end, free);
    MergeBasics(L, lock, free);
    RangeIsFormed(lock, Widen(lock), lock.start, lock.end);
    AbsorbIsFormed(L, Widen(lock), lock.start, lock.end, free);
    assert AllFormed(m.list);
    if m.free != [] {
      SameForm(Grown(lock, m), Widen(lock), m.top, m.bot);
      RemoveKeepsFormed(m.list, Grown(lock, m), m.free[1..]);
    }
  }

  lemma RangeIsFormed(lock: Rec, wide: Rec, top: int, bot: int)
    requires WF(lock) && top == lock.start && bot == lock.end
    ensures Formed(wide.(start := top, end := bot))
  {
  }

  lemma SameForm(r: Rec, wide: Rec, top: int, bot: int)
    requires r.start == top && r.end == bot && Formed(wide.(start := top, end := bot))
    ensures Formed(r)
  {
  }

  // ----- in any run -----

  /** What holds of the records in every run: pending requests are as they were asked for. */
  ghost predicate FormedState(s: State) {
    && GoodPending(s)
    && (forall f {:trigger s.lists[f]} :: 0 <= f < |s.lists| ==> AllFormed(s.lists[f]))
    && forall p {:trigger s.pend[p]} :: 0 <= p < |s.pend| && s.pend[p].Some? ==> WF(s.pend[p].value.lock)
  }

  lemma AddToKeepsFormed(s: State, ip: nat, lock: Rec)
    requires FormedState(s) && ip < |s.lists| && WF(lock)
    ensures FormedState(AddTo(s, ip, lock).0)
  {
    hide Add;
    AddKeepsFormed(s.lists[ip], lock, s.free);
  }

  lemma StepKeepsFormed(s: State, a: Action)
    requires FormedState(s) && Enabled(s, a)
    ensures FormedState(Do(s, a).0)
  {
    hide AddTo, Remove, ClosesCycle;
    match a
    case SetLock(p, ip, lock) =>
      AddToKeepsFormed(s, ip, lock);
    case Unlock(p, ip, lock) =>
      RemoveKeepsFormed(s.lists[ip], lock, s.free);
    case WaitForLock(p, ip, lock) =>
      AddToKeepsFormed(s, ip, lock);
    case Retry(p) =>
      AddToKeepsFormed(Resume(s, p), s.pend[p].value.ip, s.pend[p].value.lock);
    case Interrupt(p) =>
  }

  lemma {:induction false} RunKeepsFormed(s: State, acts: seq<Action>, t: State)
    requires FormedState(s) && Runs(s, acts, t)
    ensures FormedState(t)
    decreases |acts|
  {
    if acts != [] {
      StepKeepsFormed(s, acts[0]);
      RunKeepsFormed(Do(s, acts[0]).0, acts[1..], t);
    }
  }

  // ----- closing -----

  /** The request that closing a file makes. */
  function Whole(p: nat): Rec {
    Rec(0, false, 0, -1, p)
  }

  /** Process `p` has a record that starts below zero on inode `ip`. */
  ghost predicate HasOverrun(s: State, p: nat, ip: nat)
    requires ip < |s.lists|
  {
    exists i :: 0 <= i < |s.lists[ip]| && s.lists[ip][i].owner == p && s.lists[ip][i].start < 0
  }

  /** Process `p` has a lock on byte `b`. */
  ghost predicate Locks(L: seq<Rec>, p: nat, b: nat) {
    exists w :: Held(L, p, w, b)
  }

  /** Closing always succeeds.  It leaves the caller nothing if and only if the caller has no
      record that starts below zero; otherwise it leaves it every byte. */
  lemma CloseDropsEverythingIff(s: State, p: nat, ip: nat)
    requires FormedState(s) && p < |s.pend| && s.pend[p].None? && ip < |s.lists|
    ensures var (t, r) := UnlockStep(s, ip, Whole(p));
            && r == Granted && ip < |t.lists|
            && (!HasOverrun(s, p, ip) ==> forall b: nat :: !Locks(t.lists[ip], p, b))
            && (HasOverrun(s, p, ip) ==> forall b: nat :: Locks(t.lists[ip], p, b))
  {
    RemoveAllIsServed(s.lists[ip], Whole(p), s.free);
    hide Remove;
    var R := UnlockStep(s, ip, Whole(p)).0.lists[ip];
    if HasOverrun(s, p, ip) {
      var k :| 0 <= k < |R| && R[k].owner == p;
      forall b: nat ensures Locks(R, p, b) {
        assert HeldBy(R[k], p, R[k].write, b);
        assert Held(R, p, R[k].write, b);
      }
    } else {
      assert forall k :: 0 <= k < |R| ==> R[k].owner != p;
    }
  }

  /** So it is in every run from the start. */
  lemma ReachableClose(inodes: nat, procs: nat, records: nat, acts: seq<Action>, s: State, p: nat, ip: nat)
    requires Runs(Initial(inodes, procs, records), acts, s)
    requires p < |s.pend| && s.pend[p].None? && ip < |s.lists|
    ensures var (t, r) := UnlockStep(s, ip, Whole(p));
            && r == Granted && ip < |t.lists|
            && forall b: nat :: Locks(t.lists[ip], p, b) <==> HasOverrun(s, p, ip)
  {
    hide UnlockStep, Locks, HasOverrun;
    RunKeepsFormed(Initial(inodes, procs, records), acts, s);
    CloseDropsEverythingIff(s, p, ip);
  }

  /** As long as no request wraps, closing leaves the caller nothing. */
  lemma CloseDropsEverything(s: State, p: nat, ip: nat)
    requires Inv(s) && p < |s.pend| && s.pend[p].None? && ip < |s.lists|
    ensures var r := UnlockStep(s, ip, Whole(p));
            r.1 == Granted && forall w: bool, b: nat :: !Held(r.0.lists[ip], p, w, b)
  {
    hide Remove, Held;
    assert FormedState(s);
    assert !HasOverrun(s, p, ip) by { assert AllWF(s.lists[ip]); }
    CloseDropsEverythingIff(s, p, ip);
    var L := UnlockStep(s, ip, Whole(p)).0.lists[ip];
    forall w: bool, b: nat ensures !Held(L, p, w, b) {
      assert !Locks(L, p, b);
    }
  }

  // ----- a lock that outlives its file -----

  /** A process locks from byte 100 on, unlocks up to the top offset, and closes the file. */
  function Outliving(): seq<Action> {
    [SetLock(0, 0, Rec(0, false, 100, -1, 0)), Unlock(0, 0, Rec(0, false, 100, MAX_OFF, 0)), Unlock(0, 0, Whole(0))]
  }

  /** All three calls succeed, and the process, with no file left, has a lock on every byte. */
  lemma CloseLeavesLock()
    ensures var s0 := State([[]], [0, 1], [None]);
            exists s1, s2, s3 ::
              && Runs(s0, Outliving(), s3)
              && Do(s0, Outliving()[0]) == (s1, Granted)
              && GoodPending(s1) && Enabled(s1, Outliving()[1]) && Do(s1, Outliving()[1]) == (s2, Granted)
              && GoodPending(s2) && Enabled(s2, Outliving()[2]) && Do(s2, Outliving()[2]) == (s3, Granted)
              && s3.lists == [[Rec(0, false, BOTTOM, -1, 0)]]
  {
    var s0, a := State([[]], [0, 1], [None]), Outliving();
    var s1 := State([[Rec(0, false, 100, -1, 0)]], [1], [None]);
    var s2 := State([[Rec(0, false, BOTTOM, -1, 0)]], [1], [None]);
    assert Remove([], a[0].lock, [1]).list == [];
    assert Add([], a[0].lock, [0, 1]) == AddResult(s1.lists[0], [1], true, true);
    assert s0.lists[0 := s1.lists[0]] == s1.lists && s1.lists[0 := s2.lists[0]] == s2.lists;
    assert Do(s0, a[0]) == (s1, Granted);
    assert s1.lists[0][1..] == [];
    assert Remove(s1.lists[0], a[1].lock, [1]) == ListResult(s2.lists[0], [1], true);
    assert Do(s1, a[1]) == (s2, Granted);
    assert s2.lists[0][1..] == [];
    assert Remove(s2.lists[0], a[2].lock, [1]) == ListResult(s2.lists[0], [1], true);
    assert s2.lists[0 := s2.lists[0]] == s2.lists;
    assert Do(s2, a[2]) == (s2, Granted);
    assert a[1..] == [a[1], a[2]] && a[1..][1..] == [a[2]] && a[1..][1..][1..] == [];
    assert Runs(s2, [a[2]], s2) && Runs(s1, a[1..], s2) && Runs(s0, a, s2);
  }
}
