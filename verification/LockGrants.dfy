/** Record locks: what the answers to requests mean. */
module LockGrants {
  // Every answer of the three steps that may install a lock, seen in the lock maps of the
  // processes, and for whom it is given.

  import opened LockRecords
  import opened LockAdding
  import opened WaitGraph
  import opened LockManager
  import opened LockTop
  import opened LockWaits
  import opened LockSafety
  import opened LockClose

  /** The process holds the requested type on every requested byte. */
  ghost predicate Has(s: State, p: Proc, ip: nat, lock: Rec)
    requires ip < |s.lists|
  {
    forall b: nat :: Covers(lock, b) ==> Held(s.lists[ip], p, lock.write, b)
  }

  /** Somebody else holds a requested byte, and one of the two is for writing. */
  ghost predicate Contended(s: State, p: Proc, ip: nat, lock: Rec)
    requires ip < |s.lists|
  {
    exists q: Proc, w: bool, b: nat ::
      q != p && Covers(lock, b) && Held(s.lists[ip], q, w, b) && (w || lock.write)
  }

  lemma MeetingFormed(r: Rec, lock: Rec)
    requires Formed(r) && WF(lock)
    ensures Meets(r, lock) <==> exists b: nat :: Covers(r, b) && Covers(lock, b)
  {
    var m: nat := if r.start < lock.start then lock.start else r.start;
    if Meets(r, lock) { assert Covers(r, m) && Covers(lock, m); }
  }

  lemma OwnersIffContended(s: State, p: Proc, ip: nat, lock: Rec)
    requires FormedState(s) && ip < |s.lists| && WF(lock) && lock.owner == p
    ensures Owners(s.lists[ip], lock) != {} <==> Contended(s, p, ip, lock)
  {
    var L := s.lists[ip];
    if q :| q in Owners(L, lock) {
      var i :| 0 <= i < |L| && Blocks(L[i], lock);
      MeetingFormed(L[i], lock);
      var b: nat :| Covers(L[i], b) && Covers(lock, b);
      assert HeldBy(L[i], L[i].owner, L[i].write, b);
      assert Held(L, L[i].owner, L[i].write, b);
    }
    if Contended(s, p, ip, lock) {
      var q: Proc, w: bool, b: nat :| q != p && Covers(lock, b) && Held(L, q, w, b) && (w || lock.write);
      var i :| 0 <= i < |L| && HeldBy(L[i], q, w, b);
      MeetingFormed(L[i], lock);
      assert L[i].owner in Owners(L, lock);
    }
  }

  /** What is installed covers the request, whatever ranges there are. */
  lemma AddedHas(s: State, p: Proc, ip: nat, lock: Rec)
    requires ip < |s.lists| && lock.owner == p
    ensures var (t, r) := AddTo(s, ip, lock);
            if r == Granted then |t.lists| == |s.lists| && Has(t, p, ip, lock) && t.pend == s.pend
            else t == s && r == Refused(ENOLCK) && s.free == [] && !SomeAbsorbed(s.lists[ip], lock)
    ensures AddTo(s, ip, lock).1 == Granted <==> s.free != [] || SomeAbsorbed(s.lists[ip], lock)
  {
    hide Absorb, Remove, Widen, SomeAbsorbed;
    var L := s.lists[ip];
    var m := Absorb(L, Widen(lock), lock.start, lock.end, s.free);
    GrantedIff(L, lock, s.free);
    if m.free == [] {
      AbsorbKeeps(L, Widen(lock), lock.start, lock.end, s.free);
      assert s.lists[ip := L] == s.lists;
    } else {
      GrowsOutward(L, Widen(lock), lock.start, lock.end, s.free);
      var A := Add(L, lock, s.free).list;
      forall b: nat | Covers(lock, b) ensures Held(A, p, lock.write, b) {
        assert HeldBy(A[0], p, lock.write, b);
      }
    }
  }

  /** With enough records nothing else changes. */
  lemma AddedIsExact(s: State, p: Proc, ip: nat, lock: Rec)
    requires Inv(s) && AllCanonical(s) && Idle(s, p, ip, lock) && Harmless(s, ip, lock)
    ensures Enough(s.lists[ip], lock, s.free) ==>
              |AddTo(s, ip, lock).0.lists| == |s.lists| && MapSet(s, AddTo(s, ip, lock).0, p, ip, lock, true)
  {
    if Enough(s.lists[ip], lock, s.free) { GrantIsExact(s, p, ip, lock); }
  }

  /** F_SETLK: refused with EACCES exactly when a requested byte is contended, with ENOLCK
      exactly when no record is free or merged; otherwise the caller has the lock, and with
      enough records nothing else has changed.  A refusal changes nothing. */
  lemma SetLockAnswer(s: State, p: Proc, ip: nat, lock: Rec)
    requires FormedState(s) && Idle(s, p, ip, lock)
    ensures var (t, r) := SetLockStep(s, ip, lock);
            if Contended(s, p, ip, lock) then r == Refused(EACCES) && t == s
            else if s.free == [] && !SomeAbsorbed(s.lists[ip], lock) then r == Refused(ENOLCK) && t == s
            else r == Granted && |t.lists| == |s.lists| && Has(t, p, ip, lock) && t.pend == s.pend
    ensures var (t, r) := SetLockStep(s, ip, lock);
            Inv(s) && AllCanonical(s) && Harmless(s, ip, lock) && Enough(s.lists[ip], lock, s.free) && r == Granted ==>
              |t.lists| == |s.lists| && MapSet(s, t, p, ip, lock, true)
  {
    hide AddTo, SomeAbsorbed, Enough, Has, MapSet, Inv, AllCanonical, Harmless;
    OwnersIffContended(s, p, ip, lock);
    AddedHas(s, p, ip, lock);
    if Inv(s) && AllCanonical(s) && Harmless(s, ip, lock) { AddedIsExact(s, p, ip, lock); }
  }

  /** The state in which `p` sleeps: its request is pending in the record that was free first,
      and nothing else has changed. */
  ghost predicate FellAsleep(s: State, t: State, p: Proc, ip: nat, lock: Rec) {
    && p < |s.pend| == |t.pend| && t.lists == s.lists && s.free != [] && t.free == s.free[1..]
    && t.pend[p] == Some(Pend(ip, lock.(id := s.free[0])))
    && forall q :: 0 <= q < |s.pend| && q != p ==> t.pend[q] == s.pend[q]
  }

  /** F_SETLKW, up to its sleep: granted like F_SETLK when no requested byte is contended.
      Otherwise it needs a record, and sleeps exactly when that leaves no cycle of waits. */
  lemma WaitAnswer(s: State, p: Proc, ip: nat, lock: Rec)
    requires WaitInv(s) && FormedState(s) && Idle(s, p, ip, lock)
    ensures var (t, r) := WaitStep(s, p, ip, lock);
            if s.free == [] && (Contended(s, p, ip, lock) || !SomeAbsorbed(s.lists[ip], lock)) then
              r == Refused(ENOLCK) && t == s
            else if !Contended(s, p, ip, lock) then
              r == Granted && |t.lists| == |s.lists| && Has(t, p, ip, lock) && t.pend == s.pend
            else if r == Asleep then FellAsleep(s, t, p, ip, lock) && Acyclic(WaitEdges(t))
            else && r == Refused(EDEADLK) && t == s
                 && forall u :: FellAsleep(s, u, p, ip, lock) ==> !Acyclic(WaitEdges(u))
    ensures var (t, r) := WaitStep(s, p, ip, lock);
            Inv(s) && AllCanonical(s) && Harmless(s, ip, lock) && Enough(s.lists[ip], lock, s.free) && r == Granted ==>
              |t.lists| == |s.lists| && MapSet(s, t, p, ip, lock, true)
  {
    hide AddTo, SomeAbsorbed, Enough, Has, MapSet, Inv, AllCanonical, Harmless, Acyclic, WaitEdges, WaitInv,
         ClosesCycle;
    OwnersIffContended(s, p, ip, lock);
    AddedHas(s, p, ip, lock);
    if Inv(s) && AllCanonical(s) && Harmless(s, ip, lock) { AddedIsExact(s, p, ip, lock); }
    if s.free != [] {
      RefusedIffCycle(s, p, ip, lock);
      forall u | FellAsleep(s, u, p, ip, lock) ensures u == Suspend(s, p, ip, lock) {
        assert u.pend == Suspend(s, p, ip, lock).pend;
      }
    }
  }

  /** F_SETLKW after its sleep: asleep again, with nothing changed, exactly when a requested
      byte is contended.  Otherwise the request is no longer pending and the caller has the
      lock: it always gets a record, since that of the pending request is free. */
  lemma RetryAnswer(s: State, p: Proc)
    requires WaitInv(s) && FormedState(s) && p < |s.pend| && s.pend[p].Some?
    ensures var (t, r) := RetryStep(s, p);
            var (ip, lock) := (s.pend[p].value.ip, s.pend[p].value.lock);
            if Contended(s, p, ip, lock) then r == Asleep && t == s
            else && r == Granted && |t.lists| == |s.lists| && Has(t, p, ip, lock)
                 && t.pend == s.pend[p := None]
    ensures var (t, r) := RetryStep(s, p);
            var (ip, lock) := (s.pend[p].value.ip, s.pend[p].value.lock);
            Inv(s) && AllCanonical(s) && Enough(s.lists[ip], lock, [lock.id] + s.free) && r == Granted ==>
              |t.lists| == |s.lists| && MapSet(s, t, p, ip, lock, true)
  {
    hide AddTo, SomeAbsorbed, Enough, Has, MapSet, Acyclic, ClosesCycle;
    var ip, lock, u := s.pend[p].value.ip, s.pend[p].value.lock, Resume(s, p);
    SleeperIsNotRefused(s, p);
    OwnersIffContended(s, p, ip, lock);
    AddedHas(u, p, ip, lock);
    if Inv(s) && AllCanonical(s) {
      ResumeKeepsInv(s, p);
      AddedIsExact(u, p, ip, lock);
      if Enough(s.lists[ip], lock, [lock.id] + s.free) { SameMap(s, u, RetryStep(s, p).0, p, ip, lock); }
    }
  }

  lemma SameMap(s: State, u: State, t: State, p: Proc, ip: nat, lock: Rec)
    requires s.lists == u.lists && |t.lists| == |s.lists| && ip < |s.lists|
    ensures MapSet(u, t, p, ip, lock, true) ==> MapSet(s, t, p, ip, lock, true)
  {
  }

  /** Whatever processes have done since the start, with whatever ranges: whenever a request is
      granted, at once or after a sleep, nobody contended a byte of it, and the caller holds all
      of it. */
  lemma ReachableGrant(inodes: nat, procs: nat, records: nat, acts: seq<Action>, s: State, a: Action)
    requires Runs(Initial(inodes, procs, records), acts, s) && Enabled(s, a) && !a.Unlock? && !a.Interrupt?
    ensures GoodPending(s)
    ensures Do(s, a).1 == Granted ==>
              var (ip, lock) := if a.Retry? then (s.pend[a.p].value.ip, s.pend[a.p].value.lock) else (a.ip, a.lock);
              var t := Do(s, a).0;
              ip < |s.lists| == |t.lists| && !Contended(s, a.p, ip, lock) && Has(t, a.p, ip, lock)
  {
    hide Runs, Contended, Has, WaitInv, Inv, MapSet, AllCanonical;
    var s0 := Initial(inodes, procs, records);
    InitialWaits(inodes, procs, records);
    RunKeepsWaits(s0, acts, s);
    RunKeepsFormed(s0, acts, s);
    match a
    case SetLock(p, ip, lock) => SetLockAnswer(s, p, ip, lock);
    case WaitForLock(p, ip, lock) => WaitAnswer(s, p, ip, lock);
    case Retry(p) => RetryAnswer(s, p);
  }

  // ----- granted without enough records -----

  /** When the last free record goes into the lock and none is left for cutting the own lock of
      the other type around it, that stays as it is. */
  lemma UnservedGrant(L: seq<Rec>, lock: Rec, free: seq<nat>)
    requires AllWF(L) && WF(lock) && Canonical(L) && NoWrap(L, lock)
    requires Add(L, lock, free).granted && !Enough(L, lock, free)
    ensures |free| == 1 && Surrounded(L, lock)
    ensures Add(L, lock, free).list == [lock.(id := free[0])] + L && Add(L, lock, free).free == []
  {
    hide Canonical, Remove, NoWrap, Absorbs, CutInTwo, Meets;
    var wide := Widen(lock);
    GrantedIff(L, lock, free);
    AddServedIff(L, lock, free);
    AbsorbGives(L, wide, lock.start, lock.end, free);
    if SomeAbsorbed(L, lock) { NothingAroundMerged(L, lock, free); }
    var i :| 0 <= i < |L| && CutInTwo(L[i], lock) && !Absorbs(L[i], wide);
    var grown := lock.(id := free[0]);
    assert CutInTwo(L[i], grown) by { SameCut(L[i], lock, grown); }
    UnservedIsWhole(L, grown, i);
    assert free[1..] == [];
  }

  lemma SameCut(r: Rec, lock: Rec, grown: Rec)
    requires grown == lock.(id := grown.id)
    ensures CutInTwo(r, grown) <==> CutInTwo(r, lock)
  {
  }

  /** A granted request that does not wrap changes the lock map exactly as asked if and only if
      there are enough records; otherwise the caller holds its old type there as well. */
  lemma GrantExactIffEnough(L: seq<Rec>, lock: Rec, free: seq<nat>)
    requires AllWF(L) && WF(lock) && Canonical(L) && NoWrap(L, lock) && Add(L, lock, free).granted
    ensures IsSet(L, lock, Add(L, lock, free).list) <==> Enough(L, lock, free)
    ensures !Enough(L, lock, free) ==> forall q: Proc, w: bool, b: nat ::
              Held(Add(L, lock, free).list, q, w, b) <==>
              Held(L, q, w, b) || (q == lock.owner && w == lock.write && Covers(lock, b))
  {
    hide Add, Canonical, NoWrap, Enough, Held, Meets;
    var A := Add(L, lock, free).list;
    if Enough(L, lock, free) {
      AddExactIff(L, lock, free);
    } else {
      UnservedGrant(L, lock, free);
      forall q: Proc, w: bool, b: nat
        ensures Held(A, q, w, b) <==> Held(L, q, w, b) || (q == lock.owner && w == lock.write && Covers(lock, b))
      {
        HeldCons(lock.(id := free[0]), L, q, w, b);
      }
      StillHeld(L, lock);
      assert Covers(lock, lock.start) && Held(A, lock.owner, !lock.write, lock.start);
    }
  }

  /** The own lock around the request has the other type. */
  lemma StillHeld(L: seq<Rec>, lock: Rec)
    requires AllWF(L) && WF(lock) && NoWrap(L, lock) && Surrounded(L, lock)
    ensures Held(L, lock.owner, !lock.write, lock.start)
  {
    var i :| 0 <= i < |L| && CutInTwo(L[i], lock) && !Absorbs(L[i], Widen(lock));
    assert HeldBy(L[i], lock.owner, !lock.write, lock.start);
  }
}
