/** Record locks: exclusion. */
module LockSafety {
  // What holds of the lists in runs in which no request wraps, what single requests do to the
  // lock map, and what requests mean in bytes.

  import opened LockRecords
  import opened LockAdding
  import opened WaitGraph
  import opened LockManager
  import opened LockTop
  import opened LockWaits

  // ----- runs -----

  /** The action is not a request that wraps, which the caller can see before the call. */
  ghost predicate HarmlessAction(s: State, a: Action)
    requires Enabled(s, a)
  {
    a.Retry? || a.Interrupt? || Harmless(s, a.ip, a.lock)
  }

  /** A run without requests that wrap. */
  ghost predicate HarmlessRuns(s: State, acts: seq<Action>, t: State)
    decreases |acts|
  {
    if acts == [] then s == t
    else && GoodPending(s) && Enabled(s, acts[0]) && HarmlessAction(s, acts[0])
         && HarmlessRuns(Do(s, acts[0]).0, acts[1..], t)
  }

  // ----- each step keeps the invariant -----

  lemma AddKeepsInv(s: State, p: nat, ip: nat, lock: Rec)
    requires Inv(s) && Idle(s, p, ip, lock) && Harmless(s, ip, lock) && Owners(s.lists[ip], lock) == {}
    ensures Inv(AddTo(s, ip, lock).0)
  {
    hide Add, NoWrap, NoClash, WaitInv;
    AddKeepsWaits(s, p, ip, lock);
    WaitsArePending(s);
    var t := AddTo(s, ip, lock).0;
    WaitsArePending(t);
    var L := s.lists[ip];
    AddIsWF(L, lock, s.free);
    assert forall i :: 0 <= i < |L| ==> Blocks(L[i], lock) ==> L[i].owner in Owners(L, lock);
    AddKeepsConflictFree(L, lock, s.free);
    AddKeepsNoClash(L, lock, s.free);
    forall q | 0 <= q < |t.pend| && t.pend[q].Some? ensures NoWrap(t.lists[t.pend[q].value.ip], t.pend[q].value.lock) {
      if t.pend[q].value.ip == ip { AddStaysHarmless(L, lock, s.free, t.pend[q].value.lock); }
    }
  }

  lemma WaitsArePending(s: State)
    requires WaitInv(s)
    ensures GoodPending(s)
  {
  }

  lemma RemoveKeepsInv(s: State, p: nat, ip: nat, lock: Rec)
    requires Inv(s) && Idle(s, p, ip, lock) && Harmless(s, ip, lock)
    ensures Inv(UnlockStep(s, ip, lock).0)
  {
    hide Remove, NoWrap, NoClash, WaitInv;
    RemoveKeepsWaits(s, p, ip, lock);
    WaitsArePending(s);
    var t := UnlockStep(s, ip, lock).0;
    WaitsArePending(t);
    var L := s.lists[ip];
    RemoveShrinks(L, lock, s.free);
    RemoveKeepsNoClash(L, lock, s.free);
    WithinKeepsConflictFree(L, t.lists[ip]);
    forall q | 0 <= q < |t.pend| && t.pend[q].Some? ensures NoWrap(t.lists[t.pend[q].value.ip], t.pend[q].value.lock) {
      if t.pend[q].value.ip == ip { RemoveStaysHarmless(L, lock, s.free, t.pend[q].value.lock); }
    }
  }

  lemma ResumeKeepsInv(s: State, p: nat)
    requires Inv(s) && p < |s.pend| && s.pend[p].Some?
    ensures Inv(Resume(s, p))
  {
    ResumeKeepsWaits(s, p);
  }

  lemma StepKeepsInv(s: State, a: Action)
    requires Inv(s) && Enabled(s, a) && HarmlessAction(s, a)
    ensures Inv(Do(s, a).0)
  {
    StepKeepsWaits(s, a);
    hide AddTo, Reach, Acyclic;
    match a
    case SetLock(p, ip, lock) =>
      if Owners(s.lists[ip], lock) == {} { AddKeepsInv(s, p, ip, lock); }
    case Unlock(p, ip, lock) =>
      RemoveKeepsInv(s, p, ip, lock);
    case WaitForLock(p, ip, lock) =>
      if Owners(s.lists[ip], lock) == {} {
        AddKeepsInv(s, p, ip, lock);
      } else if s.free != [] {
        SameWrap(s.lists[ip], lock, s.free[0]);
      }
    case Retry(p) =>
      ResumeKeepsInv(s, p);
      SleeperIsNotRefused(s, p);
      if Blockers(s, p) == {} {
        AddKeepsInv(Resume(s, p), p, s.pend[p].value.ip, s.pend[p].value.lock);
      }
    case Interrupt(p) =>
      ResumeKeepsInv(s, p);
  }

  /** How far the invariant reaches from which exclusion follows.  It speaks of no sleeper that
      would wrap and of no lock to the top offset beside one to the end of the file, so a lock or
      a sleep keeps it if and only if it does not wrap, or is refused; an unlock of canonical
      lists keeps it if and only if it does not turn an own record into one over everything.
      Which of the others break exclusion is said in `LockTop`. */
  lemma RequestKeepsInvIff(s: State, p: nat, ip: nat, lock: Rec)
    requires Inv(s) && Idle(s, p, ip, lock)
    ensures Inv(SetLockStep(s, ip, lock).0) <==> Harmless(s, ip, lock) || SetLockStep(s, ip, lock).1.Refused?
    ensures Inv(WaitStep(s, p, ip, lock).0) <==> Harmless(s, ip, lock) || WaitStep(s, p, ip, lock).1.Refused?
    ensures Canonical(s.lists[ip]) ==>
              (Inv(UnlockStep(s, ip, lock).0) <==>
               forall i :: 0 <= i < |s.lists[ip]| ==> !Overruns(s.lists[ip][i], lock, s.free))
  {
    hide Inv, Add, Remove, NoWrap, Canonical, ClosesCycle;
    InvLists(s, ip);
    if Harmless(s, ip, lock) {
      StepKeepsInv(s, SetLock(p, ip, lock));
      StepKeepsInv(s, WaitForLock(p, ip, lock));
      StepKeepsInv(s, Unlock(p, ip, lock));
      NothingOverruns(s.lists[ip], lock, s.free);
    } else {
      WrappingGrant(s, ip, lock);
      if s.free != [] { WrappingSleep(s, p, ip, lock); }
      if Canonical(s.lists[ip]) { WrappingUnlock(s, ip, lock); }
    }
  }

  lemma InvLists(s: State, ip: nat)
    requires Inv(s) && ip < |s.lists|
    ensures AllWF(s.lists[ip]) && NoClash(s.lists[ip]) && GoodPending(s)
  {
  }

  lemma BadList(t: State, ip: nat)
    requires ip < |t.lists| && (!AllWF(t.lists[ip]) || !NoClash(t.lists[ip]))
    ensures !Inv(t)
  {
    if Inv(t) { InvLists(t, ip); }
  }

  lemma WrappingGrant(s: State, ip: nat, lock: Rec)
    requires Inv(s) && ip < |s.lists| && WF(lock) && !Harmless(s, ip, lock)
    ensures Inv(AddTo(s, ip, lock).0) <==> AddTo(s, ip, lock).1.Refused?
  {
    hide Inv, Add, NoWrap, NoClash;
    InvLists(s, ip);
    var t := AddTo(s, ip, lock).0;
    WrappingClashes(s.lists[ip], lock, s.free);
    if s.free == [] {
      assert s.lists[ip := s.lists[ip]] == s.lists && t == s;
    } else {
      BadList(t, ip);
    }
  }

  lemma WrappingSleep(s: State, p: nat, ip: nat, lock: Rec)
    requires Inv(s) && Idle(s, p, ip, lock) && !Harmless(s, ip, lock) && s.free != []
    ensures !Inv(Suspend(s, p, ip, lock))
  {
    hide Acyclic;
    var t := Suspend(s, p, ip, lock);
    assert t.pend[p].Some? && t.lists[ip] == s.lists[ip];
    SameWrap(s.lists[ip], lock, s.free[0]);
  }

  lemma SameWrap(L: seq<Rec>, lock: Rec, id: nat)
    ensures NoWrap(L, lock.(id := id)) <==> NoWrap(L, lock)
  {
  }

  lemma NothingOverruns(L: seq<Rec>, lock: Rec, free: seq<nat>)
    requires AllWF(L) && WF(lock) && NoWrap(L, lock)
    ensures forall i :: 0 <= i < |L| ==> !Overruns(L[i], lock, free)
  {
    forall i | 0 <= i < |L| ensures !Overruns(L[i], lock, free) {
      if L[i].owner == lock.owner && L[i].end == -1 && lock.end == MAX_OFF { ToTheEndMeets(L[i], lock); }
    }
  }

  lemma WrappingUnlock(s: State, ip: nat, lock: Rec)
    requires Inv(s) && ip < |s.lists| && WF(lock) && !Harmless(s, ip, lock) && Canonical(s.lists[ip])
    ensures Inv(UnlockStep(s, ip, lock).0) <==>
            forall i :: 0 <= i < |s.lists[ip]| ==> !Overruns(s.lists[ip][i], lock, s.free)
  {
    hide Inv, Remove, Canonical;
    InvLists(s, ip);
    var L, t := s.lists[ip], UnlockStep(s, ip, lock).0;
    var i :| 0 <= i < |L| && L[i].owner == lock.owner && Meets(L[i], lock) && Wraps(L[i], lock);
    if Overruns(L[i], lock, s.free) {
      var k := OverrunIsThere(L, lock, s.free, i);
      assert !WF(t.lists[ip][k]);
      BadList(t, ip);
    } else {
      UnservedIsWhole(L, lock, i);
      assert s.lists[ip := s.lists[ip]] == s.lists && t == s;
      forall j | 0 <= j < |L| ensures !Overruns(L[j], lock, s.free) {
        if j != i && Overruns(L[j], lock, s.free) { assert Apart(L[i], L[j]) by { OnlyApart(L, i, j); } }
      }
    }
  }

  lemma OnlyApart(L: seq<Rec>, i: int, j: int)
    requires Canonical(L) && 0 <= i < |L| && 0 <= j < |L| && i != j
    ensures Apart(L[i], L[j])
  {
  }

  /** In every run without requests that wrap the lists are well formed and free of conflicts. */
  lemma {:induction false} RunKeepsInv(s: State, acts: seq<Action>, t: State)
    requires Inv(s) && HarmlessRuns(s, acts, t)
    ensures Inv(t)
    decreases |acts|
  {
    if acts != [] {
      StepKeepsInv(s, acts[0]);
      RunKeepsInv(Do(s, acts[0]).0, acts[1..], t);
    }
  }

  lemma InitialInv(inodes: nat, procs: nat, records: nat)
    ensures Inv(Initial(inodes, procs, records))
  {
    InitialWaits(inodes, procs, records);
  }

  // ----- the lock map -----

  ghost predicate AllCanonical(s: State) {
    forall f {:trigger s.lists[f]} :: 0 <= f < |s.lists| ==> Canonical(s.lists[f])
  }

  /** Only the lock map of the caller on one inode changes, on the requested range: to the
      requested type, or to nothing. */
  ghost predicate MapSet(s: State, t: State, p: nat, ip: nat, lock: Rec, held: bool)
    requires ip < |s.lists| == |t.lists|
  {
    forall f: nat, q: Proc, w: bool, b: nat :: f < |s.lists| ==>
      (Held(t.lists[f], q, w, b) <==>
          if f == ip && q == p && Covers(lock, b) then held && w == lock.write else Held(s.lists[f], q, w, b))
  }

  /** With enough free records, which the caller can see before the call, a request is granted,
      sets the caller's lock map to the requested type exactly on the requested bytes of the
      one inode, and keeps the canonical form; at the top offset it keeps it exactly when it
      does not touch an own lock of the type from above. */
  lemma GrantIsExact(s: State, p: nat, ip: nat, lock: Rec)
    requires Inv(s) && AllCanonical(s) && Idle(s, p, ip, lock) && Harmless(s, ip, lock)
    requires Enough(s.lists[ip], lock, s.free)
    ensures var (t, r) := AddTo(s, ip, lock);
            r == Granted && |t.lists| == |s.lists| && MapSet(s, t, p, ip, lock, true)
    ensures AllCanonical(AddTo(s, ip, lock).0) <==> (lock.end == MAX_OFF ==> !TouchedBelow(s.lists[ip], lock))
  {
    hide Add, Enough, Canonical, NoWrap, Held, TouchedBelow;
    var t := AddTo(s, ip, lock).0;
    AddServedIff(s.lists[ip], lock, s.free);
    AddCanonicalIff(s.lists[ip], lock, s.free);
    assert Canonical(t.lists[ip]) <==> Canonical(Add(s.lists[ip], lock, s.free).list);
    forall q: Proc, w: bool, b: nat
      ensures Held(Add(s.lists[ip], lock, s.free).list, q, w, b) <==>
              if q == p && Covers(lock, b) then w == lock.write else Held(s.lists[ip], q, w, b)
    {
      AddIsExact(s.lists[ip], lock, s.free, q, w, b);
    }
  }

  /** An unlock is served exactly when a record is free or no own lock reaches beyond the range
      on both sides, and then clears the caller's lock map exactly on the requested bytes; else
      nothing changes. */
  lemma UnlockIsExact(s: State, p: nat, ip: nat, lock: Rec)
    requires Inv(s) && Idle(s, p, ip, lock) && Harmless(s, ip, lock)
    ensures var (t, r) := UnlockStep(s, ip, lock);
            && |t.lists| == |s.lists| && (r == Granted ==> MapSet(s, t, p, ip, lock, false))
            && (AllCanonical(s) ==>
                && AllCanonical(t) && (r == Granted <==> s.free != [] || !SomeCutInTwo(s.lists[ip], lock))
                && (r == Granted || t == s))
  {
    hide Remove, Canonical, NoWrap, Held;
    if AllCanonical(s) {
      RemoveKeepsCanonical(s.lists[ip], lock, s.free);
      RemoveServedIff(s.lists[ip], lock, s.free);
      if !Remove(s.lists[ip], lock, s.free).ok {
        var i :| 0 <= i < |s.lists[ip]| && CutInTwo(s.lists[ip][i], lock);
        UnservedIsWhole(s.lists[ip], lock, i);
        assert s.lists[ip := s.lists[ip]] == s.lists;
      }
    }
    if Remove(s.lists[ip], lock, s.free).ok {
      forall q: Proc, w: bool, b: nat
        ensures Held(Remove(s.lists[ip], lock, s.free).list, q, w, b) <==>
                Held(s.lists[ip], q, w, b) && !(q == p && Covers(lock, b))
      {
        RemoveIsExact(s.lists[ip], lock, s.free, q, w, b);
      }
    }
  }

  /** When requests run out of records. */
  lemma NoRecordsIff(s: State, p: nat, ip: nat, lock: Rec)
    requires Idle(s, p, ip, lock)
    ensures SetLockStep(s, ip, lock).1 == Refused(ENOLCK) <==>
            Owners(s.lists[ip], lock) == {} && s.free == [] && !SomeAbsorbed(s.lists[ip], lock)
    ensures WaitStep(s, p, ip, lock).1 == Refused(ENOLCK) <==>
            s.free == [] && (Owners(s.lists[ip], lock) != {} || !SomeAbsorbed(s.lists[ip], lock))
    ensures AllWF(s.lists[ip]) && Canonical(s.lists[ip]) && Harmless(s, ip, lock) ==>
              (UnlockStep(s, ip, lock).1 == Refused(ENOLCK) <==> s.free == [] && SomeCutInTwo(s.lists[ip], lock))
  {
    hide Add, Remove, Canonical, NoWrap, SomeAbsorbed, ClosesCycle;
    GrantedIff(s.lists[ip], lock, s.free);
    if AllWF(s.lists[ip]) && Canonical(s.lists[ip]) { RemoveServedIff(s.lists[ip], lock, s.free); }
  }

  /** Two processes never hold conflicting locks on a byte. */
  lemma NoTwoHoldersConflict(s: State, f: nat, b: nat, q: Proc, r: Proc, w: bool)
    requires Inv(s) && f < |s.lists| && q != r
    ensures !(Held(s.lists[f], q, true, b) && Held(s.lists[f], r, w, b))
  {
    var L := s.lists[f];
    if Held(L, q, true, b) {
      var i :| 0 <= i < |L| && HeldBy(L[i], q, true, b);
      forall j | 0 <= j < |L| ensures !HeldBy(L[j], r, w, b) {
        assert !Blocks(L[i], L[j]);
        MeetsIffShareByte(L[i], L[j]);
      }
    }
  }

  /** Whatever the processes do from the start, in whatever order: as long as no request wraps,
      no two of them hold conflicting locks. */
  lemma ReachableIsSafe(inodes: nat, procs: nat, records: nat, acts: seq<Action>, t: State)
    requires HarmlessRuns(Initial(inodes, procs, records), acts, t)
    ensures forall f: nat, b: nat, q: Proc, r: Proc, w: bool :: f < |t.lists| && q != r ==>
              !(Held(t.lists[f], q, true, b) && Held(t.lists[f], r, w, b))
  {
    hide Held;
    InitialInv(inodes, procs, records);
    RunKeepsInv(Initial(inodes, procs, records), acts, t);
    forall f: nat, b: nat, q: Proc, r: Proc, w: bool | f < |t.lists| && q != r
      ensures !(Held(t.lists[f], q, true, b) && Held(t.lists[f], r, w, b))
    {
      NoTwoHoldersConflict(t, f, b, q, r, w);
    }
  }

  // ----- requests as the caller states them -----

  datatype Whence = SeekSet | SeekCur | SeekEnd

  predicate IsOffset(x: int) {
    -MAX_OFF - 1 <= x <= MAX_OFF
  }

  /** The low 32 bits of a number, with their sign. */
  function Signed(x: int): (r: int)
    ensures IsOffset(r) && (IsOffset(x) ==> r == x)
  {
    (x + MAX_OFF + 1) % 0x1_0000_0000 - MAX_OFF - 1
  }

  lemma SignedAround(x: int)
    ensures MAX_OFF < x <= 2 * MAX_OFF + 1 ==> Signed(x) == x - 0x1_0000_0000
    ensures -2 * MAX_OFF - 2 <= x < -MAX_OFF - 1 ==> Signed(x) == x + 0x1_0000_0000
  {
  }

  /** Where the range of a request begins, as the caller means it. */
  function Base(whence: Whence, start: int, seek: int, size: int): int {
    start + match whence case SeekSet => 0 case SeekCur => seek case SeekEnd => size
  }

  /** The range from `base` on that is `len` long, as `rlock` computes it in 32 bits; None is
      EINVAL. */
  function Range(base: int, len: int): Option<(int, int)> {
    var (s, e) := if len > 0 then (Signed(base), Signed(Signed(base) + (len - 1)))
                  else if len == 0 then (Signed(base), -1)
                  else (Signed(Signed(base) + len), Signed(Signed(base) - 1));
    if s < 0 || e < -1 || (e != -1 && s > e) then None else Some((s, e))
  }

  /** The range that `rlock` derives from a request. */
  function Resolve(whence: Whence, start: int, len: int, seek: int, size: int): Option<(int, int)> {
    Range(Base(whence, start, seek, size), len)
  }

  /** The byte `b` counted from the start of the file lies in the requested range. */
  predicate Requested(base: int, len: int, b: int) {
    if len > 0 then base <= b < base + len else if len == 0 then base <= b else base + len <= b < base
  }

  /** All requested bytes have offsets; a range to the end of the file begins at one. */
  ghost predicate HasOffsets(base: int, len: int) {
    if len == 0 then 0 <= base <= MAX_OFF else forall b :: Requested(base, len, b) ==> 0 <= b <= MAX_OFF
  }

  /** The range covers exactly the requested bytes. */
  ghost predicate SameBytes(base: int, len: int, r: (int, int)) {
    forall b :: Covers(Rec(0, false, r.0, r.1, 0), b) <==> Requested(base, len, b)
  }

  /** The request is accepted exactly when its bytes have offsets, and then the record covers
      exactly those bytes. */
  ghost predicate ResolvedRight(base: int, len: int, r: Option<(int, int)>) {
    && (r.Some? <==> HasOffsets(base, len))
    && (r.Some? ==> SameBytes(base, len, r.value))
  }

  lemma HasOffsetsIff(base: int, len: int)
    requires len != 0
    ensures HasOffsets(base, len) <==>
              if len > 0 then 0 <= base && base + len - 1 <= MAX_OFF else 0 <= base + len && base - 1 <= MAX_OFF
  {
    var low := if len < 0 then base + len else base;
    var high := if len < 0 then base - 1 else base + len - 1;
    assert Requested(base, len, low) && Requested(base, len, high);
  }

  lemma SameBytesIff(base: int, len: int, r: (int, int))
    requires WF(Rec(0, false, r.0, r.1, 0)) && len != 0
    ensures SameBytes(base, len, r) <==> r == if len > 0 then (base, base + len - 1) else (base + len, base - 1)
  {
    var low := if len < 0 then base + len else base;
    var high := if len < 0 then base - 1 else base + len - 1;
    assert Requested(base, len, low) && Requested(base, len, high) && !Requested(base, len, high + 1);
    var rec := Rec(0, false, r.0, r.1, 0);
    assert Covers(rec, r.0) && Covers(rec, if r.1 != -1 then r.1 else if high < r.0 then r.0 else high + 1);
    if SameBytes(base, len, r) {
      assert Covers(rec, low) && Covers(rec, high) && !Covers(rec, high + 1);
    }
  }

  /** What is computed, without the arithmetic of 32 bits. */
  lemma RangeIs(base: int, len: int)
    requires -MAX_OFF - 1 <= base <= 2 * MAX_OFF && IsOffset(len)
    ensures base > MAX_OFF + 1 || (len >= 0 && !(0 <= base <= MAX_OFF)) ==> Range(base, len).None?
    ensures 0 <= base <= MAX_OFF && len > 0 ==>
              Range(base, len) == if base + len - 1 > MAX_OFF then None else Some((base, base + len - 1))
    ensures -MAX_OFF - 1 < base <= MAX_OFF && len < 0 ==>
              Range(base, len) == if base + len < 0 then None else Some((base + len, base - 1))
    ensures (base == -MAX_OFF - 1 || base == MAX_OFF + 1) && len < 0 ==>
              Range(base, len) == Some((MAX_OFF + 1 + len, MAX_OFF))
    ensures 0 <= base <= MAX_OFF ==> Range(base, 0) == Some((base, -1))
  {
    var s := Signed(base);
    SignedAround(base);
    SignedAround(s + (len - 1));
    SignedAround(s + len);
    SignedAround(s - 1);
    hide Signed;
  }

  /** A request is taken as it was meant if and only if it does not reach back from the lowest
      offset: then both ends wrap around, and a range of the file is locked. */
  lemma ResolveIsTheRequestedRange(whence: Whence, start: int, len: int, seek: int, size: int)
    requires IsOffset(start) && IsOffset(len) && 0 <= seek <= MAX_OFF && 0 <= size <= MAX_OFF
    ensures var base := start + if whence == SeekSet then 0 else if whence == SeekCur then seek else size;
            ResolvedRight(base, len, Resolve(whence, start, len, seek, size)) <==> !(base == -MAX_OFF - 1 && len < 0)
    ensures Resolve(whence, start, len, seek, size).Some? ==>
              var (s, e) := Resolve(whence, start, len, seek, size).value; WF(Rec(0, false, s, e, 0))
  {
    hide Range, HasOffsets, SameBytes;
    var base := Base(whence, start, seek, size);
    RangeIs(base, len);
    var r := Range(base, len);
    if len == 0 {
      ToTheEndIsMeant(base);
    } else {
      HasOffsetsIff(base, len);
      if r.Some? { SameBytesIff(base, len, r.value); }
    }
  }

  /** A range counted from the seek position, or from the end of the file, is one that begins
      that much further on. */
  lemma WhenceIsRelative(start: int, len: int, seek: int, size: int, x: int, y: int)
    ensures Resolve(SeekCur, start, len, seek, size) == Resolve(SeekSet, start + seek, len, x, y)
    ensures Resolve(SeekEnd, start, len, seek, size) == Resolve(SeekSet, start + size, len, x, y)
  {
  }

  lemma ToTheEndIsMeant(base: int)
    ensures HasOffsets(base, 0) <==> 0 <= base <= MAX_OFF
    ensures 0 <= base ==> SameBytes(base, 0, (base, -1))
  {
  }

  /** The range that F_GETLK reports, used in a request, names the bytes of the record, if and
      only if its length can be reported: not for a record from 0 to the top offset. */
  lemma ReportedRangeResolves(r: Rec, seek: int, size: int)
    requires WF(r) && 0 <= seek <= MAX_OFF && 0 <= size <= MAX_OFF
    ensures Resolve(SeekSet, Report(r).0, Report(r).1, seek, size) == Some((r.start, r.end)) <==>
              !(r.start == 0 && r.end == MAX_OFF)
  {
    hide Range;
    RangeIs(Report(r).0, Report(r).1);
  }
}
