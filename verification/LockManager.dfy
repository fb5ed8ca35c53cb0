/** The record-lock manager. */
module LockManager {
  // The lock lists of all inodes, the free list, and the pending lock of each process.  Each
  // method is one stretch of code that runs with the global lock-list gate held, so any
  // interleaving of processes is a sequence of these steps; sleeping inside `waitlock`
  // separates `WaitForLock` from `Retry`.

  import opened LockRecords
  import opened LockAdding
  import opened WaitGraph
  import opened FiniteSets

  datatype Option<+T> = None | Some(value: T)

  /** A pending lock: the inode it waits on and the desired lock, kept in a pool record. */
  datatype Pend = Pend(ip: nat, lock: Rec)

  datatype State = State(lists: seq<seq<Rec>>, free: seq<nat>, pend: seq<Option<Pend>>)

  datatype Outcome = Granted | Asleep | Refused(errno: Errno)
  datatype Errno = EACCES | ENOLCK | EDEADLK | EINTR | EINVAL

  // ----- the wait-for graph -----

  function Owners(L: seq<Rec>, lock: Rec): set<nat> {
    set r | r in L && Blocks(r, lock) :: r.owner
  }

  /** The processes that hold a lock in the way of what `p` waits for. */
  function Blockers(s: State, p: nat): set<nat> {
    if p < |s.pend| && s.pend[p].Some? && s.pend[p].value.ip < |s.lists| then
      Owners(s.lists[s.pend[p].value.ip], s.pend[p].value.lock)
    else {}
  }

  /** `(p, q)` is an edge when the pending lock of `p` conflicts with a lock of `q`. */
  function WaitEdges(s: State): Graph {
    set p, q | 0 <= p < |s.pend| && q in Blockers(s, p) :: (p, q)
  }

  // ----- the invariants -----

  /** Every record belongs to a process. */
  ghost predicate GoodOwners(s: State) {
    forall f, i :: 0 <= f < |s.lists| && 0 <= i < |s.lists[f]| ==> s.lists[f][i].owner < |s.pend|
  }

  /** Who sleeps waits for a lock of its own on an inode. */
  ghost predicate GoodPending(s: State) {
    forall p {:trigger s.pend[p]} :: 0 <= p < |s.pend| && s.pend[p].Some? ==>
      s.pend[p].value.ip < |s.lists| && s.pend[p].value.lock.owner == p
  }

  /** What holds of the waits, whatever ranges processes ask for. */
  ghost predicate WaitInv(s: State) {
    GoodOwners(s) && GoodPending(s) && Acyclic(WaitEdges(s))
  }

  ghost predicate GoodLists(s: State) {
    forall f {:trigger s.lists[f]} :: 0 <= f < |s.lists| ==>
      AllWF(s.lists[f]) && NoClash(s.lists[f]) && ConflictFree(s.lists[f])
  }

  /** No pending request ends at the top offset inside a lock of its process to the end of
      the file. */
  ghost predicate HarmlessPending(s: State)
    requires GoodPending(s)
  {
    forall p {:trigger s.pend[p]} :: 0 <= p < |s.pend| && s.pend[p].Some? ==>
        WF(s.pend[p].value.lock) && NoWrap(s.lists[s.pend[p].value.ip], s.pend[p].value.lock)
  }

  /** What holds of the lists too, as long as no request wraps. */
  ghost predicate Inv(s: State) {
    WaitInv(s) && GoodLists(s) && HarmlessPending(s)
  }

  /** A request that does not wrap: it does not end at the top offset, or the caller has no
      lock to the end of that file. */
  ghost predicate Harmless(s: State, ip: nat, lock: Rec)
    requires ip < |s.lists|
  {
    NoWrap(s.lists[ip], lock)
  }

  // ----- the steps -----

  ghost function AddTo(s: State, ip: nat, lock: Rec): (State, Outcome)
    requires ip < |s.lists|
  {
    var a := Add(s.lists[ip], lock, s.free);
    (s.(lists := s.lists[ip := a.list], free := a.free), if a.granted then Granted else Refused(ENOLCK))
  }

  /** The caller's record goes onto the pending slot, or back to the free list. */
  function Suspend(s: State, p: nat, ip: nat, lock: Rec): State
    requires s.free != [] && p < |s.pend|
  {
    s.(free := s.free[1..], pend := s.pend[p := Some(Pend(ip, lock.(id := s.free[0])))])
  }

  function Resume(s: State, p: nat): State
    requires p < |s.pend| && s.pend[p].Some?
  {
    s.(free := [s.pend[p].value.lock.id] + s.free, pend := s.pend[p := None])
  }

  /** Some process in the way of `p` waits, directly or not, for `p`. */
  ghost predicate ClosesCycle(s: State, p: nat) {
    exists q :: q in Blockers(s, p) && Reach(WaitEdges(s), q, p)
  }

  ghost predicate Idle(s: State, p: nat, ip: nat, lock: Rec) {
    p < |s.pend| && s.pend[p].None? && ip < |s.lists| && WF(lock) && lock.owner == p
  }

  ghost function SetLockStep(s: State, ip: nat, lock: Rec): (State, Outcome)
    requires ip < |s.lists|
  {
    if Owners(s.lists[ip], lock) != {} then (s, Refused(EACCES)) else AddTo(s, ip, lock)
  }

  ghost function UnlockStep(s: State, ip: nat, lock: Rec): (State, Outcome)
    requires ip < |s.lists|
  {
    var r := Remove(s.lists[ip], lock, s.free);
    (s.(lists := s.lists[ip := r.list], free := r.free), if r.ok then Granted else Refused(ENOLCK))
  }

  ghost function WaitStep(s: State, p: nat, ip: nat, lock: Rec): (State, Outcome)
    requires ip < |s.lists| && p < |s.pend|
  {
    if Owners(s.lists[ip], lock) == {} then AddTo(s, ip, lock)
    else if s.free == [] then (s, Refused(ENOLCK))
    else if ClosesCycle(Suspend(s, p, ip, lock), p) then (s, Refused(EDEADLK))
    else (Suspend(s, p, ip, lock), Asleep)
  }

  ghost function RetryStep(s: State, p: nat): (State, Outcome)
    requires p < |s.pend| && s.pend[p].Some? && s.pend[p].value.ip < |s.lists|
  {
    var w := s.pend[p].value;
    if Blockers(s, p) == {} then AddTo(Resume(s, p), w.ip, w.lock)
    else if ClosesCycle(s, p) then (Resume(s, p), Refused(EDEADLK))
    else (s, Asleep)
  }

  /** How F_GETLK reports the range of a record; length 0 means up to the end of the file. */
  function Report(r: Rec): (int, int) {
    (r.start, if r.end == -1 then 0 else Succ(r.end - r.start))
  }

  class LockTable {
    var lists: seq<seq<Rec>>       // i_rl of every inode, head first
    var freerl: seq<nat>           // free pool records, head first
    var prl: seq<Option<Pend>>     // p_prl of every process

    ghost function View(): State
      reads this
    {
      State(lists, freerl, prl)
    }

    constructor (inodes: nat, procs: nat, records: nat)
      ensures View() == State(seq(inodes, _ => []), seq(records, i => i), seq(procs, _ => None))
    {
      lists := seq(inodes, _ => []);
      freerl := seq(records, i => i);
      prl := seq(procs, _ => None);
    }

    /** The next record after position `at` that meets `lock`. */
    method NextMeet(ip: nat, at: int, lock: Rec) returns (found: bool, n: int)
      requires ip < |lists| && -1 <= at < |lists[ip]|
      ensures at < n <= |lists[ip]| && (forall k :: at < k < n ==> !Meets(lists[ip][k], lock))
      ensures if found then n < |lists[ip]| && Meets(lists[ip][n], lock) else n == |lists[ip]|
    {
      n := at + 1;
      while n < |lists[ip]|
        invariant at < n <= |lists[ip]|
        invariant forall k :: at < k < n ==> !Meets(lists[ip][k], lock)
      {
        if Meets(lists[ip][n], lock) {
          return true, n;
        }
        n := n + 1;
      }
      found := false;
    }

    /** The next record after position `at` that conflicts with `lock`. */
    method NextBlock(ip: nat, at: int, lock: Rec) returns (found: bool, n: int)
      requires ip < |lists| && -1 <= at < |lists[ip]|
      ensures at < n <= |lists[ip]| && (forall k :: at < k < n ==> !Blocks(lists[ip][k], lock))
      ensures if found then n < |lists[ip]| && Blocks(lists[ip][n], lock) else n == |lists[ip]|
    {
      found, n := NextMeet(ip, at, lock);
      while found
        invariant at < n <= |lists[ip]| && forall k :: at < k < n ==> !Blocks(lists[ip][k], lock)
        invariant if found then n < |lists[ip]| && Meets(lists[ip][n], lock) else n == |lists[ip]|
        decreases |lists[ip]| - n
      {
        if lock.owner != lists[ip][n].owner && (lock.write || lists[ip][n].write) {
          return true, n;
        }
        found, n := NextMeet(ip, n, lock);
      }
    }

    /** Unlinks a record and pushes it on the free list; the scan continues after its
        predecessor. */
    method FreeLock(ip: nat, n: nat) returns (pred: int)
      requires ip < |lists| && n < |lists[ip]|
      modifies this`lists, this`freerl
      ensures pred == n - 1
      ensures lists == old(lists)[ip := old(lists)[ip][..n] + old(lists)[ip][n + 1..]]
      ensures freerl == [old(lists)[ip][n].id] + old(freerl)
    {
      var gone := lists[ip][n];
      lists := lists[ip := lists[ip][..n] + lists[ip][n + 1..]];
      freerl := [gone.id] + freerl;
      pred := n - 1;
    }

    /** Takes the range of `lock` out of record `n`: 1 asks the caller to free it, -1
        reports that a split found no free record. */
    method Extract(ip: nat, n: nat, lock: Rec) returns (code: int)
      requires ip < |lists| && n < |lists[ip]|
      modifies this`lists, this`freerl
      ensures var L := old(lists)[ip];
              var c := Cut(L[n], lock);
              match |c|
              case 0 => code == 1 && lists == old(lists) && freerl == old(freerl)
              case 1 => code == 0 && lists == old(lists)[ip := L[n := c[0]]] && freerl == old(freerl)
              case _ =>
                if old(freerl) == [] then code == -1 && lists == old(lists) && freerl == old(freerl)
                else && code == 0 && freerl == old(freerl)[1..]
                     && lists == old(lists)[ip := L[..n] + [c[0], c[1].(id := old(freerl)[0])] + L[n + 1..]]
    {
      var L := lists[ip];
      var rec := L[n];
      if lock.start <= rec.start {
        if lock.end == -1 || (rec.end != -1 && lock.end >= rec.end) {
          return 1;
        }
        lists := lists[ip := L[n := rec.(start := Succ(lock.end))]];
        return 0;
      }
      var tend := rec.end;
      lists := lists[ip := L[n := rec.(end := lock.start - 1)]];
      if lock.end == -1 || (tend != -1 && lock.end >= tend) {
        return 0;
      }
      if freerl == [] {
        lists := lists[ip := lists[ip][n := lists[ip][n].(end := tend)]];
        assert lists[ip] == L;
        return -1;
      }
      var piece := rec.(id := freerl[0], start := Succ(lock.end), end := tend);
      freerl := freerl[1..];
      lists := lists[ip := lists[ip][..n + 1] + [piece] + lists[ip][n + 1..]];
      assert lists[ip] == L[..n] + [rec.(end := lock.start - 1), piece] + L[n + 1..];
      return 0;
    }

    /** Takes the range of `lock` away from all records of its owner. */
    method RemLock(ip: nat, lock: Rec) returns (ok: bool)
      requires ip < |lists|
      modifies this`lists, this`freerl
      ensures var r := Remove(old(lists)[ip], lock, old(freerl));
              ok == r.ok && lists == old(lists)[ip := r.list] && freerl == r.free
    {
      hide Remove, RemoveFrom, Cut, Meets;
      RemoveWhole(lists[ip], lock, freerl);
      var at := -1;
      var found, n := NextMeet(ip, at, lock);
      while found
        invariant |lists| == |old(lists)| && lists == old(lists)[ip := lists[ip]]
        invariant -1 <= at < n <= |lists[ip]| && at < |lists[ip]|
        invariant forall k :: at < k < n ==> !Meets(lists[ip][k], lock)
        invariant if found then n < |lists[ip]| && Meets(lists[ip][n], lock) else n == |lists[ip]|
        invariant Remove(old(lists)[ip], lock, old(freerl)) == RemoveFrom(lists[ip], at + 1, lock, freerl)
        decreases 2 * (|lists[ip]| - at) + |freerl|
      {
        RemoveNext(lists[ip], at + 1, n, lock, freerl);
        if lists[ip][n].owner != lock.owner {
          at := n;
        } else {
          var code := Extract(ip, n, lock);
          if code == 1 {
            at := FreeLock(ip, n);
          } else if code == 0 {
            at := n;
          } else {
            return false;
          }
        }
        found, n := NextMeet(ip, at, lock);
      }
      RemoveEnd(lists[ip], at + 1, lock, freerl);
      ok := true;
    }

    /** The merge scan of `addlock`: frees the caller's neighbouring records of the same
        type and returns the range that they and the request make up. */
    method MergeNeighbours(ip: nat, lock: Rec) returns (top: int, bot: int)
      requires ip < |lists|
      modifies this`lists, this`freerl
      ensures |lists| == |old(lists)| && lists == old(lists)[ip := lists[ip]]
      ensures Absorb(old(lists)[ip], Widen(lock), lock.start, lock.end, old(freerl)) ==
                Merge(lists[ip], freerl, top, bot)
    {
      top, bot := lock.start, lock.end;
      var wide := Widen(lock);
      hide Absorb, AbsorbFrom, Meets, Lower, Upper;
      AbsorbWhole(lists[ip], wide, top, bot, freerl);
      var at := -1;
      var found, n := NextMeet(ip, at, wide);
      while found
        invariant |lists| == |old(lists)| && lists == old(lists)[ip := lists[ip]]
        invariant -1 <= at < n <= |lists[ip]| && at < |lists[ip]|
        invariant forall k :: at < k < n ==> !Meets(lists[ip][k], wide)
        invariant if found then n < |lists[ip]| && Meets(lists[ip][n], wide) else n == |lists[ip]|
        invariant Absorb(old(lists)[ip], wide, lock.start, lock.end, old(freerl)) ==
                    AbsorbFrom(lists[ip], at + 1, wide, top, bot, freerl)
        decreases |lists[ip]| - at
      {
        AbsorbNext(lists[ip], at + 1, n, wide, top, bot, freerl);
        if lists[ip][n].owner != lock.owner || lists[ip][n].write != lock.write {
          at := n;
        } else {
          top := Lower(top, lists[ip][n]);
          bot := Upper(bot, lists[ip][n]);
          at := FreeLock(ip, n);
        }
        found, n := NextMeet(ip, at, wide);
      }
      AbsorbEnd(lists[ip], at + 1, wide, top, bot, freerl);
    }

    /** Installs a lock: merges neighbours of the same type and owner, gets a record,
        removes the owner's other locks in that range and links the record at the head. */
    method AddLock(ip: nat, lock: Rec) returns (ok: bool)
      requires ip < |lists|
      modifies this`lists, this`freerl
      ensures var a := Add(old(lists)[ip], lock, old(freerl));
              ok == a.granted && lists == old(lists)[ip := a.list] && freerl == a.free
    {
      var top, bot := MergeNeighbours(ip, lock);
      if freerl == [] {
        return false;
      }
      var grown := lock.(id := freerl[0], start := top, end := bot);
      freerl := freerl[1..];
      var _ := RemLock(ip, grown);
      lists := lists[ip := [grown] + lists[ip]];
      ok := true;
    }

    /** Has `pp` requested a lock that waits, even indirectly, for `self`?  `above` are
        the processes whose search called this one. */
    method Waiting(self: Proc, pp: Proc, ghost above: set<nat>) returns (yes: bool)
      requires GoodOwners(View()) && GoodPending(View())
      requires Acyclic(Without(WaitEdges(View()), self))
      requires self < |prl| && pp < |prl| && pp != self
      requires forall v :: v in above ==> v < |prl| && Reach(Without(WaitEdges(View()), self), v, pp)
      ensures yes <==> Reach(WaitEdges(View()), pp, self)
      decreases |prl| - |above|
    {
      hide WaitEdges, Without, Blockers, Reach, Acyclic;
      if prl[pp] == None {
        NoEdges(View(), pp, self);
        return false;
      }
      var ip, lock := prl[pp].value.ip, prl[pp].value.lock;
      NotAbove(Without(WaitEdges(View()), self), above, pp);
      BoundedSet(above + {pp}, |prl|);
      var found, n := NextBlock(ip, -1, lock);
      while found
        invariant -1 < n <= |lists[ip]|
        invariant if found then n < |lists[ip]| && Blocks(lists[ip][n], lock) else n == |lists[ip]|
        invariant forall k :: 0 <= k < n && Blocks(lists[ip][k], lock) ==>
                    lists[ip][k].owner != self && !Reach(WaitEdges(View()), lists[ip][k].owner, self)
        decreases |lists[ip]| - n
      {
        var q := lists[ip][n].owner;
        ThroughBlocker(View(), pp, n, self);
        if q == self {
          return true;
        }
        GoDeeper(Without(WaitEdges(View()), self), above, pp, q);
        var deeper := Waiting(self, q, above + {pp});
        if deeper {
          return true;
        }
        found, n := NextBlock(ip, n, lock);
      }
      NoWayThrough(View(), pp, self);
      yes := false;
    }

    /** F_GETLK: the first record that is in the way of the request, if any, and its range
        as a start and a length. */
    method TestLock(ip: nat, lock: Rec) returns (r: Option<Rec>, start: int, len: int)
      requires ip < |lists|
      ensures r == None <==> Owners(lists[ip], lock) == {}
      ensures r.Some? ==> exists n :: 0 <= n < |lists[ip]| && r.value == lists[ip][n] && Blocks(lists[ip][n], lock) &&
                            forall k :: 0 <= k < n ==> !Blocks(lists[ip][k], lock)
      ensures r.Some? ==> (start, len) == Report(r.value)
    {
      var found, n := NextBlock(ip, -1, lock);
      if !found {
        return None, 0, 0;
      }
      r := Some(lists[ip][n]);
      assert lists[ip][n].owner in Owners(lists[ip], lock);
      start := lists[ip][n].start;
      len := if lists[ip][n].end == -1 then 0 else Succ(lists[ip][n].end - start);
    }

    /** F_SETLK with a read or write lock. */
    method SetLock(p: Proc, ip: nat, lock: Rec) returns (r: Outcome)
      requires ip < |lists|
      modifies this
      ensures (View(), r) == SetLockStep(old(View()), ip, lock)
    {
      var found, n := NextBlock(ip, -1, lock);
      if !found {
        var ok := AddLock(ip, lock);
        r := if ok then Granted else Refused(ENOLCK);
      } else {
        assert lists[ip][n].owner in Owners(lists[ip], lock);
        r := Refused(EACCES);
      }
    }

    /** F_UNLCK; closing a file is the case of the whole range. */
    method Unlock(p: Proc, ip: nat, lock: Rec) returns (r: Outcome)
      requires ip < |lists|
      modifies this
      ensures (View(), r) == UnlockStep(old(View()), ip, lock)
    {
      var ok := RemLock(ip, lock);
      r := if ok then Granted else Refused(ENOLCK);
    }

    /** The search of `waitlock`: does any process in the way of the pending lock of
        `p` wait for `p`?  `n` is the first record in the way. */
    method FindDeadlock(p: Proc, n: nat) returns (dead: bool)
      requires GoodOwners(View()) && GoodPending(View()) && Acyclic(Without(WaitEdges(View()), p))
      requires p < |prl| && prl[p].Some? && n < |lists[prl[p].value.ip]|
      requires Blocks(lists[prl[p].value.ip][n], prl[p].value.lock)
      requires forall k :: 0 <= k < n ==> !Blocks(lists[prl[p].value.ip][k], prl[p].value.lock)
      ensures dead <==> ClosesCycle(View(), p)
    {
      var ip, lock := prl[p].value.ip, prl[p].value.lock;
      ghost var G := WaitEdges(View());
      var found, at := true, n;
      while found
        invariant -1 < at <= |lists[ip]|
        invariant if found then at < |lists[ip]| && Blocks(lists[ip][at], lock) else at == |lists[ip]|
        invariant forall k :: 0 <= k < at && Blocks(lists[ip][k], lock) ==> !Reach(G, lists[ip][k].owner, p)
        decreases |lists[ip]| - at
      {
        assert lists[ip][at].owner in Blockers(View(), p);
        dead := Waiting(p, lists[ip][at].owner, {});
        if dead {
          return;
        }
        found, at := NextBlock(ip, at, lock);
      }
      dead := false;
    }

    /** F_SETLKW, up to the point where the caller sleeps or is answered. */
    method WaitForLock(p: Proc, ip: nat, lock: Rec) returns (r: Outcome)
      requires WaitInv(View()) && Idle(View(), p, ip, lock)
      modifies this
      ensures (View(), r) == WaitStep(old(View()), p, ip, lock)
    {
      var found, n := NextBlock(ip, -1, lock);
      if !found {
        var ok := AddLock(ip, lock);
        return if ok then Granted else Refused(ENOLCK);
      }
      assert lists[ip][n].owner in Owners(lists[ip], lock);
      if freerl == [] {
        return Refused(ENOLCK);
      }
      var rl := lock.(id := freerl[0]);
      freerl := freerl[1..];
      prl := prl[p := Some(Pend(ip, rl))];
      SuspendedEdges(old(View()), p, ip, lock);
      var dead := FindDeadlock(p, n);
      if dead {
        prl := prl[p := None];
        freerl := [rl.id] + freerl;
        assert prl == old(prl) && freerl == old(freerl);
        return Refused(EDEADLK);
      }
      r := Asleep;
    }

    /** What a process does when its sleep in `waitlock` ends without a signal. */
    method Retry(p: Proc) returns (r: Outcome)
      requires WaitInv(View()) && p < |prl| && prl[p].Some?
      modifies this
      ensures (View(), r) == RetryStep(old(View()), p)
    {
      var ip, rl := prl[p].value.ip, prl[p].value.lock;
      var found, n := NextBlock(ip, -1, rl);
      if found {
        assert lists[ip][n].owner in Blockers(View(), p);
        FewerEdgesStayAcyclic(Without(WaitEdges(View()), p), WaitEdges(View()));
        var dead := FindDeadlock(p, n);
        if !dead {
          return Asleep;
        }
        prl := prl[p := None];
        freerl := [rl.id] + freerl;
        return Refused(EDEADLK);
      }
      prl := prl[p := None];
      freerl := [rl.id] + freerl;
      var ok := AddLock(ip, rl);
      r := if ok then Granted else Refused(ENOLCK);
    }

    /** What a process does when a signal ends its sleep in `waitlock`. */
    method Interrupt(p: Proc) returns (r: Outcome)
      requires p < |prl| && prl[p].Some?
      modifies this
      ensures View() == Resume(old(View()), p) && r == Refused(EINTR)
    {
      freerl := [prl[p].value.lock.id] + freerl;
      prl := prl[p := None];
      r := Refused(EINTR);
    }
  }

  // ----- how the scans relate to the list functions -----

  function RemoveFrom(L: seq<Rec>, i: nat, lock: Rec, free: seq<nat>): ListResult
    requires i <= |L|
  {
    var r := Remove(L[i..], lock, free);
    r.(list := L[..i] + r.list)
  }

  /** Records that do not meet `lock` are passed over. */
  lemma {:induction false} SkipTo(L: seq<Rec>, i: nat, n: nat, lock: Rec, free: seq<nat>)
    requires i <= n <= |L| && forall k :: i <= k < n ==> !Meets(L[k], lock)
    ensures RemoveFrom(L, i, lock, free) == RemoveFrom(L, n, lock, free)
    decreases n - i
  {
    if i < n {
      assert L[i..][1..] == L[i + 1..];
      var r := Remove(L[i + 1..], lock, free).list;
      assert L[..i] + ([L[i]] + r) == L[..i + 1] + r;
      SkipTo(L, i + 1, n, lock, free);
    }
  }

  lemma RemoveWhole(L: seq<Rec>, lock: Rec, free: seq<nat>)
    ensures RemoveFrom(L, 0, lock, free) == Remove(L, lock, free)
  {
    assert L[0..] == L && L[..0] == [];
  }

  lemma RemoveEnd(L: seq<Rec>, i: nat, lock: Rec, free: seq<nat>)
    requires i <= |L| && forall k :: i <= k < |L| ==> !Meets(L[k], lock)
    ensures RemoveFrom(L, i, lock, free) == ListResult(L, free, true)
  {
    SkipTo(L, i, |L|, lock, free);
  }

  /** One turn of the removal scan, at the next record that meets `lock`. */
  lemma RemoveNext(L: seq<Rec>, i: nat, n: nat, lock: Rec, free: seq<nat>)
    requires i <= n < |L| && (forall k :: i <= k < n ==> !Meets(L[k], lock)) && Meets(L[n], lock)
    ensures var R, c := RemoveFrom(L, i, lock, free), Cut(L[n], lock);
            if L[n].owner != lock.owner then R == RemoveFrom(L, n + 1, lock, free)
            else if |c| == 0 then R == RemoveFrom(L[..n] + L[n + 1..], n, lock, [L[n].id] + free)
            else if |c| == 1 then R == RemoveFrom(L[n := c[0]], n + 1, lock, free)
            else if free == [] then R == ListResult(L, free, false)
            else R == RemoveFrom(L[..n] + [c[0], c[1].(id := free[0])] + L[n + 1..], n + 1, lock, free[1..])
  {
    SkipTo(L, i, n, lock, free);
    RemoveHere(L, n, lock, free);
  }

  lemma RemoveHere(L: seq<Rec>, n: nat, lock: Rec, free: seq<nat>)
    requires n < |L| && Meets(L[n], lock)
    ensures var R, c := RemoveFrom(L, n, lock, free), Cut(L[n], lock);
            if L[n].owner != lock.owner then R == RemoveFrom(L, n + 1, lock, free)
            else if |c| == 0 then R == RemoveFrom(L[..n] + L[n + 1..], n, lock, [L[n].id] + free)
            else if |c| == 1 then R == RemoveFrom(L[n := c[0]], n + 1, lock, free)
            else if free == [] then R == ListResult(L, free, false)
            else R == RemoveFrom(L[..n] + [c[0], c[1].(id := free[0])] + L[n + 1..], n + 1, lock, free[1..])
  {
    var c, T := Cut(L[n], lock), L[n + 1..];
    assert L[n..][1..] == T && L[n..][0] == L[n];
    if L[n].owner != lock.owner {
      Rejoin(L, n, L[n], T, Remove(T, lock, free).list);
      assert L == L[..n] + [L[n]] + T;
    } else if |c| == 0 {
      var M := L[..n] + T;
      assert M[..n] == L[..n] && M[n..] == T;
    } else if |c| == 1 {
      Rejoin(L, n, c[0], T, Remove(T, lock, free).list);
      assert L[n := c[0]] == L[..n] + [c[0]] + T;
    } else if free == [] {
      assert L[..n] + L[n..] == L;
    } else {
      var rest := [c[1].(id := free[0])] + T;
      Rejoin(L, n, c[0], rest, Remove(rest, lock, free[1..]).list);
      assert L[..n] + [c[0], c[1].(id := free[0])] + T == L[..n] + [c[0]] + rest;
    }
  }

  lemma Rejoin(L: seq<Rec>, n: nat, x: Rec, T: seq<Rec>, r: seq<Rec>)
    requires n <= |L|
    ensures var M := L[..n] + [x] + T;
            M[n + 1..] == T && M[..n + 1] + r == L[..n] + ([x] + r)
  {
  }

  function AbsorbFrom(L: seq<Rec>, i: nat, wide: Rec, top: int, bot: int, free: seq<nat>): Merge
    requires i <= |L|
  {
    var m := Absorb(L[i..], wide, top, bot, free);
    m.(list := L[..i] + m.list)
  }

  lemma {:induction false} PassTo(L: seq<Rec>, i: nat, n: nat, wide: Rec, top: int, bot: int, free: seq<nat>)
    requires i <= n <= |L| && forall k :: i <= k < n ==> !Meets(L[k], wide)
    ensures AbsorbFrom(L, i, wide, top, bot, free) == AbsorbFrom(L, n, wide, top, bot, free)
    decreases n - i
  {
    if i < n {
      assert L[i..][1..] == L[i + 1..];
      var r := Absorb(L[i + 1..], wide, top, bot, free).list;
      assert L[..i] + ([L[i]] + r) == L[..i + 1] + r;
      PassTo(L, i + 1, n, wide, top, bot, free);
    }
  }

  lemma AbsorbWhole(L: seq<Rec>, wide: Rec, top: int, bot: int, free: seq<nat>)
    ensures AbsorbFrom(L, 0, wide, top, bot, free) == Absorb(L, wide, top, bot, free)
  {
    assert L[0..] == L && L[..0] == [];
  }

  lemma AbsorbEnd(L: seq<Rec>, i: nat, wide: Rec, top: int, bot: int, free: seq<nat>)
    requires i <= |L| && forall k :: i <= k < |L| ==> !Meets(L[k], wide)
    ensures AbsorbFrom(L, i, wide, top, bot, free) == Merge(L, free, top, bot)
  {
    PassTo(L, i, |L|, wide, top, bot, free);
  }

  /** One turn of the merge scan, at the next record that meets the widened lock. */
  lemma AbsorbNext(L: seq<Rec>, i: nat, n: nat, wide: Rec, top: int, bot: int, free: seq<nat>)
    requires i <= n < |L| && (forall k :: i <= k < n ==> !Meets(L[k], wide)) && Meets(L[n], wide)
    ensures AbsorbFrom(L, i, wide, top, bot, free) ==
            if !Absorbs(L[n], wide) then AbsorbFrom(L, n + 1, wide, top, bot, free)
            else AbsorbFrom(L[..n] + L[n + 1..], n, wide, Lower(top, L[n]), Upper(bot, L[n]), [L[n].id] + free)
  {
    PassTo(L, i, n, wide, top, bot, free);
    assert L[n..][1..] == L[n + 1..];
    var r := Absorb(L[n + 1..], wide, top, bot, free).list;
    assert L[..n] + ([L[n]] + r) == L[..n + 1] + r;
    var M := L[..n] + L[n + 1..];
    assert M[..n] == L[..n] && M[n..] == L[n + 1..];
  }

  lemma NoEdges(s: State, p: nat, x: nat)
    requires p < |s.pend| && s.pend[p].None?
    ensures !Reach(WaitEdges(s), p, x)
  {
    ReachStep(WaitEdges(s), p, x);
  }

  lemma NotAbove(E: Graph, above: set<nat>, p: nat)
    requires Acyclic(E) && forall v :: v in above ==> Reach(E, v, p)
    ensures p !in above
  {
  }

  /** A conflicting record gives an edge to its owner, and a way on from there. */
  lemma ThroughBlocker(s: State, p: nat, n: nat, x: nat)
    requires p < |s.pend| && s.pend[p].Some? && s.pend[p].value.ip < |s.lists| && p != x
    requires n < |s.lists[s.pend[p].value.ip]| && Blocks(s.lists[s.pend[p].value.ip][n], s.pend[p].value.lock)
    ensures var q := s.lists[s.pend[p].value.ip][n].owner;
            && (p, q) in Without(WaitEdges(s), x)
            && (q == x || Reach(WaitEdges(s), q, x) ==> Reach(WaitEdges(s), p, x))
  {
    var q := s.lists[s.pend[p].value.ip][n].owner;
    assert q in Blockers(s, p);
    assert (p, q) in WaitEdges(s);
    ReachStep(WaitEdges(s), p, x);
  }

  /** With no way on from any conflicting record there is no way at all. */
  lemma NoWayThrough(s: State, p: nat, x: nat)
    requires p < |s.pend| && s.pend[p].Some? && s.pend[p].value.ip < |s.lists|
    requires var L, lock := s.lists[s.pend[p].value.ip], s.pend[p].value.lock;
             forall k :: 0 <= k < |L| && Blocks(L[k], lock) ==> L[k].owner != x && !Reach(WaitEdges(s), L[k].owner, x)
    ensures !Reach(WaitEdges(s), p, x)
  {
    ReachStep(WaitEdges(s), p, x);
    forall c | (p, c) in WaitEdges(s) ensures c != x && !Reach(WaitEdges(s), c, x) {
      assert c in Blockers(s, p);
    }
  }

  /** Whatever leads to `p` leads on along an edge that leaves `p`. */
  lemma GoDeeper(E: Graph, above: set<nat>, p: nat, q: nat)
    requires (p, q) in E && forall v :: v in above ==> Reach(E, v, p)
    ensures forall v :: v in above + {p} ==> Reach(E, v, q)
  {
    EdgeReaches(E, p, q);
    forall v | v in above ensures Reach(E, v, q) {
      ReachTrans(E, v, p, q);
    }
  }

  // ----- how the steps change the wait-for graph -----

  /** A new pending lock only adds edges that leave its process. */
  lemma SuspendedEdges(s: State, p: nat, ip: nat, lock: Rec)
    requires WaitInv(s) && Idle(s, p, ip, lock) && s.free != []
    ensures var t := Suspend(s, p, ip, lock);
            && GoodOwners(t) && GoodPending(t)
            && Without(WaitEdges(t), p) <= WaitEdges(s) && Acyclic(Without(WaitEdges(t), p))
            && WaitEdges(s) <= WaitEdges(t)
            && Blockers(t, p) == Owners(s.lists[ip], lock)
  {
    var t := Suspend(s, p, ip, lock);
    forall q ensures q != p ==> Blockers(t, q) == Blockers(s, q) {
    }
    assert Blockers(s, p) == {};
    forall e | e in Without(WaitEdges(t), p) ensures e in WaitEdges(s) {
      assert e.1 in Blockers(s, e.0);
    }
    forall e | e in WaitEdges(s) ensures e in WaitEdges(t) {
      assert e.1 in Blockers(t, e.0);
    }
    FewerEdgesStayAcyclic(Without(WaitEdges(t), p), WaitEdges(s));
    assert forall r :: Blocks(r, lock.(id := s.free[0])) == Blocks(r, lock);
  }
}
