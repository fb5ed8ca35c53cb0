/** What adding a lock does to one inode's lock list. */
module LockAdding {
  // Neighbours of the same owner and type are merged into it, whatever else the owner held
  // there is removed, and the new record goes to the head of the list.

  import opened LockRecords

  predicate Absorbs(r: Rec, wide: Rec) {
    Meets(r, wide) && r.owner == wide.owner && r.write == wide.write
  }

  datatype Merge = Merge(list: seq<Rec>, free: seq<nat>, top: int, bot: int)

  /** The merge scan: records absorbed by `wide` go back to the free list and
      stretch `top` and `bot`. */
  function Absorb(L: seq<Rec>, wide: Rec, top: int, bot: int, free: seq<nat>): Merge {
    if L == [] then Merge([], free, top, bot)
    else if !Absorbs(L[0], wide) then
      var m := Absorb(L[1..], wide, top, bot, free);
      m.(list := [L[0]] + m.list)
    else
      Absorb(L[1..], wide, Lower(top, L[0]), Upper(bot, L[0]), [L[0].id] + free)
  }

  function Lower(top: int, r: Rec): int {
    if r.start < top then r.start else top
  }

  function Upper(bot: int, r: Rec): int {
    if bot != -1 && (r.end == -1 || r.end >= bot) then r.end else bot
  }

  /** `granted` is false when no record is left for the new lock (ENOLCK); `served`
      is false when the removal of the owner's other locks ran out of records, a
      failure that the code does not look at. */
  datatype AddResult = AddResult(list: seq<Rec>, free: seq<nat>, granted: bool, served: bool)

  function Grown(lock: Rec, m: Merge): Rec
    requires m.free != []
  {
    lock.(id := m.free[0], start := m.top, end := m.bot)
  }

  function Add(L: seq<Rec>, lock: Rec, free: seq<nat>): AddResult {
    var m := Absorb(L, Widen(lock), lock.start, lock.end, free);
    if m.free == [] then AddResult(m.list, m.free, false, false)
    else
      var r := Remove(m.list, Grown(lock, m), m.free[1..]);
      AddResult([Grown(lock, m)] + r.list, r.free, true, r.ok)
  }

  // ----- the merge scan -----

  ghost predicate AbsorbedAt(L: seq<Rec>, wide: Rec, b: nat) {
    exists i :: 0 <= i < |L| && AbsorbsByte(L[i], wide, b)
  }

  predicate AbsorbsByte(r: Rec, wide: Rec, b: nat) {
    Absorbs(r, wide) && Covers(r, b)
  }

  lemma AbsorbedCons(x: Rec, L: seq<Rec>, wide: Rec, b: nat)
    ensures AbsorbedAt([x] + L, wide, b) <==> AbsorbsByte(x, wide, b) || AbsorbedAt(L, wide, b)
  {
    var xs := [x] + L;
    if AbsorbsByte(x, wide, b) { assert AbsorbsByte(xs[0], wide, b); }
    if AbsorbedAt(L, wide, b) {
      var i :| 0 <= i < |L| && AbsorbsByte(L[i], wide, b);
      assert AbsorbsByte(xs[i + 1], wide, b);
    }
    if AbsorbedAt(xs, wide, b) {
      var i :| 0 <= i < |xs| && AbsorbsByte(xs[i], wide, b);
      if i > 0 { assert AbsorbsByte(L[i - 1], wide, b); }
    }
  }

  /** The grown range is the requested one together with the absorbed records: no gap
      is bridged. */
  lemma {:induction false} AbsorbGrowsExactly(L: seq<Rec>, lock: Rec, top: int, bot: int, free: seq<nat>, b: nat)
    requires AllWF(L) && WF(lock) && lock.end != MAX_OFF
    requires WF(lock.(start := top, end := bot)) && Within(lock, lock.(start := top, end := bot))
    ensures var m := Absorb(L, Widen(lock), top, bot, free);
            && WF(lock.(start := m.top, end := m.bot))
            && (Covers(lock.(start := m.top, end := m.bot), b) <==>
                Covers(lock.(start := top, end := bot), b) || AbsorbedAt(L, Widen(lock), b))
  {
    if L != [] {
      var T := L[1..];
      assert L == [L[0]] + T;
      AbsorbedCons(L[0], T, Widen(lock), b);
      if !Absorbs(L[0], Widen(lock)) {
        AbsorbGrowsExactly(T, lock, top, bot, free, b);
      } else {
        AbsorbGrowsExactly(T, lock, Lower(top, L[0]), Upper(bot, L[0]), [L[0].id] + free, b);
      }
    }
  }

  /** A request that ends at the top offset absorbs nothing: one byte more has wrapped. */
  lemma {:induction false} AbsorbNothing(L: seq<Rec>, wide: Rec, top: int, bot: int, free: seq<nat>)
    requires AllWF(L) && wide.end < -1
    ensures Absorb(L, wide, top, bot, free) == Merge(L, free, top, bot)
  {
    if L != [] {
      AbsorbNothing(L[1..], wide, top, bot, free);
      assert L == [L[0]] + L[1..];
    }
  }

  /** No owner has both a record that ends at the top offset and one to the end of the
      file: the first would be part of the second. */
  ghost predicate NoClash(L: seq<Rec>) {
    forall i, j {:trigger L[i], L[j]} ::
        0 <= i < |L| && 0 <= j < |L| && L[i].owner == L[j].owner && L[i].end == -1 ==> L[j].end != MAX_OFF
  }

  lemma CanonicalHasNoClash(L: seq<Rec>)
    requires AllWF(L) && Canonical(L)
    ensures NoClash(L)
  {
    forall i, j | 0 <= i < |L| && 0 <= j < |L| && L[i].owner == L[j].owner && L[i].end == -1
      ensures L[j].end != MAX_OFF
    {
      if i != j { assert Apart(L[i], L[j]); }
    }
  }

  /** Where the grown range ends: at an end from before, or at that of the request. */
  lemma {:induction false} AbsorbedBot(L: seq<Rec>, wide: Rec, top: int, bot: int, free: seq<nat>)
    ensures var m := Absorb(L, wide, top, bot, free);
            m.bot == bot || exists i :: 0 <= i < |L| && Absorbs(L[i], wide) && m.bot == L[i].end
    ensures bot == -1 ==> Absorb(L, wide, top, bot, free).bot == -1
  {
    if L != [] {
      var T := L[1..];
      var b := if Absorbs(L[0], wide) then Upper(bot, L[0]) else bot;
      AbsorbedBot(T, wide, if Absorbs(L[0], wide) then Lower(top, L[0]) else top, b,
                  if Absorbs(L[0], wide) then [L[0].id] + free else free);
      var m := Absorb(L, wide, top, bot, free);
      if m.bot != b {
        var i :| 0 <= i < |T| && Absorbs(T[i], wide) && m.bot == T[i].end;
        assert L[i + 1] == T[i];
      }
    }
  }

  /** The records that stay are old ones, none of them absorbable; nothing is lost. */
  lemma {:induction false} AbsorbKeeps(L: seq<Rec>, wide: Rec, top: int, bot: int, free: seq<nat>)
    ensures var m := Absorb(L, wide, top, bot, free);
            && (forall i :: 0 <= i < |m.list| ==> m.list[i] in L && !Absorbs(m.list[i], wide))
            && (AllWF(L) ==> AllWF(m.list)) && AllWithin(m.list, L)
            && Pool(m.list, m.free) == Pool(L, free)
            && |m.free| >= |free|
            && (|m.free| == |free| ==> m == Merge(L, free, top, bot))
  {
    hide Pool, Lower, Upper, PartOf, Meets;
    if L != [] {
      var T := L[1..];
      assert L == [L[0]] + T;
      PoolCons(L[0], T, free);
      if !Absorbs(L[0], wide) {
        AbsorbKeeps(T, wide, top, bot, free);
        var m := Absorb(T, wide, top, bot, free);
        PoolCons(L[0], m.list, m.free);
        TailWithin(m.list, L);
        ConsWithin(L[0], m.list, L);
      } else {
        AbsorbKeeps(T, wide, Lower(top, L[0]), Upper(bot, L[0]), [L[0].id] + free);
        TailWithin(Absorb(T, wide, Lower(top, L[0]), Upper(bot, L[0]), [L[0].id] + free).list, L);
      }
    }
  }

  lemma {:induction false} AbsorbHeld(L: seq<Rec>, wide: Rec, top: int, bot: int, free: seq<nat>, q: Proc, w: bool,
                                      b: nat)
    ensures Held(L, q, w, b) <==>
            || Held(Absorb(L, wide, top, bot, free).list, q, w, b)
            || (q == wide.owner && w == wide.write && AbsorbedAt(L, wide, b))
  {
    if L != [] {
      var T := L[1..];
      assert L == [L[0]] + T;
      AbsorbedCons(L[0], T, wide, b);
      HeldCons(L[0], T, q, w, b);
      if !Absorbs(L[0], wide) {
        AbsorbHeld(T, wide, top, bot, free, q, w, b);
        HeldCons(L[0], Absorb(T, wide, top, bot, free).list, q, w, b);
      } else {
        AbsorbHeld(T, wide, Lower(top, L[0]), Upper(bot, L[0]), [L[0].id] + free, q, w, b);
      }
    }
  }

  lemma {:induction false} AbsorbKeepsCanonical(L: seq<Rec>, wide: Rec, top: int, bot: int, free: seq<nat>)
    requires AllWF(L) && Canonical(L)
    ensures Canonical(Absorb(L, wide, top, bot, free).list)
  {
    hide Pool, Lower, Upper, AllWithin, Meets, Apart;
    if L != [] {
      var T := L[1..];
      if !Absorbs(L[0], wide) {
        var M := Absorb(T, wide, top, bot, free).list;
        AbsorbKeepsCanonical(T, wide, top, bot, free);
        AbsorbKeeps(T, wide, top, bot, free);
        forall j | 0 <= j < |M| ensures Apart(L[0], M[j]) && Apart(M[j], L[0]) {
          var k :| 0 <= k < |T| && T[k] == M[j];
          assert L[k + 1] == M[j];
        }
        CanonicalCons(L[0], M);
      } else {
        AbsorbKeepsCanonical(T, wide, Lower(top, L[0]), Upper(bot, L[0]), [L[0].id] + free);
      }
    }
  }

  /** One owner never holds a byte in two records of different type. */
  lemma OneTypePerByte(L: seq<Rec>, q: Proc, b: nat)
    requires AllWF(L) && Canonical(L)
    ensures !(Held(L, q, true, b) && Held(L, q, false, b))
  {
    if Held(L, q, true, b) {
      var i :| 0 <= i < |L| && HeldBy(L[i], q, true, b);
      forall j | 0 <= j < |L| ensures !HeldBy(L[j], q, false, b) {
        if j != i { assert Apart(L[i], L[j]); }
      }
    }
  }

  // ----- the merge scan as `Add` calls it -----

  /** No gap is bridged, and with a request that ends at the top offset nothing is merged. */
  lemma GrowsExactly(L: seq<Rec>, lock: Rec, free: seq<nat>, b: nat)
    requires AllWF(L) && WF(lock)
    ensures var m := Absorb(L, Widen(lock), lock.start, lock.end, free);
            && WF(lock.(start := m.top, end := m.bot)) && Within(lock, lock.(start := m.top, end := m.bot))
            && (Covers(lock.(start := m.top, end := m.bot), b) <==> Covers(lock, b) || AbsorbedAt(L, Widen(lock), b))
  {
    if lock.end == MAX_OFF {
      AbsorbNothing(L, Widen(lock), lock.start, lock.end, free);
      hide Absorb;
      assert lock.(start := lock.start, end := lock.end) == lock;
    } else {
      AbsorbGrowsExactly(L, lock, lock.start, lock.end, free, b);
      GrowsOutward(L, Widen(lock), lock.start, lock.end, free);
      hide Absorb;
    }
  }

  lemma {:induction false} GrowsOutward(L: seq<Rec>, wide: Rec, top: int, bot: int, free: seq<nat>)
    ensures var m := Absorb(L, wide, top, bot, free);
            m.top <= top && (bot == -1 ==> m.bot == -1) && (m.bot == -1 || m.bot >= bot)
  {
    if L != [] {
      if Absorbs(L[0], wide) {
        GrowsOutward(L[1..], wide, Lower(top, L[0]), Upper(bot, L[0]), [L[0].id] + free);
      } else {
        GrowsOutward(L[1..], wide, top, bot, free);
      }
    }
  }

  lemma ToTheEndMeets(r: Rec, lock: Rec)
    requires WF(r) && WF(lock) && r.end == -1 && lock.end == MAX_OFF
    ensures Meets(r, lock)
  {
  }

  /** What the merge scan leaves, and how many records it gives. */
  lemma MergeBasics(L: seq<Rec>, lock: Rec, free: seq<nat>)
    ensures var m := Absorb(L, Widen(lock), lock.start, lock.end, free);
            && AllWithin(m.list, L)
            && (AllWF(L) && WF(lock) ==> AllWF(m.list) && (m.free != [] ==> WF(Grown(lock, m))))
            && Pool(m.list, m.free) == Pool(L, free)
            && (m.free == [] ==> m.list == L && free == [])
            && forall i :: 0 <= i < |m.list| ==> m.list[i] in L && !Absorbs(m.list[i], Widen(lock))
  {
    AbsorbKeeps(L, Widen(lock), lock.start, lock.end, free);
    if AllWF(L) && WF(lock) { GrowsExactly(L, lock, free, 0); }
  }

  /** The removal that follows the merge does not wrap, unless the request ends at the top
      offset inside an own lock to the end of the file. */
  lemma GrownDoesNotWrap(L: seq<Rec>, lock: Rec, free: seq<nat>)
    requires AllWF(L) && WF(lock) && NoClash(L) && NoWrap(L, lock)
    requires Absorb(L, Widen(lock), lock.start, lock.end, free).free != []
    ensures var m := Absorb(L, Widen(lock), lock.start, lock.end, free); NoWrap(m.list, Grown(lock, m))
  {
    hide Absorb;
    var m := Absorb(L, Widen(lock), lock.start, lock.end, free);
    var grown := Grown(lock, m);
    MergeBasics(L, lock, free);
    AbsorbedBot(L, Widen(lock), lock.start, lock.end, free);
    forall i | 0 <= i < |m.list| && m.list[i].owner == lock.owner
      ensures !(grown.end == MAX_OFF && m.list[i].end == -1)
    {
      var k :| 0 <= k < |L| && L[k] == m.list[i];
      if L[k].end == -1 && lock.end == MAX_OFF { ToTheEndMeets(L[k], lock); }
    }
  }

  // ----- when a request is granted and its splits are served -----

  ghost predicate SomeAbsorbed(L: seq<Rec>, lock: Rec) {
    exists i :: 0 <= i < |L| && Absorbs(L[i], Widen(lock))
  }

  /** An own record of the other type, or one that cannot be merged, around the request. */
  ghost predicate Surrounded(L: seq<Rec>, lock: Rec) {
    exists i :: 0 <= i < |L| && CutInTwo(L[i], lock) && !Absorbs(L[i], Widen(lock))
  }

  /** Enough free records: one for the lock, unless merging frees one, and another where an
      own record around the request has to be cut in two. */
  ghost predicate Enough(L: seq<Rec>, lock: Rec, free: seq<nat>) {
    || (|free| >= 2 && NoWrap(L, lock))
    || ((free != [] || SomeAbsorbed(L, lock)) && !Surrounded(L, lock))
  }

  lemma {:induction false} AbsorbGives(L: seq<Rec>, wide: Rec, top: int, bot: int, free: seq<nat>)
    ensures var m := Absorb(L, wide, top, bot, free);
            && |m.free| >= |free|
            && (|m.free| > |free| <==> exists i :: 0 <= i < |L| && Absorbs(L[i], wide))
            && ((forall i :: 0 <= i < |L| ==> !Absorbs(L[i], wide)) ==> m == Merge(L, free, top, bot))
  {
    if L != [] {
      var T := L[1..];
      assert forall i :: 0 <= i < |T| ==> T[i] == L[i + 1];
      assert L == [L[0]] + T;
      if Absorbs(L[0], wide) {
        AbsorbGives(T, wide, Lower(top, L[0]), Upper(bot, L[0]), [L[0].id] + free);
      } else {
        AbsorbGives(T, wide, top, bot, free);
        if i :| 0 <= i < |L| && Absorbs(L[i], wide) { assert Absorbs(T[i - 1], wide); }
      }
    }
  }

  /** A request fails with ENOLCK exactly when no record is free and none is merged. */
  lemma GrantedIff(L: seq<Rec>, lock: Rec, free: seq<nat>)
    ensures Add(L, lock, free).granted <==> free != [] || SomeAbsorbed(L, lock)
  {
    AbsorbGives(L, Widen(lock), lock.start, lock.end, free);
  }

  /** Around the grown range there is no own record when something was merged. */
  lemma NothingAroundMerged(L: seq<Rec>, lock: Rec, free: seq<nat>)
    requires AllWF(L) && WF(lock) && Canonical(L) && SomeAbsorbed(L, lock)
    requires Absorb(L, Widen(lock), lock.start, lock.end, free).free != []
    ensures var m := Absorb(L, Widen(lock), lock.start, lock.end, free); !SomeCutInTwo(m.list, Grown(lock, m))
    ensures !Surrounded(L, lock)
  {
    hide Absorb, Canonical, Pool, AllWithin;
    var m := Absorb(L, Widen(lock), lock.start, lock.end, free);
    var grown := Grown(lock, m);
    MergeBasics(L, lock, free);
    var a :| 0 <= a < |L| && Absorbs(L[a], Widen(lock));
    InsideGrown(L, lock, free, a);
    forall i | 0 <= i < |m.list| ensures !CutInTwo(m.list[i], grown) {
      var k :| 0 <= k < |L| && L[k] == m.list[i];
      assert k != a;
      AroundMeets(L, k, a, grown);
    }
    forall i | 0 <= i < |L| && i != a ensures !CutInTwo(L[i], lock) {
      AroundNeighbour(L, i, a, lock);
    }
  }

  /** An absorbed record is part of the grown range. */
  lemma InsideGrown(L: seq<Rec>, lock: Rec, free: seq<nat>, a: int)
    requires AllWF(L) && WF(lock) && 0 <= a < |L| && Absorbs(L[a], Widen(lock))
    ensures var m := Absorb(L, Widen(lock), lock.start, lock.end, free);
            m.top <= L[a].start && (m.bot == -1 || (L[a].end != -1 && L[a].end <= m.bot))
  {
    hide Absorb;
    var m := Absorb(L, Widen(lock), lock.start, lock.end, free);
    var x, y := L[a].start, if L[a].end == -1 then MAX_OFF + (if m.bot == -1 then 0 else m.bot) + 1 else L[a].end;
    GrowsExactly(L, lock, free, x);
    GrowsExactly(L, lock, free, if y < 0 then 0 else y);
    assert AbsorbsByte(L[a], Widen(lock), x) && AbsorbsByte(L[a], Widen(lock), y);
  }

  lemma AroundMeets(L: seq<Rec>, k: int, a: int, grown: Rec)
    requires AllWF(L) && Canonical(L) && 0 <= k < |L| && 0 <= a < |L| && k != a
    requires L[a].owner == grown.owner
    requires grown.start <= L[a].start && (grown.end == -1 || (L[a].end != -1 && L[a].end <= grown.end))
    ensures !CutInTwo(L[k], grown)
  {
    assert Apart(L[k], L[a]);
  }

  lemma AroundNeighbour(L: seq<Rec>, i: int, a: int, lock: Rec)
    requires AllWF(L) && WF(lock) && Canonical(L) && 0 <= i < |L| && 0 <= a < |L| && i != a
    requires Absorbs(L[a], Widen(lock))
    ensures !CutInTwo(L[i], lock)
  {
    assert Apart(L[i], L[a]);
  }

  lemma AddServedIff(L: seq<Rec>, lock: Rec, free: seq<nat>)
    requires AllWF(L) && WF(lock) && Canonical(L)
    ensures Add(L, lock, free).granted && Add(L, lock, free).served <==> Enough(L, lock, free)
  {
    hide Absorb, Canonical, Remove, Pool, AllWithin, CutInTwo, Absorbs;
    GrantedIff(L, lock, free);
    AbsorbGives(L, Widen(lock), lock.start, lock.end, free);
    var m := Absorb(L, Widen(lock), lock.start, lock.end, free);
    if m.free != [] {
      MergeBasics(L, lock, free);
      AbsorbKeepsCanonical(L, Widen(lock), lock.start, lock.end, free);
      RemoveServedIff(m.list, Grown(lock, m), m.free[1..]);
      if SomeAbsorbed(L, lock) {
        NothingAroundMerged(L, lock, free);
      } else {
        SameRange(L, lock, Grown(lock, m));
      }
    }
  }

  /** Where nothing is merged the lock has the requested range. */
  lemma SameRange(L: seq<Rec>, lock: Rec, grown: Rec)
    requires grown == lock.(id := grown.id) && !SomeAbsorbed(L, lock)
    ensures SomeCutInTwo(L, grown) <==> Surrounded(L, lock)
    ensures NoWrap(L, grown) <==> NoWrap(L, lock)
  {
    forall i | 0 <= i < |L| ensures CutInTwo(L[i], grown) <==> CutInTwo(L[i], lock) {
    }
  }

  // ----- the main results about adding -----

  /** With enough records a request changes the caller's lock map exactly on the requested
      range, and nobody else's anywhere. */
  lemma AddIsExact(L: seq<Rec>, lock: Rec, free: seq<nat>, q: Proc, w: bool, b: nat)
    requires AllWF(L) && WF(lock) && Canonical(L) && NoWrap(L, lock) && Enough(L, lock, free)
    ensures Held(Add(L, lock, free).list, q, w, b) <==>
            if q == lock.owner && Covers(lock, b) then w == lock.write else Held(L, q, w, b)
  {
    hide Absorb, Remove, Canonical, AllWithin, Pool, Meets, Enough, NoWrap, NoClash;
    var m := Absorb(L, Widen(lock), lock.start, lock.end, free);
    AddServedIff(L, lock, free);
    var grown := Grown(lock, m);
    GrowsExactly(L, lock, free, b);
    MergeBasics(L, lock, free);
    CanonicalHasNoClash(L);
    GrownDoesNotWrap(L, lock, free);
    AbsorbHeld(L, Widen(lock), lock.start, lock.end, free, q, w, b);
    RemoveIsExact(m.list, grown, m.free[1..], q, w, b);
    HeldCons(grown, Remove(m.list, grown, m.free[1..]).list, q, w, b);
    AbsorbHeld(L, Widen(lock), lock.start, lock.end, free, q, lock.write, b);
    OneTypePerByte(L, q, b);
  }

  /** An own record of the requested type that reaches the request from below. */
  ghost predicate TouchedBelow(L: seq<Rec>, lock: Rec) {
    exists i :: 0 <= i < |L| && ReachesFromBelow(L[i], lock)
  }

  predicate ReachesFromBelow(r: Rec, lock: Rec) {
    r.owner == lock.owner && r.write == lock.write && r.start < lock.start && (r.end == -1 || lock.start <= r.end + 1)
  }

  /** The canonical form is kept: disjoint records, same-type records not adjacent. */
  lemma AddKeepsCanonical(L: seq<Rec>, lock: Rec, free: seq<nat>)
    requires AllWF(L) && WF(lock) && Canonical(L) && NoWrap(L, lock) && Enough(L, lock, free)
    requires lock.end == MAX_OFF ==> !TouchedBelow(L, lock)
    ensures Canonical(Add(L, lock, free).list)
  {
    hide Absorb, Remove, Pool, Widen, PartOf, Enough, NoWrap, TouchedBelow, Canonical;
    var wide := Widen(lock);
    var m := Absorb(L, wide, lock.start, lock.end, free);
    AddServedIff(L, lock, free);
    var grown, rest := Grown(lock, m), m.free[1..];
    MergeBasics(L, lock, free);
    AbsorbKeepsCanonical(L, wide, lock.start, lock.end, free);
    CanonicalHasNoClash(L);
    GrownDoesNotWrap(L, lock, free);
    RemoveKeepsCanonical(m.list, grown, rest);
    RemoveShrinks(m.list, grown, rest);
    var R := Remove(m.list, grown, rest).list;
    forall j | 0 <= j < |R| ensures Apart(grown, R[j]) && Apart(R[j], grown) {
      if R[j].owner == lock.owner {
        RemovedLeavesNothing(m.list, grown, rest, j);
        if R[j].write == lock.write {
          var k := WhichPart(R, m.list, j);
          if lock.end == MAX_OFF {
            NothingIsMerged(L, lock, free);
            NotTouched(L, lock, k);
            ApartBelow(grown, R[j], m.list[k]);
          } else {
            StaysAway(L, lock, free, m.list[k]);
            ApartShrinks(grown, m.list[k], grown, R[j]);
          }
        }
      }
    }
    CanonicalCons(grown, R);
  }

  lemma NothingIsMerged(L: seq<Rec>, lock: Rec, free: seq<nat>)
    requires AllWF(L) && lock.end == MAX_OFF
    ensures Absorb(L, Widen(lock), lock.start, lock.end, free) == Merge(L, free, lock.start, lock.end)
  {
    AbsorbNothing(L, Widen(lock), lock.start, lock.end, free);
  }

  lemma NotTouched(L: seq<Rec>, lock: Rec, k: int)
    requires !TouchedBelow(L, lock) && 0 <= k < |L|
    ensures !ReachesFromBelow(L[k], lock)
  {
  }

  lemma ApartBelow(grown: Rec, x: Rec, r: Rec)
    requires WF(grown) && WF(x) && WF(r) && grown.end == MAX_OFF && Within(x, r)
    requires r.owner == grown.owner && r.write == grown.write && !ReachesFromBelow(r, grown) && !Meets(x, grown)
    ensures Apart(grown, x) && Apart(x, grown)
  {
  }

  /** After a served removal the owner has no record that meets the removed range. */
  lemma RemovedLeavesNothing(L: seq<Rec>, lock: Rec, free: seq<nat>, j: nat)
    requires AllWF(L) && WF(lock) && NoWrap(L, lock) && Remove(L, lock, free).ok
    requires j < |Remove(L, lock, free).list| && Remove(L, lock, free).list[j].owner == lock.owner
    ensures !Meets(Remove(L, lock, free).list[j], lock) && !Meets(lock, Remove(L, lock, free).list[j])
  {
    RemoveShrinks(L, lock, free);
    var R := Remove(L, lock, free).list;
    MeetsIffShareByte(R[j], lock);
    if Meets(R[j], lock) {
      var x: nat :| Covers(R[j], x) && Covers(lock, x);
      assert HeldBy(R[j], lock.owner, R[j].write, x);
      RemoveIsExact(L, lock, free, lock.owner, R[j].write, x);
      assert false;
    }
  }

  /** Byte `x` lies inside `r` or next to it. */
  predicate Near(x: nat, r: Rec) {
    r.start - 1 <= x && (r.end == -1 || x <= r.end + 1)
  }

  lemma ApartIffNotNear(a: Rec, r: Rec)
    requires WF(a) && WF(r) && a.owner == r.owner && a.write == r.write
    ensures Apart(a, r) && Apart(r, a) <==> forall x: nat :: Near(x, r) ==> !Covers(a, x)
  {
    var x: nat := if a.start < r.start - 1 then r.start - 1 else a.start;
    assert !(Apart(a, r) && Apart(r, a)) ==> Near(x, r) && Covers(a, x);
  }

  lemma WhichPart(M: seq<Rec>, L: seq<Rec>, j: int) returns (k: int)
    requires AllWithin(M, L) && 0 <= j < |M|
    ensures 0 <= k < |L| && Within(M[j], L[k])
  {
    assert PartOf(M[j], L);
    k :| 0 <= k < |L| && Within(M[j], L[k]);
  }

  lemma NotNearRequest(r: Rec, lock: Rec, x: nat)
    requires WF(r) && WF(lock) && r.owner == lock.owner && r.write == lock.write
    requires !Absorbs(r, Widen(lock)) && Near(x, r) && lock.end != MAX_OFF
    ensures !Covers(lock, x)
  {
  }

  lemma FarFromAbsorbed(L: seq<Rec>, i: int, k: int, x: nat)
    requires AllWF(L) && Canonical(L) && 0 <= i < |L| && 0 <= k < |L| && i != k
    requires L[i].owner == L[k].owner && L[i].write == L[k].write && Near(x, L[k])
    ensures !Covers(L[i], x)
  {
    assert Apart(L[k], L[i]) && Apart(L[i], L[k]);
    ApartIffNotNear(L[i], L[k]);
  }

  /** A record of the caller with the requested type that was not absorbed keeps a gap
      to the grown lock, or, below a request that ends at the top offset, does not reach it,
      or is cut. */
  lemma StaysAway(L: seq<Rec>, lock: Rec, free: seq<nat>, r: Rec)
    requires AllWF(L) && WF(lock) && Canonical(L) && lock.end != MAX_OFF
    requires var m := Absorb(L, Widen(lock), lock.start, lock.end, free);
             m.free != [] && r in m.list && r.owner == lock.owner && r.write == lock.write
    ensures var g := Grown(lock, Absorb(L, Widen(lock), lock.start, lock.end, free)); Apart(g, r) && Apart(r, g)
  {
    hide Absorb, Canonical, Apart, Near, Pool, AllWithin, Meets;
    var wide := Widen(lock);
    var m := Absorb(L, wide, lock.start, lock.end, free);
    var grown := Grown(lock, m);
    MergeBasics(L, lock, free);
    var k :| 0 <= k < |L| && L[k] == r;
    forall x: nat | Near(x, r) ensures !Covers(grown, x) {
      forall i | 0 <= i < |L| ensures !AbsorbsByte(L[i], wide, x) {
        if i != k && Absorbs(L[i], wide) { FarFromAbsorbed(L, i, k, x); }
      }
      NotNearRequest(r, lock, x);
      GrowsExactly(L, lock, free, x);
    }
    ApartIffNotNear(grown, r);
  }

  // ----- what every addition keeps -----

  lemma AddIsWF(L: seq<Rec>, lock: Rec, free: seq<nat>)
    requires AllWF(L) && WF(lock) && NoClash(L) && NoWrap(L, lock)
    ensures AllWF(Add(L, lock, free).list)
    ensures !Add(L, lock, free).granted ==> free == [] && Add(L, lock, free).list == L && Add(L, lock, free).free == []
  {
    hide Absorb, Remove, NoWrap, NoClash, Widen, Pool, AllWithin;
    MergeBasics(L, lock, free);
    var m := Absorb(L, Widen(lock), lock.start, lock.end, free);
    if m.free != [] {
      GrownDoesNotWrap(L, lock, free);
      RemoveShrinks(m.list, Grown(lock, m), m.free[1..]);
    }
  }

  /** Adding moves pool records between the list and the free list, and loses none. */
  lemma AddKeepsPool(L: seq<Rec>, lock: Rec, free: seq<nat>)
    ensures Pool(Add(L, lock, free).list, Add(L, lock, free).free) == Pool(L, free)
  {
    hide Absorb, Remove, Widen, AllWithin, Pool, Absorbs;
    MergeBasics(L, lock, free);
    var m := Absorb(L, Widen(lock), lock.start, lock.end, free);
    if m.free != [] {
      var grown, rest := Grown(lock, m), m.free[1..];
      var R := Remove(m.list, grown, rest);
      RemoveKeepsPool(m.list, grown, rest);
      PoolCons(grown, R.list, R.free);
      PoolCons(grown, m.list, rest);
      assert m.free == [grown.id] + rest;
    }
  }

  /** Whatever the free list allowed, no conflicting pair appears. */
  lemma AddKeepsConflictFree(L: seq<Rec>, lock: Rec, free: seq<nat>)
    requires AllWF(L) && WF(lock) && NoClash(L) && NoWrap(L, lock) && ConflictFree(L)
    requires forall i :: 0 <= i < |L| ==> !Blocks(L[i], lock)
    ensures ConflictFree(Add(L, lock, free).list)
  {
    hide Absorb, Remove, NoWrap, NoClash, Widen, Pool, PartOf;
    var m := Absorb(L, Widen(lock), lock.start, lock.end, free);
    MergeBasics(L, lock, free);
    WithinKeepsConflictFree(L, m.list);
    if m.free != [] {
      var grown := Grown(lock, m);
      var R := Remove(m.list, grown, m.free[1..]).list;
      GrownDoesNotWrap(L, lock, free);
      RemoveShrinks(m.list, grown, m.free[1..]);
      WithinKeepsConflictFree(m.list, R);
      forall j | 0 <= j < |R| ensures !Blocks(R[j], grown) && !Blocks(grown, R[j]) {
        var k := WhichPart(R, m.list, j);
        var y := WhichPart(m.list, L, k);
        GrownBlocksNobody(L, lock, free, L[y]);
        BlocksShrinks(L[y], grown, R[j], grown);
        MeetsIffShareByte(R[j], grown);
      }
      ConflictFreeCons(grown, R);
    }
  }

  lemma ConflictFreeCons(x: Rec, R: seq<Rec>)
    requires ConflictFree(R) && forall j :: 0 <= j < |R| ==> !Blocks(R[j], x) && !Blocks(x, R[j])
    ensures ConflictFree([x] + R)
  {
    var xs := [x] + R;
    forall i, j | 0 <= i < |xs| && 0 <= j < |xs| ensures !Blocks(xs[i], xs[j]) {
      assert i > 0 ==> xs[i] == R[i - 1];
      assert j > 0 ==> xs[j] == R[j - 1];
    }
  }

  lemma GrownBlocksNobody(L: seq<Rec>, lock: Rec, free: seq<nat>, y: Rec)
    requires AllWF(L) && WF(lock) && ConflictFree(L) && y in L
    requires forall i :: 0 <= i < |L| ==> !Blocks(L[i], lock)
    requires Absorb(L, Widen(lock), lock.start, lock.end, free).free != []
    ensures !Blocks(y, Grown(lock, Absorb(L, Widen(lock), lock.start, lock.end, free)))
  {
    hide Absorb;
    var wide := Widen(lock);
    var grown := Grown(lock, Absorb(L, wide, lock.start, lock.end, free));
    GrowsExactly(L, lock, free, 0);
    MeetsIffShareByte(y, grown);
    MeetsIffShareByte(y, lock);
    var k :| 0 <= k < |L| && L[k] == y;
    assert !Blocks(L[k], lock);
    if Meets(y, grown) && y.owner != lock.owner {
      var x: nat :| Covers(y, x) && Covers(grown, x);
      GrowsExactly(L, lock, free, x);
      if !Covers(lock, x) {
        var i :| 0 <= i < |L| && AbsorbsByte(L[i], wide, x);
        MeetsIffShareByte(y, L[i]);
        assert !Blocks(L[k], L[i]);
      }
    }
  }

  /** The ends of records after a removal: those at the top offset and to the end of the file
      were there before. */
  lemma {:induction false} RemoveEnds(L: seq<Rec>, lock: Rec, free: seq<nat>, j: int)
    requires AllWF(L) && WF(lock) && NoWrap(L, lock) && 0 <= j < |Remove(L, lock, free).list|
    ensures var r := Remove(L, lock, free).list[j];
            r.end == -1 || r.end == MAX_OFF ==> exists i :: 0 <= i < |L| && L[i].owner == r.owner && L[i].end == r.end
  {
    hide Meets, NoWrap;
    var R := Remove(L, lock, free).list;
    var r := R[j];
    if L != [] && (r.end == -1 || r.end == MAX_OFF) {
      var T := L[1..];
      var c := Cut(L[0], lock);
      assert L == [L[0]] + T;
      NoWrapCons(L[0], T, lock);
      assert forall i :: 0 <= i < |T| ==> T[i] == L[i + 1];
      if L[0].owner != lock.owner || !Meets(L[0], lock) {
        if j > 0 { RemoveEnds(T, lock, free, j - 1); }
      } else if |c| == 0 {
        RemoveEnds(T, lock, [L[0].id] + free, j);
      } else if |c| == 1 {
        if j > 0 { RemoveEnds(T, lock, free, j - 1); }
      } else if free != [] {
        PieceIsPassed(L, lock, free);
        if j > 1 { RemoveEnds(T, lock, free[1..], j - 2); }
      }
    }
  }

  /** A lock to the end of the file never has to be cut around. */
  lemma {:induction false} ToTheEndIsServed(L: seq<Rec>, lock: Rec, free: seq<nat>)
    requires lock.end == -1
    ensures Remove(L, lock, free).ok
  {
    if L != [] {
      ToTheEndIsServed(L[1..], lock, free);
      ToTheEndIsServed(L[1..], lock, [L[0].id] + free);
    }
  }

  lemma RemoveKeepsNoClash(L: seq<Rec>, lock: Rec, free: seq<nat>)
    requires AllWF(L) && WF(lock) && NoClash(L) && NoWrap(L, lock)
    ensures NoClash(Remove(L, lock, free).list)
  {
    hide Remove;
    var R := Remove(L, lock, free).list;
    forall i, j | 0 <= i < |R| && 0 <= j < |R| && R[i].owner == R[j].owner && R[i].end == -1
      ensures R[j].end != MAX_OFF
    {
      RemoveEnds(L, lock, free, i);
      RemoveEnds(L, lock, free, j);
    }
  }

  lemma AddKeepsNoClash(L: seq<Rec>, lock: Rec, free: seq<nat>)
    requires AllWF(L) && WF(lock) && NoClash(L) && NoWrap(L, lock)
    ensures NoClash(Add(L, lock, free).list)
  {
    hide Absorb, Remove, Widen, Pool, AllWithin;
    MergeBasics(L, lock, free);
    var m := Absorb(L, Widen(lock), lock.start, lock.end, free);
    forall i, j | 0 <= i < |m.list| && 0 <= j < |m.list| && m.list[i].owner == m.list[j].owner && m.list[i].end == -1
      ensures m.list[j].end != MAX_OFF
    {
      assert m.list[i] in L && m.list[j] in L;
    }
    if m.free != [] {
      var grown, rest := Grown(lock, m), m.free[1..];
      var R := Remove(m.list, grown, rest).list;
      GrownDoesNotWrap(L, lock, free);
      RemoveKeepsNoClash(m.list, grown, rest);
      RemoveShrinks(m.list, grown, rest);
      forall j | 0 <= j < |R| && R[j].owner == lock.owner
        ensures !(grown.end == -1 && R[j].end == MAX_OFF) && !(grown.end == MAX_OFF && R[j].end == -1)
      {
        RemoveEnds(m.list, grown, rest, j);
        if grown.end == -1 {
          ToTheEndIsServed(m.list, grown, rest);
          RemovedLeavesNothing(m.list, grown, rest, j);
        }
      }
      NoClashCons(grown, R);
    }
  }

  lemma NoClashCons(x: Rec, R: seq<Rec>)
    requires NoClash(R) && forall j :: 0 <= j < |R| && R[j].owner == x.owner ==>
               !(x.end == -1 && R[j].end == MAX_OFF) && !(x.end == MAX_OFF && R[j].end == -1)
    ensures NoClash([x] + R)
  {
    var xs := [x] + R;
    forall i, j | 0 <= i < |xs| && 0 <= j < |xs| && xs[i].owner == xs[j].owner && xs[i].end == -1
      ensures xs[j].end != MAX_OFF
    {
      assert i > 0 ==> xs[i] == R[i - 1];
      assert j > 0 ==> xs[j] == R[j - 1];
    }
  }

  /** What one process does to its locks does not make a request of another one wrap. */
  lemma OthersStayHarmless(L: seq<Rec>, M: seq<Rec>, want: Rec)
    requires AllWF(L) && AllWF(M) && WF(want) && NoWrap(L, want)
    requires forall j :: 0 <= j < |M| && M[j].owner == want.owner && M[j].end == -1 ==>
               exists i :: 0 <= i < |L| && L[i].owner == want.owner && L[i].end == -1
    ensures NoWrap(M, want)
  {
    forall j | 0 <= j < |M| && M[j].owner == want.owner && Meets(M[j], want) ensures !Wraps(M[j], want) {
      if Wraps(M[j], want) {
        var i :| 0 <= i < |L| && L[i].owner == want.owner && L[i].end == -1;
        ToTheEndMeets(L[i], want);
      }
    }
  }

  lemma AddStaysHarmless(L: seq<Rec>, lock: Rec, free: seq<nat>, want: Rec)
    requires AllWF(L) && WF(lock) && NoClash(L) && NoWrap(L, lock) && WF(want) && NoWrap(L, want)
    requires want.owner != lock.owner
    ensures NoWrap(Add(L, lock, free).list, want)
  {
    hide Absorb, Remove, Widen, Pool, AllWithin, NoWrap, NoClash;
    MergeBasics(L, lock, free);
    AddIsWF(L, lock, free);
    var m := Absorb(L, Widen(lock), lock.start, lock.end, free);
    var M := Add(L, lock, free).list;
    forall j | 0 <= j < |M| && M[j].owner == want.owner && M[j].end == -1
      ensures exists i :: 0 <= i < |L| && L[i].owner == want.owner && L[i].end == -1
    {
      if m.free == [] {
        assert M[j] == L[j];
      } else {
        var R := Remove(m.list, Grown(lock, m), m.free[1..]).list;
        assert M[j] == R[j - 1];
        GrownDoesNotWrap(L, lock, free);
        RemoveEnds(m.list, Grown(lock, m), m.free[1..], j - 1);
        var k :| 0 <= k < |m.list| && m.list[k].owner == want.owner && m.list[k].end == -1;
        assert m.list[k] in L;
      }
    }
    OthersStayHarmless(L, M, want);
  }

  lemma RemoveStaysHarmless(L: seq<Rec>, lock: Rec, free: seq<nat>, want: Rec)
    requires AllWF(L) && WF(lock) && NoWrap(L, lock) && WF(want) && NoWrap(L, want)
    ensures NoWrap(Remove(L, lock, free).list, want)
  {
    hide Remove, NoWrap;
    RemoveShrinks(L, lock, free);
    var M := Remove(L, lock, free).list;
    forall j | 0 <= j < |M| && M[j].owner == want.owner && M[j].end == -1
      ensures exists i :: 0 <= i < |L| && L[i].owner == want.owner && L[i].end == -1
    {
      RemoveEnds(L, lock, free, j);
    }
    OthersStayHarmless(L, M, want);
  }

  // ----- who is in whose way -----

  /** Adding leaves the records of others as they were. */
  lemma OthersAreOld(L: seq<Rec>, lock: Rec, free: seq<nat>, i: nat)
    requires i < |Add(L, lock, free).list| && Add(L, lock, free).list[i].owner != lock.owner
    ensures Add(L, lock, free).list[i] in L
  {
    hide Absorb, Remove, Pool, Widen;
    var m := Absorb(L, Widen(lock), lock.start, lock.end, free);
    MergeBasics(L, lock, free);
    if m.free != [] {
      var j := OthersFrom(m.list, Grown(lock, m), m.free[1..], i - 1);
    }
  }

  /** The records that stand in the way of others after the request were in their way
      before, or belong to the caller. */
  lemma AddBlocksOnlyForCaller(L: seq<Rec>, lock: Rec, free: seq<nat>, want: Rec, i: nat)
    requires i < |Add(L, lock, free).list| && Blocks(Add(L, lock, free).list[i], want)
    ensures var r := Add(L, lock, free).list[i];
            r.owner == lock.owner || exists j :: 0 <= j < |L| && L[j].owner == r.owner && Blocks(L[j], want)
  {
    hide Add, Blocks;
    if Add(L, lock, free).list[i].owner != lock.owner { OthersAreOld(L, lock, free, i); }
  }
}
