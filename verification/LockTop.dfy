/** Requests that end at the top offset. */
module LockTop {
  // One more than the top offset is not an offset: the lock code then computes a start below
  // zero.  Here is, for removing and for adding, exactly when that does harm.

  import opened LockRecords
  import opened LockAdding

  // ----- removing: the lock map -----

  /** A served removal is exact if and only if no own record that it meets runs to the
      end of the file while the request ends at the top offset. */
  lemma RemovalExactIffNoWrap(L: seq<Rec>, lock: Rec, free: seq<nat>)
    requires AllWF(L) && WF(lock) && Remove(L, lock, free).ok
    ensures NoWrap(L, lock) <==>
            forall q: Proc, w: bool, b: nat :: Held(Remove(L, lock, free).list, q, w, b) <==>
                                         Held(L, q, w, b) && !(q == lock.owner && Covers(lock, b))
  {
    if NoWrap(L, lock) {
      forall q: Proc, w: bool, b: nat
        ensures Held(Remove(L, lock, free).list, q, w, b) <==> Held(L, q, w, b) && !(q == lock.owner && Covers(lock, b))
      {
        RemoveIsExact(L, lock, free, q, w, b);
      }
    } else {
      RemoveFailsOnWrap(L, lock, free);
    }
  }

  /** Such an unlock strictly inside a lock to the end of the file drains the pool,
      however many records it has, and fails. */
  lemma TopOffsetDrainsPool(x: Rec, lock: Rec, free: seq<nat>)
    requires x.owner == lock.owner && x.end == -1 && lock.end == MAX_OFF && x.start < lock.start
    requires 0 <= lock.start <= MAX_OFF
    ensures !Remove([x], lock, free).ok && Remove([x], lock, free).free == []
  {
    DrainsPool(x, [], lock, free);
    assert [x] + [] == [x];
  }

  // ----- removing: exclusion -----

  /** Unlocking up to offset 2^31-1 inside a lock to the end of the file breaks mutual
      exclusion: the remaining record starts below zero and runs over everything. */
  lemma TopOffsetBreaksExclusion()
    ensures var L := [Rec(0, false, 100, -1, 1), Rec(1, true, 0, 50, 2)];
            && AllWF(L) && ConflictFree(L) && Canonical(L)
            && !ConflictFree(Remove(L, Rec(2, false, 100, MAX_OFF, 1), []).list)
  {
    var L := [Rec(0, false, 100, -1, 1), Rec(1, true, 0, 50, 2)];
    var lock := Rec(2, false, 100, MAX_OFF, 1);
    assert L[1..] == [L[1]] && L[1..][1..] == [];
    assert Remove(L[1..], lock, []).list == [L[1]];
    var M := Remove(L, lock, []).list;
    assert M == [Rec(0, false, BOTTOM, -1, 1), L[1]];
    assert Blocks(M[0], M[1]);
  }

  /** An own record to the end of the file comes to cover everything: at once when it does
      not begin before the request, else when there is a record for its second part. */
  predicate Overruns(r: Rec, lock: Rec, free: seq<nat>) {
    r.owner == lock.owner && r.end == -1 && lock.end == MAX_OFF && (r.start >= lock.start || free != [])
  }

  /** Of two locks of different processes one is for writing. */
  predicate Incompatible(a: Rec, b: Rec) {
    a.owner != b.owner && (a.write || b.write)
  }

  /** A removal keeps exclusion if and only if it does not turn an own record into one over
      everything that is incompatible with a record of somebody else. */
  lemma RemovalExcludesIff(L: seq<Rec>, lock: Rec, free: seq<nat>)
    requires AllWF(L) && WF(lock) && Canonical(L) && ConflictFree(L)
    ensures ConflictFree(Remove(L, lock, free).list) <==>
            !exists i, j :: 0 <= i < |L| && 0 <= j < |L| && Overruns(L[i], lock, free) && Incompatible(L[i], L[j])
  {
    var R := Remove(L, lock, free).list;
    if i, j :| 0 <= i < |L| && 0 <= j < |L| && Overruns(L[i], lock, free) && Incompatible(L[i], L[j]) {
      var k := OverrunIsThere(L, lock, free, i);
      var m := OthersStay(L, lock, free, j);
      assert Blocks(R[k], R[m]);
    } else if NoWrap(L, lock) {
      RemoveShrinks(L, lock, free);
      WithinKeepsConflictFree(L, R);
    } else {
      var i :| 0 <= i < |L| && L[i].owner == lock.owner && Meets(L[i], lock) && Wraps(L[i], lock);
      if Overruns(L[i], lock, free) {
        ReadersOnly(L, lock, free, i);
      } else {
        UnservedIsWhole(L, lock, i);
      }
    }
  }

  lemma {:induction false} StaysOverrun(x: Rec, T: seq<Rec>, lock: Rec, free: seq<nat>) returns (k: int)
    requires x.owner == lock.owner && x.end == -1 && x.start == BOTTOM && WF(lock) && lock.end == MAX_OFF
    ensures var R := Remove([x] + T, lock, free).list; 0 <= k < |R| && R[k].(id := x.id) == x
    decreases |free|
  {
    var L := [x] + T;
    assert L[1..] == T && Meets(x, lock) && |Cut(x, lock)| == 2;
    if free == [] {
      k := 0;
    } else {
      var piece := x.(start := Succ(lock.end)).(id := free[0]);
      assert Cut(x, lock)[1].(id := free[0]) == piece;
      k := StaysOverrun(piece, T, lock, free[1..]);
      k := k + 1;
    }
  }

  lemma {:induction false} OverrunIsThere(L: seq<Rec>, lock: Rec, free: seq<nat>, i: int) returns (k: int)
    requires AllWF(L) && WF(lock) && Canonical(L) && 0 <= i < |L| && Overruns(L[i], lock, free)
    ensures var R := Remove(L, lock, free).list; 0 <= k < |R| && R[k].(id := L[i].id) == L[i].(start := BOTTOM)
  {
    hide Canonical, Apart;
    var x, T := L[0], L[1..];
    var c := Cut(x, lock);
    CanonicalTail(L);
    assert L == [x] + T;
    ToTheEndMeets(L[i], lock);
    if i == 0 {
      if x.start >= lock.start {
        k := 0;
      } else {
        k := StaysOverrun(c[1].(id := free[0]), T, lock, free[1..]);
        k := k + 1;
      }
    } else if x.owner != lock.owner || !Meets(x, lock) {
      k := OverrunIsThere(T, lock, free, i - 1);
      k := k + 1;
    } else {
      OnlyOneToTheEnd(x, T[i - 1], lock);
      if |c| == 0 {
        k := OverrunIsThere(T, lock, [x.id] + free, i - 1);
      } else {
        k := OverrunIsThere(T, lock, free, i - 1);
        k := k + 1;
      }
    }
  }

  lemma OnlyOneToTheEnd(x: Rec, y: Rec, lock: Rec)
    requires WF(x) && WF(y) && WF(lock) && Apart(x, y) && x.owner == y.owner == lock.owner
    requires y.end == -1 && lock.end == MAX_OFF
    ensures |Cut(x, lock)| < 2
  {
  }

  /** Records of other processes are not touched. */
  lemma {:induction false} OthersStay(L: seq<Rec>, lock: Rec, free: seq<nat>, j: int) returns (k: int)
    requires 0 <= j < |L| && L[j].owner != lock.owner
    ensures var R := Remove(L, lock, free).list; 0 <= k < |R| && R[k] == L[j]
    decreases 2 * |L| + |free|
  {
    hide Meets, Cut;
    PiecesAtMostTwo(L[0], lock);
    var x, T := L[0], L[1..];
    var c := Cut(x, lock);
    if x.owner != lock.owner || !Meets(x, lock) {
      if j == 0 { return 0; }
      k := OthersStay(T, lock, free, j - 1);
      k := k + 1;
    } else if |c| == 0 {
      k := OthersStay(T, lock, [x.id] + free, j - 1);
    } else if |c| == 1 {
      k := OthersStay(T, lock, free, j - 1);
      k := k + 1;
    } else if free == [] {
      k := j;
    } else {
      k := OthersStay([c[1].(id := free[0])] + T, lock, free[1..], j);
      k := k + 1;
    }
  }

  /** Where a record would have to be cut in two and none is free, nothing changes. */
  lemma {:induction false} UnservedIsWhole(L: seq<Rec>, lock: Rec, i: int)
    requires AllWF(L) && WF(lock) && Canonical(L) && 0 <= i < |L| && CutInTwo(L[i], lock)
    ensures Remove(L, lock, []).list == L && Remove(L, lock, []).free == []
  {
    var x, T := L[0], L[1..];
    CanonicalTail(L);
    CutMeets(L[i], lock);
    assert L == [x] + T;
    if i == 0 {
      CutPieces(x, lock);
    } else {
      if x.owner == lock.owner { OnlyOneCut(T[i - 1], x, lock); }
      UnservedIsWhole(T, lock, i - 1);
    }
  }

  /** A record is part of one from before, or the caller's and for reading. */
  ghost predicate Tame(x: Rec, L: seq<Rec>, lock: Rec) {
    (WF(x) && PartOf(x, L)) || (x.owner == lock.owner && !x.write)
  }

  lemma {:induction false} StaysTame(M: seq<Rec>, L: seq<Rec>, lock: Rec, free: seq<nat>)
    requires WF(lock)
    requires forall i :: 0 <= i < |M| ==>
               Tame(M[i], L, lock) && (M[i].owner == lock.owner && M[i].end == -1 ==> !M[i].write)
    ensures forall k :: 0 <= k < |Remove(M, lock, free).list| ==> Tame(Remove(M, lock, free).list[k], L, lock)
    decreases 2 * |M| + |free|
  {
    hide Tame, Meets, Cut;
    if M != [] {
      var x, T := M[0], M[1..];
      var c := Cut(x, lock);
      if x.owner != lock.owner || !Meets(x, lock) {
        StaysTame(T, L, lock, free);
      } else {
        PiecesAtMostTwo(x, lock);
        PiecesTame(x, L, lock, 0);
        if |c| == 0 {
          StaysTame(T, L, lock, [x.id] + free);
        } else if |c| == 1 {
          StaysTame(T, L, lock, free);
        } else if free != [] {
          var N := [c[1].(id := free[0])] + T;
          PiecesTame(x, L, lock, free[0]);
          assert forall i :: 1 <= i < |N| ==> N[i] == M[i];
          StaysTame(N, L, lock, free[1..]);
        }
      }
    }
  }

  lemma PiecesTame(x: Rec, L: seq<Rec>, lock: Rec, id: nat)
    requires WF(lock) && Tame(x, L, lock) && x.owner == lock.owner && Meets(x, lock) && (x.end == -1 ==> !x.write)
    ensures forall k :: 0 <= k < |Cut(x, lock)| ==> var p := Cut(x, lock)[k].(id := id);
              Tame(p, L, lock) && Tame(Cut(x, lock)[k], L, lock) && p.owner == x.owner && p.write == x.write
    ensures |Cut(x, lock)| == 2 ==> Cut(x, lock)[1].end == x.end
  {
    if x.write {
      var y :| 0 <= y < |L| && Within(x, L[y]);
      forall k | 0 <= k < |Cut(x, lock)|
        ensures Tame(Cut(x, lock)[k], L, lock) && Tame(Cut(x, lock)[k].(id := id), L, lock)
      {
        assert Within(Cut(x, lock)[k], L[y]) && Within(Cut(x, lock)[k].(id := id), L[y]);
      }
    }
  }

  /** An own read record that overruns conflicts with nobody when all others read. */
  lemma ReadersOnly(L: seq<Rec>, lock: Rec, free: seq<nat>, i: int)
    requires AllWF(L) && WF(lock) && Canonical(L) && ConflictFree(L) && 0 <= i < |L| && Overruns(L[i], lock, free)
    requires !exists a, b :: 0 <= a < |L| && 0 <= b < |L| && Overruns(L[a], lock, free) && Incompatible(L[a], L[b])
    ensures ConflictFree(Remove(L, lock, free).list)
  {
    var R := Remove(L, lock, free).list;
    if exists j :: 0 <= j < |L| && L[j].owner != lock.owner {
      forall k | 0 <= k < |L|
        ensures Tame(L[k], L, lock) && (L[k].owner == lock.owner && L[k].end == -1 ==> !L[k].write)
      {
        assert Within(L[k], L[k]);
        if k != i { assert Apart(L[i], L[k]); }
      }
      StaysTame(L, L, lock, free);
      forall j | 0 <= j < |L| && L[j].owner != lock.owner ensures !L[j].write {
        assert !Incompatible(L[i], L[j]);
      }
      forall a, b | 0 <= a < |R| && 0 <= b < |R| ensures !Blocks(R[a], R[b]) {
        TamePair(R[a], R[b], L, lock);
      }
    } else {
      forall k | 0 <= k < |R| ensures R[k].owner == lock.owner {
        OwnersFrom(L, lock, free, k);
      }
    }
  }

  lemma TamePair(x: Rec, y: Rec, L: seq<Rec>, lock: Rec)
    requires AllWF(L) && ConflictFree(L) && Tame(x, L, lock) && Tame(y, L, lock)
    requires forall j :: 0 <= j < |L| && L[j].owner != lock.owner ==> !L[j].write
    ensures !Blocks(x, y)
  {
    if x.owner != y.owner && WF(x) && WF(y) && PartOf(x, L) && PartOf(y, L) {
      var p :| 0 <= p < |L| && Within(x, L[p]);
      var q :| 0 <= q < |L| && Within(y, L[q]);
      BlocksShrinks(L[p], L[q], x, y);
    }
  }

  lemma {:induction false} OwnersFrom(L: seq<Rec>, lock: Rec, free: seq<nat>, k: int)
    requires 0 <= k < |Remove(L, lock, free).list| && forall j :: 0 <= j < |L| ==> L[j].owner == lock.owner
    ensures Remove(L, lock, free).list[k].owner == lock.owner
    decreases 2 * |L| + |free|
  {
    if L != [] {
      var x, T := L[0], L[1..];
      var c := Cut(x, lock);
      if !Meets(x, lock) {
        if k > 0 { OwnersFrom(T, lock, free, k - 1); }
      } else if |c| == 0 {
        OwnersFrom(T, lock, [x.id] + free, k);
      } else if |c| == 1 {
        if k > 0 { OwnersFrom(T, lock, free, k - 1); }
      } else if free != [] {
        if k > 0 { OwnersFrom([c[1].(id := free[0])] + T, lock, free[1..], k - 1); }
      }
    }
  }

  // ----- removing: the canonical form -----

  /** A removal keeps the canonical form if and only if it does not turn an own record into one
      over everything while another piece of the caller's is left below the request. */
  lemma RemovalCanonicalIff(L: seq<Rec>, lock: Rec, free: seq<nat>)
    requires AllWF(L) && WF(lock) && Canonical(L)
    ensures Canonical(Remove(L, lock, free).list) <==>
            !exists i, j :: 0 <= i < |L| && 0 <= j < |L| && Overruns(L[i], lock, free) && LeftBelow(L[j], lock)
  {
    hide Remove, Canonical;
    var R := Remove(L, lock, free).list;
    if i, j :| 0 <= i < |L| && 0 <= j < |L| && Overruns(L[i], lock, free) && LeftBelow(L[j], lock) {
      var k := OverrunIsThere(L, lock, free, i);
      var m := StartStays(L, lock, free, j);
      NotApart(R[k], R[m]);
      NotCanonical(R, k, m);
    } else if NoWrap(L, lock) {
      RemoveKeepsCanonical(L, lock, free);
    } else {
      var i :| 0 <= i < |L| && L[i].owner == lock.owner && Meets(L[i], lock) && Wraps(L[i], lock);
      if Overruns(L[i], lock, free) {
        forall j | 0 <= j < |L| && L[j].owner == lock.owner ensures L[j].start >= lock.start {
          assert !LeftBelow(L[j], lock);
        }
        OnlyOneIsLeft(L, lock, free);
      } else {
        UnservedIsWhole(L, lock, i);
      }
    }
  }

  /** A record of the caller that begins below the request. */
  predicate LeftBelow(r: Rec, lock: Rec) {
    r.owner == lock.owner && r.start < lock.start
  }

  lemma NotApart(x: Rec, y: Rec)
    requires x.owner == y.owner && x.start == BOTTOM && x.end == -1 && y.start >= 0 && (y.end == -1 || y.end >= 0)
    ensures !Apart(x, y)
  {
  }

  /** Where a record of the caller begins below the request, a piece remains. */
  lemma {:induction false} StartStays(L: seq<Rec>, lock: Rec, free: seq<nat>, j: int) returns (m: int)
    requires 0 <= j < |L| && WF(L[j]) && LeftBelow(L[j], lock)
    ensures var R := Remove(L, lock, free).list;
            0 <= m < |R| && R[m].owner == lock.owner && R[m].start == L[j].start && (R[m].end == -1 || R[m].end >= 0)
    decreases 2 * |L| + |free|
  {
    hide Meets;
    PiecesAtMostTwo(L[0], lock);
    var x, T := L[0], L[1..];
    var c := Cut(x, lock);
    if j == 0 { return 0; }
    if x.owner != lock.owner || !Meets(x, lock) {
      m := StartStays(T, lock, free, j - 1);
      m := m + 1;
    } else if |c| == 0 {
      m := StartStays(T, lock, [x.id] + free, j - 1);
    } else if |c| == 1 {
      m := StartStays(T, lock, free, j - 1);
      m := m + 1;
    } else if free == [] {
      m := j;
    } else {
      m := StartStays([c[1].(id := free[0])] + T, lock, free[1..], j);
      m := m + 1;
    }
  }

  /** With nothing of the caller's below the request, one record at most is left to it. */
  lemma {:induction false} OnlyOneIsLeft(L: seq<Rec>, lock: Rec, free: seq<nat>)
    requires AllWF(L) && WF(lock) && Canonical(L) && lock.end == MAX_OFF
    requires forall j :: 0 <= j < |L| && L[j].owner == lock.owner ==> L[j].start >= lock.start
    ensures Canonical(Remove(L, lock, free).list)
  {
    hide Canonical, Apart;
    if L == [] {
      NothingIsCanonical();
    } else {
      var x, T := L[0], L[1..];
      var c := Cut(x, lock);
      CanonicalTail(L);
      if x.owner != lock.owner {
        OnlyOneIsLeft(T, lock, free);
        var R := Remove(T, lock, free).list;
        forall j | 0 <= j < |R| ensures Apart(x, R[j]) && Apart(R[j], x) {
          if R[j].owner == lock.owner {
            OwnersApart(x, R[j]);
          } else {
            var k := OthersFrom(T, lock, free, j);
          }
        }
        CanonicalCons(x, R);
      } else if x.end != -1 {
        assert Meets(x, lock) && |c| == 0;
        OnlyOneIsLeft(T, lock, [x.id] + free);
      } else {
        assert Meets(x, lock) && |c| == 1;
        forall j | 0 <= j < |T| && T[j].owner == lock.owner ensures T[j].end != -1 {
          OneToTheEnd(x, T[j]);
        }
        NoneIsLeft(T, lock, free);
        OnlyOneIsLeft(T, lock, free);
        var R := Remove(T, lock, free).list;
        forall j | 0 <= j < |R| ensures Apart(c[0], R[j]) && Apart(R[j], c[0]) {
          OwnersApart(c[0], R[j]);
        }
        CanonicalCons(c[0], R);
      }
    }
  }

  lemma NothingIsCanonical()
    ensures Canonical([])
  {
  }

  lemma OwnersApart(x: Rec, y: Rec)
    requires x.owner != y.owner
    ensures Apart(x, y) && Apart(y, x)
  {
  }

  lemma OneToTheEnd(x: Rec, y: Rec)
    requires WF(x) && WF(y) && Apart(x, y) && x.owner == y.owner && x.end == -1
    ensures y.end != -1
  {
  }

  /** Records of the caller that lie inside the request are removed. */
  lemma {:induction false} NoneIsLeft(L: seq<Rec>, lock: Rec, free: seq<nat>)
    requires AllWF(L) && WF(lock) && lock.end == MAX_OFF
    requires forall j :: 0 <= j < |L| && L[j].owner == lock.owner ==> L[j].start >= lock.start && L[j].end != -1
    ensures forall k :: 0 <= k < |Remove(L, lock, free).list| ==> Remove(L, lock, free).list[k].owner != lock.owner
  {
    if L != [] {
      if L[0].owner == lock.owner {
        assert Meets(L[0], lock) && |Cut(L[0], lock)| == 0;
        NoneIsLeft(L[1..], lock, [L[0].id] + free);
      } else {
        NoneIsLeft(L[1..], lock, free);
      }
    }
  }

  /** At the top offset a record of the caller to the end of the file leaves one. */
  lemma {:induction false} EndStays(L: seq<Rec>, lock: Rec, free: seq<nat>, i: int) returns (k: int)
    requires 0 <= i < |L| && L[i].owner == lock.owner && L[i].end == -1 && lock.end == MAX_OFF
    ensures var R := Remove(L, lock, free).list; 0 <= k < |R| && R[k].owner == lock.owner && R[k].end == -1
    decreases 2 * |L| + |free|
  {
    hide Meets;
    PiecesAtMostTwo(L[0], lock);
    var x, T := L[0], L[1..];
    var c := Cut(x, lock);
    if x.owner != lock.owner || !Meets(x, lock) {
      if i == 0 { return 0; }
      k := EndStays(T, lock, free, i - 1);
      k := k + 1;
    } else if |c| == 0 {
      k := EndStays(T, lock, [x.id] + free, i - 1);
    } else if |c| == 1 {
      if i == 0 { return 0; }
      k := EndStays(T, lock, free, i - 1);
      k := k + 1;
    } else if free == [] {
      k := i;
    } else {
      k := EndStays([c[1].(id := free[0])] + T, lock, free[1..], i);
      k := k + 1;
    }
  }

  /** A granted request that wraps leaves the caller a record that ends where its own can never
      be merged with one to the end of the file. */
  lemma WrappingClashes(L: seq<Rec>, lock: Rec, free: seq<nat>)
    requires AllWF(L) && WF(lock) && !NoWrap(L, lock)
    ensures Add(L, lock, free).granted <==> free != []
    ensures free == [] ==> Add(L, lock, free).list == L && Add(L, lock, free).free == []
    ensures free != [] ==> !NoClash(Add(L, lock, free).list)
  {
    hide Remove, NoClash;
    var i :| 0 <= i < |L| && L[i].owner == lock.owner && Meets(L[i], lock) && Wraps(L[i], lock);
    AddedAsItStands(L, lock, free);
    NothingIsMerged(L, lock, free);
    if free != [] {
      var g, rest := lock.(id := free[0]), free[1..];
      var k := EndStays(L, g, rest, i);
      Clashes(Add(L, lock, free).list, k + 1, 0);
    }
  }

  lemma Clashes(L: seq<Rec>, i: int, j: int)
    requires 0 <= i < |L| && 0 <= j < |L| && L[i].owner == L[j].owner && L[i].end == -1 && L[j].end == MAX_OFF
    ensures !NoClash(L)
  {
  }

  // ----- adding -----

  /** A request that ends at the top offset is added as it stands. */
  lemma AddedAsItStands(L: seq<Rec>, lock: Rec, free: seq<nat>)
    requires AllWF(L) && WF(lock) && lock.end == MAX_OFF
    ensures Add(L, lock, free).granted <==> free != []
    ensures free != [] ==>
              var g := lock.(id := free[0]);
              Add(L, lock, free).list == [g] + Remove(L, g, free[1..]).list
                  && Add(L, lock, free).served == Remove(L, g, free[1..]).ok
    ensures !SomeAbsorbed(L, lock)
  {
    NothingIsMerged(L, lock, free);
    hide Absorb, Remove;
    forall i | 0 <= i < |L| ensures !Absorbs(L[i], Widen(lock)) {
    }
  }

  /** The harmful record of a request that ends at the top offset, and where it goes. */
  lemma HarmfulRecord(L: seq<Rec>, lock: Rec, free: seq<nat>) returns (i: int, k: int)
    requires AllWF(L) && WF(lock) && Canonical(L) && !NoWrap(L, lock) && Enough(L, lock, free)
    ensures lock.end == MAX_OFF && free != []
    ensures 0 <= i < |L| && L[i].owner == lock.owner && L[i].end == -1 && L[i].start >= lock.start
    ensures var R := Remove(L, lock.(id := free[0]), free[1..]).list;
              0 <= k < |R| && R[k].(id := L[i].id) == L[i].(start := BOTTOM)
  {
    hide Remove, Canonical, Absorbs;
    i :| 0 <= i < |L| && L[i].owner == lock.owner && Meets(L[i], lock) && Wraps(L[i], lock);
    AddedAsItStands(L, lock, free);
    var g := lock.(id := free[0]);
    assert !CutInTwo(L[i], lock);
    k := OverrunIsThere(L, g, free[1..], i);
  }

  /** With enough records, adding keeps the canonical form if and only if it does not wrap and,
      ending at the top offset, does not touch an own lock of the same type from above: such
      neighbours are not merged. */
  lemma AddCanonicalIff(L: seq<Rec>, lock: Rec, free: seq<nat>)
    requires AllWF(L) && WF(lock) && Canonical(L) && Enough(L, lock, free)
    ensures Canonical(Add(L, lock, free).list) <==> NoWrap(L, lock) && (lock.end == MAX_OFF ==> !TouchedBelow(L, lock))
  {
    hide Remove, Absorbs, Enough;
    var A := Add(L, lock, free).list;
    if !NoWrap(L, lock) {
      var i, k := HarmfulRecord(L, lock, free);
      AddedAsItStands(L, lock, free);
      assert A[0] == lock.(id := free[0]) && A[k + 1].start == BOTTOM;
      assert !Apart(A[0], A[k + 1]);
    } else if lock.end == MAX_OFF && TouchedBelow(L, lock) {
      TouchingStays(L, lock, free);
    } else {
      AddKeepsCanonical(L, lock, free);
    }
  }

  lemma TouchingStays(L: seq<Rec>, lock: Rec, free: seq<nat>)
    requires AllWF(L) && WF(lock) && Canonical(L) && NoWrap(L, lock) && Enough(L, lock, free)
    requires lock.end == MAX_OFF && TouchedBelow(L, lock)
    ensures !Canonical(Add(L, lock, free).list)
  {
    hide Remove, Absorbs, Canonical, Enough;
    AddServedIff(L, lock, free);
    AddedAsItStands(L, lock, free);
    var g, rest := lock.(id := free[0]), free[1..];
    SameRange(L, lock, g);
    var R, t := Remove(L, g, rest).list, lock.start - 1;
    var i :| 0 <= i < |L| && ReachesFromBelow(L[i], lock);
    if L[i].end == -1 { ToTheEndMeets(L[i], lock); }
    assert HeldBy(L[i], lock.owner, lock.write, t);
    RemoveIsExact(L, g, rest, lock.owner, lock.write, t);
    RemoveShrinks(L, g, rest);
    var k :| 0 <= k < |R| && HeldBy(R[k], lock.owner, lock.write, t);
    ApartIffNotNear(R[k], g);
    assert Near(t, g);
    NotCanonical(Add(L, lock, free).list, 0, k + 1);
  }

  lemma NotCanonical(A: seq<Rec>, i: int, j: int)
    requires 0 <= i < |A| && 0 <= j < |A| && i != j && !(Apart(A[i], A[j]) && Apart(A[j], A[i]))
    ensures !Canonical(A)
  {
  }

  /** The request and what the caller has of its type make up the whole file. */
  ghost predicate CompletesTheFile(L: seq<Rec>, lock: Rec) {
    forall b: nat :: Covers(lock, b) || Held(L, lock.owner, lock.write, b)
  }

  /** The lock map after adding is that of before with the requested range set. */
  ghost predicate IsSet(L: seq<Rec>, lock: Rec, A: seq<Rec>) {
    forall q: Proc, w: bool, b: nat ::
      Held(A, q, w, b) <==> if q == lock.owner && Covers(lock, b) then w == lock.write else Held(L, q, w, b)
  }

  /** With enough records, adding is exact if and only if it does not wrap, or the caller
      ends up with the whole file anyway. */
  lemma AddExactIff(L: seq<Rec>, lock: Rec, free: seq<nat>)
    requires AllWF(L) && WF(lock) && Canonical(L) && Enough(L, lock, free)
    ensures IsSet(L, lock, Add(L, lock, free).list) <==> NoWrap(L, lock) || CompletesTheFile(L, lock)
  {
    hide Enough, Canonical, Held, Remove;
    var A := Add(L, lock, free).list;
    if NoWrap(L, lock) {
      forall q: Proc, w: bool, b: nat
        ensures Held(A, q, w, b) <==> if q == lock.owner && Covers(lock, b) then w == lock.write else Held(L, q, w, b)
      {
        AddIsExact(L, lock, free, q, w, b);
      }
    } else if CompletesTheFile(L, lock) {
      WholeFileIsSet(L, lock, free);
    } else {
      NotSet(L, lock, free);
    }
  }

  lemma NotSet(L: seq<Rec>, lock: Rec, free: seq<nat>)
    requires AllWF(L) && WF(lock) && Canonical(L) && Enough(L, lock, free) && !NoWrap(L, lock)
    requires !CompletesTheFile(L, lock)
    ensures !IsSet(L, lock, Add(L, lock, free).list)
  {
    hide Enough, Canonical, Remove;
    var A := Add(L, lock, free).list;
    var i, k := HarmfulRecord(L, lock, free);
    AddedAsItStands(L, lock, free);
    var b: nat :| !Covers(lock, b) && !Held(L, lock.owner, lock.write, b);
    assert HeldBy(A[k + 1], lock.owner, L[i].write, b) && HeldBy(A[k + 1], lock.owner, L[i].write, lock.start);
    assert Held(A, lock.owner, L[i].write, b) && Held(A, lock.owner, L[i].write, lock.start);
  }

  lemma WholeFileIsSet(L: seq<Rec>, lock: Rec, free: seq<nat>)
    requires AllWF(L) && WF(lock) && Canonical(L) && Enough(L, lock, free) && !NoWrap(L, lock)
    requires CompletesTheFile(L, lock)
    ensures IsSet(L, lock, Add(L, lock, free).list)
  {
    hide Enough, Canonical, Remove;
    var A := Add(L, lock, free).list;
    var i, k := HarmfulRecord(L, lock, free);
    AddedAsItStands(L, lock, free);
    var g, rest := lock.(id := free[0]), free[1..];
    var R := Remove(L, g, rest).list;
    OneTypeOnly(L, lock, i);
    AddServedIff(L, lock, free);
    assert forall j :: 0 <= j < |L| ==> Inside(L[j], g);
    NoOtherTypeLeft(L, g, rest);
    forall q: Proc, w: bool, b: nat
      ensures Held(A, q, w, b) <==> if q == lock.owner && Covers(lock, b) then w == lock.write else Held(L, q, w, b)
    {
      HeldCons(g, R, q, w, b);
      if q != lock.owner {
        OthersHold(L, g, rest, q, w, b);
      } else if w == lock.write {
        assert HeldBy(R[k], q, w, b);
      } else {
        OneTypePerByte(L, q, b);
      }
    }
  }

  /** The caller's record to the end of the file has the requested type, and own records of
      the other type lie inside the request. */
  lemma OneTypeOnly(L: seq<Rec>, lock: Rec, i: int)
    requires AllWF(L) && WF(lock) && Canonical(L) && CompletesTheFile(L, lock) && lock.end == MAX_OFF
    requires 0 <= i < |L| && L[i].owner == lock.owner && L[i].end == -1
    ensures L[i].write == lock.write
    ensures forall j :: 0 <= j < |L| ==> Inside(L[j], lock)
  {
    var far := MAX_OFF + 1;
    assert Held(L, lock.owner, lock.write, far);
    var m :| 0 <= m < |L| && HeldBy(L[m], lock.owner, lock.write, far);
    assert m == i || Apart(L[m], L[i]);
    forall j | 0 <= j < |L| && L[j].owner == lock.owner && L[j].write != lock.write
      ensures L[j].start >= lock.start && L[j].end != -1 && L[j].end <= lock.end
    {
      assert Apart(L[j], L[i]);
      assert HeldBy(L[j], lock.owner, L[j].write, L[j].start);
      OneTypePerByte(L, lock.owner, L[j].start);
    }
  }

  ghost predicate NoOtherType(R: seq<Rec>, lock: Rec) {
    forall k :: 0 <= k < |R| && R[k].owner == lock.owner ==> R[k].write == lock.write
  }

  lemma NoOtherTypeCons(x: Rec, R: seq<Rec>, lock: Rec)
    requires NoOtherType(R, lock) && (x.owner == lock.owner ==> x.write == lock.write)
    ensures NoOtherType([x] + R, lock)
  {
  }

  /** An own record has the type of the request or lies inside it. */
  predicate Inside(r: Rec, lock: Rec) {
    r.owner == lock.owner && r.write != lock.write ==>
        WF(r) && r.start >= lock.start && r.end != -1 && r.end <= lock.end
  }

  /** Own records of the other type, all inside the removed range, are gone. */
  lemma {:induction false} NoOtherTypeLeft(L: seq<Rec>, lock: Rec, free: seq<nat>)
    requires Remove(L, lock, free).ok && forall j :: 0 <= j < |L| ==> Inside(L[j], lock)
    ensures NoOtherType(Remove(L, lock, free).list, lock)
    decreases 2 * |L| + |free|
  {
    hide NoOtherType, Inside;
    if L == [] {
      NoneOfOtherType(lock);
    } else {
      var x, T := L[0], L[1..];
      var c := Cut(x, lock);
      if x.owner == lock.owner && x.write != lock.write { InsideIsRemoved(x, lock); }
      if x.owner != lock.owner || !Meets(x, lock) {
        NoOtherTypeLeft(T, lock, free);
        NoOtherTypeCons(x, Remove(T, lock, free).list, lock);
      } else if |c| == 0 {
        NoOtherTypeLeft(T, lock, [x.id] + free);
      } else if |c| == 1 {
        NoOtherTypeLeft(T, lock, free);
        NoOtherTypeCons(c[0], Remove(T, lock, free).list, lock);
      } else {
        var M := [c[1].(id := free[0])] + T;
        TypeIsInside(M[0], lock);
        NoOtherTypeLeft(M, lock, free[1..]);
        NoOtherTypeCons(c[0], Remove(M, lock, free[1..]).list, lock);
      }
    }
  }

  lemma NoneOfOtherType(lock: Rec)
    ensures NoOtherType([], lock)
  {
  }

  lemma InsideIsRemoved(x: Rec, lock: Rec)
    requires Inside(x, lock) && x.owner == lock.owner && x.write != lock.write
    ensures Meets(x, lock) && |Cut(x, lock)| == 0
  {
  }

  lemma TypeIsInside(x: Rec, lock: Rec)
    requires x.write == lock.write
    ensures Inside(x, lock)
  {
  }

  /** What other processes hold is as before. */
  lemma OthersHold(L: seq<Rec>, lock: Rec, free: seq<nat>, q: Proc, w: bool, b: nat)
    requires q != lock.owner
    ensures Held(Remove(L, lock, free).list, q, w, b) <==> Held(L, q, w, b)
  {
    var R := Remove(L, lock, free).list;
    if Held(L, q, w, b) {
      var j :| 0 <= j < |L| && HeldBy(L[j], q, w, b);
      var k := OthersStay(L, lock, free, j);
      assert HeldBy(R[k], q, w, b);
    }
    if Held(R, q, w, b) {
      var k :| 0 <= k < |R| && HeldBy(R[k], q, w, b);
      var j := OthersFrom(L, lock, free, k);
      assert HeldBy(L[j], q, w, b);
    }
  }

  /** A granted request that nobody blocks keeps exclusion if and only if it does not, ending
      at the top offset, turn an own record into one over everything that is incompatible
      with a record of somebody else. */
  lemma AddExcludesIff(L: seq<Rec>, lock: Rec, free: seq<nat>)
    requires AllWF(L) && WF(lock) && Canonical(L) && ConflictFree(L) && Add(L, lock, free).granted
    requires forall i :: 0 <= i < |L| ==> !Blocks(L[i], lock)
    ensures ConflictFree(Add(L, lock, free).list) <==>
            !exists i, j :: 0 <= i < |L| && 0 <= j < |L| && Overruns(L[i], lock, free[if free == [] then 0 else 1..])
                && Incompatible(L[i], L[j])
  {
    CanonicalHasNoClash(L);
    if lock.end != MAX_OFF {
      AddKeepsConflictFree(L, lock, free);
    } else {
      AddedAsItStands(L, lock, free);
      var g, rest := lock.(id := free[0]), free[1..];
      var R := Remove(L, g, rest).list;
      RemovalExcludesIff(L, g, rest);
      assert forall i :: 0 <= i < |L| ==> (Overruns(L[i], g, rest) <==> Overruns(L[i], lock, rest));
      hide Remove;
      var A := Add(L, lock, free).list;
      assert A == [g] + R;
      if ConflictFree(R) {
        forall j | 0 <= j < |R| ensures !Blocks(R[j], g) && !Blocks(g, R[j]) {
          if R[j].owner != lock.owner {
            var i := OthersFrom(L, g, rest, j);
            MeetsIffShareByte(L[i], g);
            assert !Blocks(L[i], lock);
          }
        }
        ConflictFreeCons(g, R);
      } else {
        TailConflicts(g, R);
      }
    }
  }

  lemma TailConflicts(x: Rec, R: seq<Rec>)
    requires !ConflictFree(R)
    ensures !ConflictFree([x] + R)
  {
    var i, j :| 0 <= i < |R| && 0 <= j < |R| && Blocks(R[i], R[j]);
    var xs := [x] + R;
    assert xs[i + 1] == R[i] && xs[j + 1] == R[j];
  }
}
