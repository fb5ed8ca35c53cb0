/** Record locks as values. */
module LockRecords {
  // One lock record, the two interval tests of the lock code, and what removing a lock does
  // to one inode's lock list.
  //
  // Offsets are signed 32-bit numbers.  An end of -1 means "to the end of the file".
  // Records keep the identity `id` of the pool slot they live in, so that a record can be
  // followed between the free list and the lock lists.

  type Proc = nat

  const MAX_OFF: int := 0x7fff_ffff
  const BOTTOM: int := -MAX_OFF - 1

  /** Adding one to a signed 32-bit offset. */
  function Succ(x: int): int {
    if x == MAX_OFF then -MAX_OFF - 1 else x + 1
  }

  datatype Rec = Rec(id: nat, write: bool, start: int, end: int, owner: Proc)

  predicate WF(r: Rec) {
    0 <= r.start <= MAX_OFF && (r.end == -1 || r.start <= r.end <= MAX_OFF)
  }

  predicate Covers(r: Rec, b: int) {
    r.start <= b && (r.end == -1 || b <= r.end)
  }

  /** The test of the list scan: does `block` touch a location of `lock`? */
  predicate Meets(block: Rec, lock: Rec) {
    if lock.end == -1 then block.end == -1 || block.end >= lock.start
    else lock.end >= block.start && (block.end == -1 || block.end >= lock.start)
  }

  /** `block` is held by someone else and the two locks are not both read locks. */
  predicate Blocks(block: Rec, lock: Rec) {
    Meets(block, lock) && lock.owner != block.owner && (lock.write || block.write)
  }

  lemma MeetsIffShareByte(a: Rec, b: Rec)
    requires WF(a) && WF(b)
    ensures Meets(a, b) <==> exists x: nat {:trigger Covers(a, x)} :: Covers(a, x) && Covers(b, x)
    ensures Meets(a, b) <==> Meets(b, a)
  {
    var m: nat := if a.start < b.start then b.start else a.start;
    if Meets(a, b) {
      assert Covers(a, m) && Covers(b, m);
    }
  }

  // ----- list vocabulary -----

  /** Some record of `q` with this type covers byte `b`. */
  ghost predicate Held(L: seq<Rec>, q: Proc, w: bool, b: nat) {
    exists i :: 0 <= i < |L| && HeldBy(L[i], q, w, b)
  }

  predicate HeldBy(r: Rec, q: Proc, w: bool, b: nat) {
    r.owner == q && r.write == w && Covers(r, b)
  }

  ghost predicate AllWF(L: seq<Rec>) {
    forall i :: 0 <= i < |L| ==> WF(L[i])
  }

  /** No two processes hold conflicting locks on a byte. */
  ghost predicate ConflictFree(L: seq<Rec>) {
    forall i, j {:trigger Blocks(L[i], L[j])} :: 0 <= i < |L| && 0 <= j < |L| ==> !Blocks(L[i], L[j])
  }

  /** The lock one byte longer at each side, as the merge test of `addlock` uses it. */
  function Widen(r: Rec): Rec {
    r.(start := if r.start != 0 then r.start - 1 else r.start,
       end := if r.end != -1 then Succ(r.end) else r.end)
  }

  /** Two records of one owner are disjoint and, with the same type, not even adjacent. */
  predicate Apart(a: Rec, b: Rec) {
    a.owner == b.owner ==> !Meets(a, b) && (a.write == b.write ==> !Meets(a, Widen(b)))
  }

  ghost predicate Canonical(L: seq<Rec>) {
    forall i, j {:trigger Apart(L[i], L[j])} :: 0 <= i < |L| && 0 <= j < |L| && i != j ==> Apart(L[i], L[j])
  }

  function Ids(L: seq<Rec>): seq<nat> {
    if L == [] then [] else [L[0].id] + Ids(L[1..])
  }

  lemma HeldCons(x: Rec, L: seq<Rec>, q: Proc, w: bool, b: nat)
    ensures Held([x] + L, q, w, b) <==> HeldBy(x, q, w, b) || Held(L, q, w, b)
  {
    var xs := [x] + L;
    if Held(L, q, w, b) {
      var i :| 0 <= i < |L| && HeldBy(L[i], q, w, b);
      assert HeldBy(xs[i + 1], q, w, b);
    }
    if HeldBy(x, q, w, b) {
      assert HeldBy(xs[0], q, w, b);
    }
    if Held(xs, q, w, b) {
      var i :| 0 <= i < |xs| && HeldBy(xs[i], q, w, b);
      if i > 0 { assert HeldBy(L[i - 1], q, w, b); }
    }
  }

  // ----- removing a lock from one record -----

  /** What is left of `whole` when the range of `lock` is taken away; the second piece
      of a split gets its record from the free list, so it has no id yet. */
  function Cut(whole: Rec, lock: Rec): seq<Rec> {
    if lock.start <= whole.start then
      if lock.end == -1 || (whole.end != -1 && lock.end >= whole.end) then []
      else [whole.(start := Succ(lock.end))]
    else
      var left := whole.(end := lock.start - 1);
      if lock.end == -1 || (whole.end != -1 && lock.end >= whole.end) then [left]
      else [left, whole.(start := Succ(lock.end))]
  }

  /** The removal is exact byte for byte, except when the wrap of `Succ` bites. */
  predicate Wraps(whole: Rec, lock: Rec) {
    lock.end == MAX_OFF && whole.end == -1
  }

  lemma CutIsExact(whole: Rec, lock: Rec)
    requires WF(whole) && WF(lock) && Meets(whole, lock)
    ensures !Wraps(whole, lock) <==>
            forall b: nat {:trigger Covers(whole, b)} ::
              (exists k :: 0 <= k < |Cut(whole, lock)| && Covers(Cut(whole, lock)[k], b)) <==>
              (Covers(whole, b) && !Covers(lock, b))
    ensures !Wraps(whole, lock) ==> AllWF(Cut(whole, lock))
  {
    var c := Cut(whole, lock);
    if Wraps(whole, lock) {
      var b: nat := if lock.start <= whole.start then whole.start else lock.start;
      assert Covers(c[|c| - 1], b) && Covers(whole, b) && Covers(lock, b);
    } else {
      forall b: nat
        ensures (exists k :: 0 <= k < |c| && Covers(c[k], b)) <==> (Covers(whole, b) && !Covers(lock, b))
      {
        if Covers(whole, b) && !Covers(lock, b) {
          assert Covers(c[0], b) || Covers(c[|c| - 1], b);
        }
      }
    }
  }

  // ----- removing a lock from a list -----

  datatype ListResult = ListResult(list: seq<Rec>, free: seq<nat>, ok: bool) {
    function Cons(x: Rec): ListResult { this.(list := [x] + list) }
  }

  /** What `remlock` makes of a list and of the free list.  The second piece of a
      split is scanned again, like any later record.  The scan stops, with the
      current record whole, at the first split that finds the free list empty. */
  function Remove(L: seq<Rec>, lock: Rec, free: seq<nat>): ListResult
    decreases 2 * |L| + |free|
  {
    if L == [] then ListResult([], free, true)
    else if L[0].owner != lock.owner || !Meets(L[0], lock) then Remove(L[1..], lock, free).Cons(L[0])
    else
      var c := Cut(L[0], lock);
      if |c| == 0 then Remove(L[1..], lock, [L[0].id] + free)
      else if |c| == 1 then Remove(L[1..], lock, free).Cons(c[0])
      else if free == [] then ListResult(L, free, false)
      else Remove([c[1].(id := free[0])] + L[1..], lock, free[1..]).Cons(c[0])
  }

  /** Without a wrap the second scan of a split-off piece lets it pass. */
  lemma PieceIsPassed(L: seq<Rec>, lock: Rec, free: seq<nat>)
    requires L != [] && WF(L[0]) && WF(lock) && Meets(L[0], lock) && !Wraps(L[0], lock)
    requires |Cut(L[0], lock)| == 2 && free != []
    ensures var piece := Cut(L[0], lock)[1].(id := free[0]);
            && WF(piece) && Within(piece, L[0]) && !Meets(piece, lock)
            && Remove([piece] + L[1..], lock, free[1..]) == Remove(L[1..], lock, free[1..]).Cons(piece)
  {
    var piece := Cut(L[0], lock)[1].(id := free[0]);
    assert ([piece] + L[1..])[1..] == L[1..];
  }

  /** `x` is (part of) record `y`: same owner and type, and no byte more. */
  predicate Within(x: Rec, y: Rec) {
    x.owner == y.owner && x.write == y.write && y.start <= x.start
    && (y.end == -1 || (x.end != -1 && x.end <= y.end))
  }

  ghost predicate PartOf(x: Rec, L: seq<Rec>) {
    exists j :: 0 <= j < |L| && Within(x, L[j])
  }

  ghost predicate AllWithin(M: seq<Rec>, L: seq<Rec>) {
    forall i :: 0 <= i < |M| ==> PartOf(M[i], L)
  }

  ghost predicate NoWrap(L: seq<Rec>, lock: Rec) {
    forall i :: 0 <= i < |L| && L[i].owner == lock.owner && Meets(L[i], lock) ==> !Wraps(L[i], lock)
  }

  lemma ConsWithin(x: Rec, M: seq<Rec>, L: seq<Rec>)
    requires L != [] && Within(x, L[0]) && AllWithin(M, L)
    ensures AllWithin([x] + M, L)
  {
    var xs := [x] + M;
    forall i | 0 <= i < |xs| ensures PartOf(xs[i], L) {
      if i == 0 {
        assert Within(xs[i], L[0]);
      } else {
        assert xs[i] == M[i - 1] && PartOf(M[i - 1], L);
      }
    }
  }

  lemma TailWithin(M: seq<Rec>, L: seq<Rec>)
    requires L != [] && AllWithin(M, L[1..])
    ensures AllWithin(M, L)
  {
    forall i | 0 <= i < |M| ensures PartOf(M[i], L) {
      var j :| 0 <= j < |L[1..]| && Within(M[i], L[1..][j]);
      assert Within(M[i], L[j + 1]);
    }
  }

  lemma PiecesWithin(whole: Rec, lock: Rec)
    requires WF(whole) && WF(lock) && Meets(whole, lock) && !Wraps(whole, lock)
    ensures |Cut(whole, lock)| <= 2
    ensures forall k :: 0 <= k < |Cut(whole, lock)| ==>
              var x := Cut(whole, lock)[k]; Within(x, whole) && WF(x)
  {
  }

  /** Removal leaves well-formed parts of the earlier records and nothing else. */
  lemma {:induction false} RemoveShrinks(L: seq<Rec>, lock: Rec, free: seq<nat>)
    requires AllWF(L) && WF(lock) && NoWrap(L, lock)
    ensures AllWF(Remove(L, lock, free).list)
    ensures AllWithin(Remove(L, lock, free).list, L)
  {
    hide PartOf, Cut, Meets, Wraps;
    if L == [] {
    } else {
      var T := L[1..];
      var c := Cut(L[0], lock);
      if L[0].owner != lock.owner || !Meets(L[0], lock) {
        RemoveShrinks(T, lock, free);
        var R := Remove(T, lock, free).list;
        TailWithin(R, L);
        ConsWithin(L[0], R, L);
      } else {
        PiecesWithin(L[0], lock);
        if |c| == 0 {
          RemoveShrinks(T, lock, [L[0].id] + free);
          TailWithin(Remove(T, lock, [L[0].id] + free).list, L);
        } else if |c| == 1 {
          RemoveShrinks(T, lock, free);
          var R := Remove(T, lock, free).list;
          TailWithin(R, L);
          ConsWithin(c[0], R, L);
        } else if free != [] {
          var R := Remove(T, lock, free[1..]).list;
          var piece := c[1].(id := free[0]);
          PieceIsPassed(L, lock, free);
          RemoveShrinks(T, lock, free[1..]);
          TailWithin(R, L);
          ConsWithin(piece, R, L);
          ConsWithin(c[0], [piece] + R, L);
        } else {
          AllOfItself(L);
        }
      }
    }
  }

  lemma AllOfItself(L: seq<Rec>)
    ensures AllWithin(L, L)
  {
    forall i | 0 <= i < |L| ensures PartOf(L[i], L) {
      assert Within(L[i], L[i]);
    }
  }

  /** A served removal takes exactly the bytes of `lock` from its owner, and
      nothing from anyone else. */
  lemma {:induction false} RemoveIsExact(L: seq<Rec>, lock: Rec, free: seq<nat>, q: Proc, w: bool, b: nat)
    requires AllWF(L) && WF(lock) && NoWrap(L, lock) && Remove(L, lock, free).ok
    ensures Held(Remove(L, lock, free).list, q, w, b) <==>
            Held(L, q, w, b) && !(q == lock.owner && Covers(lock, b))
  {
    if L == [] {
    } else {
      var T := L[1..];
      assert L == [L[0]] + T;
      HeldCons(L[0], T, q, w, b);
      var c := Cut(L[0], lock);
      if L[0].owner != lock.owner || !Meets(L[0], lock) {
        RemoveIsExact(T, lock, free, q, w, b);
        HeldCons(L[0], Remove(T, lock, free).list, q, w, b);
        MeetsIffShareByte(L[0], lock);
      } else {
        CutIsExact(L[0], lock);
        assert Covers(L[0], b) || !Covers(L[0], b);
        if |c| == 0 {
          RemoveIsExact(T, lock, [L[0].id] + free, q, w, b);
        } else if |c| == 1 {
          RemoveIsExact(T, lock, free, q, w, b);
          HeldCons(c[0], Remove(T, lock, free).list, q, w, b);
        } else {
          var R := Remove(T, lock, free[1..]);
          PieceIsPassed(L, lock, free);
          RemoveIsExact(T, lock, free[1..], q, w, b);
          HeldCons(c[1].(id := free[0]), R.list, q, w, b);
          HeldCons(c[0], [c[1].(id := free[0])] + R.list, q, w, b);
        }
      }
    }
  }

  /** The condition is exact: when the wrap bites, the owner still holds a byte that
      the request named. */
  lemma {:induction false} RemoveFailsOnWrap(L: seq<Rec>, lock: Rec, free: seq<nat>)
    requires (forall i :: 0 <= i < |L| ==> L[i].end <= MAX_OFF) && WF(lock) && !NoWrap(L, lock)
    ensures exists w, b: nat :: Covers(lock, b) && Held(Remove(L, lock, free).list, lock.owner, w, b)
    decreases 2 * |L| + |free|
  {
    var T := L[1..];
    var x := L[0];
    var c := Cut(x, lock);
    var R := Remove(L, lock, free).list;
    if x.owner == lock.owner && Meets(x, lock) && |c| == 2 {
      if free == [] {
        assert HeldBy(R[0], lock.owner, x.write, lock.start);
        assert Covers(lock, lock.start) && Held(R, lock.owner, x.write, lock.start);
      } else {
        var M := [c[1].(id := free[0])] + T;
        assert Meets(M[0], lock) && Wraps(M[0], lock);
        RemoveFailsOnWrap(M, lock, free[1..]);
        HeldUnder(c[0], lock, Remove(M, lock, free[1..]).list);
      }
    } else if x.owner == lock.owner && Meets(x, lock) && Wraps(x, lock) {
      assert HeldBy(R[0], lock.owner, x.write, lock.start);
      assert Covers(lock, lock.start) && Held(R, lock.owner, x.write, lock.start);
    } else {
      assert !NoWrap(T, lock) by {
        var i :| 0 <= i < |L| && L[i].owner == lock.owner && Meets(L[i], lock) && Wraps(L[i], lock);
        assert T[i - 1] == L[i];
      }
      if x.owner != lock.owner || !Meets(x, lock) {
        RemoveFailsOnWrap(T, lock, free);
        HeldUnder(x, lock, Remove(T, lock, free).list);
      } else if |c| == 0 {
        RemoveFailsOnWrap(T, lock, [x.id] + free);
      } else {
        RemoveFailsOnWrap(T, lock, free);
        HeldUnder(c[0], lock, Remove(T, lock, free).list);
      }
    }
  }

  lemma HeldUnder(head: Rec, lock: Rec, R: seq<Rec>)
    requires exists w, b: nat :: Covers(lock, b) && Held(R, lock.owner, w, b)
    ensures exists w, b: nat :: Covers(lock, b) && Held([head] + R, lock.owner, w, b)
  {
    var w, x: nat :| Covers(lock, x) && Held(R, lock.owner, w, x);
    HeldCons(head, R, lock.owner, w, x);
  }

  lemma IdsCons(x: Rec, M: seq<Rec>)
    ensures multiset(Ids([x] + M)) == multiset{x.id} + multiset(Ids(M))
  {
    assert ([x] + M)[1..] == M;
  }

  /** The pool records of a list and of the free list together. */
  ghost function Pool(L: seq<Rec>, free: seq<nat>): multiset<nat> {
    multiset(Ids(L)) + multiset(free)
  }

  lemma PoolCons(x: Rec, M: seq<Rec>, free: seq<nat>)
    ensures Pool([x] + M, free) == Pool(M, free) + multiset{x.id} == Pool(M, [x.id] + free)
  {
    IdsCons(x, M);
  }

  /** Removal moves pool records between the list and the free list, and loses none. */
  lemma {:induction false} RemoveKeepsPool(L: seq<Rec>, lock: Rec, free: seq<nat>)
    ensures Pool(Remove(L, lock, free).list, Remove(L, lock, free).free) == Pool(L, free)
    decreases 2 * |L| + |free|
  {
    if L == [] {
    } else {
      var T := L[1..];
      var c := Cut(L[0], lock);
      assert L == [L[0]] + T;
      PoolCons(L[0], T, free);
      if L[0].owner != lock.owner || !Meets(L[0], lock) {
        RemoveKeepsPool(T, lock, free);
        PoolCons(L[0], Remove(T, lock, free).list, Remove(T, lock, free).free);
      } else if |c| == 0 {
        RemoveKeepsPool(T, lock, [L[0].id] + free);
      } else if |c| == 1 {
        RemoveKeepsPool(T, lock, free);
        PoolCons(c[0], Remove(T, lock, free).list, Remove(T, lock, free).free);
      } else if free != [] {
        var piece := c[1].(id := free[0]);
        var R := Remove([piece] + T, lock, free[1..]);
        RemoveKeepsPool([piece] + T, lock, free[1..]);
        assert free == [free[0]] + free[1..];
        PoolCons(c[0], R.list, R.free);
        PoolCons(piece, T, free[1..]);
      }
    }
  }

  // ----- removing everything -----

  /** What a record can look like after requests that wrap: its start may be the lowest offset. */
  predicate Formed(r: Rec) {
    && (r.start == BOTTOM || 0 <= r.start <= MAX_OFF)
    && (r.end == -1 || (0 <= r.end <= MAX_OFF && r.start <= r.end))
  }

  ghost predicate AllFormed(L: seq<Rec>) {
    forall i :: 0 <= i < |L| ==> Formed(L[i])
  }

  /** Removing the whole range, as closing a file does, needs no free record.  It leaves the
      caller exactly its records that start below zero, and those then cover everything. */
  lemma {:induction false} RemoveAllIsServed(L: seq<Rec>, lock: Rec, free: seq<nat>)
    requires AllFormed(L) && lock.start == 0 && lock.end == -1
    ensures var R := Remove(L, lock, free);
            && R.ok
            && ((exists k :: 0 <= k < |R.list| && R.list[k].owner == lock.owner) <==>
                exists i :: 0 <= i < |L| && L[i].owner == lock.owner && L[i].start < 0)
            && forall k :: 0 <= k < |R.list| && R.list[k].owner == lock.owner ==>
                 R.list[k].start == BOTTOM && R.list[k].end == -1
  {
    if L != [] {
      var x, T := L[0], L[1..];
      var free' := if x.owner == lock.owner && x.start >= 0 then [x.id] + free else free;
      RemoveAllIsServed(T, lock, free');
      var R, R' := Remove(L, lock, free).list, Remove(T, lock, free').list;
      if x.owner == lock.owner && x.start >= 0 {
        assert R == R';
      } else {
        assert R[1..] == R' && R[0].owner == x.owner;
        assert forall k :: 0 <= k < |R'| ==> R'[k] == R[k + 1];
      }
      assert forall i :: 0 <= i < |T| ==> T[i] == L[i + 1];
    }
  }

  // ----- when a removal is served -----

  /** An own record that reaches beyond the removed range on both sides. */
  predicate CutInTwo(r: Rec, lock: Rec) {
    r.owner == lock.owner && r.start < lock.start && lock.end != -1 && (r.end == -1 || r.end > lock.end)
  }

  ghost predicate SomeCutInTwo(L: seq<Rec>, lock: Rec) {
    exists i :: 0 <= i < |L| && CutInTwo(L[i], lock)
  }

  lemma SomeCutCons(x: Rec, L: seq<Rec>, lock: Rec)
    ensures SomeCutInTwo([x] + L, lock) <==> CutInTwo(x, lock) || SomeCutInTwo(L, lock)
  {
    var xs := [x] + L;
    if SomeCutInTwo(L, lock) {
      var i :| 0 <= i < |L| && CutInTwo(L[i], lock);
      assert CutInTwo(xs[i + 1], lock);
    }
    if CutInTwo(x, lock) { assert CutInTwo(xs[0], lock); }
    if SomeCutInTwo(xs, lock) {
      var i :| 0 <= i < |xs| && CutInTwo(xs[i], lock);
      if i > 0 { assert CutInTwo(L[i - 1], lock); }
    }
  }

  lemma CutPieces(r: Rec, lock: Rec)
    requires WF(r) && WF(lock) && r.owner == lock.owner && Meets(r, lock)
    ensures |Cut(r, lock)| == 2 <==> CutInTwo(r, lock)
  {
  }

  lemma CutMeets(r: Rec, lock: Rec)
    requires WF(r) && WF(lock) && CutInTwo(r, lock)
    ensures Meets(r, lock)
  {
  }

  /** Where an own record reaches beyond the range, no other own record meets it. */
  lemma OnlyOneCut(x: Rec, y: Rec, lock: Rec)
    requires WF(x) && WF(y) && WF(lock) && CutInTwo(x, lock) && y.owner == lock.owner && Apart(x, y)
    ensures !Meets(y, lock) && !CutInTwo(y, lock)
  {
  }

  ghost predicate NobodyMeets(L: seq<Rec>, lock: Rec) {
    forall i :: 0 <= i < |L| ==> L[i].owner != lock.owner || !Meets(L[i], lock)
  }

  lemma {:induction false} NothingToRemove(L: seq<Rec>, lock: Rec, free: seq<nat>)
    requires NobodyMeets(L, lock)
    ensures Remove(L, lock, free) == ListResult(L, free, true)
  {
    if L != [] {
      NothingToRemove(L[1..], lock, free);
      assert L == [L[0]] + L[1..];
    }
  }

  /** An own record to the end of the file, cut inside at the top offset, is split again and
      again until the pool is empty. */
  lemma {:induction false} DrainsPool(x: Rec, T: seq<Rec>, lock: Rec, free: seq<nat>)
    requires x.owner == lock.owner && x.end == -1 && lock.end == MAX_OFF && x.start < lock.start
    requires 0 <= lock.start <= MAX_OFF
    ensures !Remove([x] + T, lock, free).ok && Remove([x] + T, lock, free).free == []
    decreases |free|
  {
    var L := [x] + T;
    assert L[1..] == T && Meets(x, lock) && |Cut(x, lock)| == 2;
    if free != [] {
      var piece := x.(start := Succ(lock.end)).(id := free[0]);
      assert Cut(x, lock)[1].(id := free[0]) == piece;
      DrainsPool(piece, T, lock, free[1..]);
    }
  }

  lemma CanonicalTail(L: seq<Rec>)
    requires Canonical(L) && L != []
    ensures Canonical(L[1..]) && forall j :: 0 <= j < |L[1..]| ==> Apart(L[0], L[1..][j]) && Apart(L[1..][j], L[0])
  {
    var T := L[1..];
    forall j | 0 <= j < |T| ensures Apart(L[0], T[j]) && Apart(T[j], L[0]) {
      assert T[j] == L[j + 1];
    }
    forall i, j | 0 <= i < |T| && 0 <= j < |T| && i != j ensures Apart(T[i], T[j]) {
      assert T[i] == L[i + 1] && T[j] == L[j + 1];
    }
  }

  /** A removal is served exactly when no own record has to be cut in two, or a record is
      free for the second part and that part does not wrap. */
  lemma {:induction false} RemoveServedIff(L: seq<Rec>, lock: Rec, free: seq<nat>)
    requires AllWF(L) && WF(lock) && Canonical(L)
    ensures Remove(L, lock, free).ok <==> !SomeCutInTwo(L, lock) || (free != [] && NoWrap(L, lock))
  {
    hide Canonical, Apart, Cut;
    if L != [] {
      var x, T := L[0], L[1..];
      assert L == [x] + T;
      CanonicalTail(L);
      SomeCutCons(x, T, lock);
      NoWrapCons(x, T, lock);
      if x.owner != lock.owner || !Meets(x, lock) {
        if CutInTwo(x, lock) { CutMeets(x, lock); }
        RemoveServedIff(T, lock, free);
      } else {
        CutPieces(x, lock);
        PiecesAtMostTwo(x, lock);
        if CutInTwo(x, lock) {
          forall j | 0 <= j < |T| ensures T[j].owner != lock.owner || !Meets(T[j], lock) {
            if T[j].owner == lock.owner { OnlyOneCut(x, T[j], lock); }
          }
          if Wraps(x, lock) {
            DrainsPool(x, T, lock, free);
          } else if free != [] {
            PieceIsPassed(L, lock, free);
            NothingToRemove(T, lock, free[1..]);
          }
        } else {
          forall j | 0 <= j < |T| ensures !CutInTwo(T[j], lock) {
            if CutInTwo(T[j], lock) { OnlyOneCut(T[j], x, lock); }
          }
          RemoveServedIff(T, lock, if |Cut(x, lock)| == 0 then [x.id] + free else free);
        }
      }
    }
  }

  lemma PiecesAtMostTwo(x: Rec, lock: Rec)
    ensures |Cut(x, lock)| <= 2
  {
  }

  lemma PiecesKeepOwner(x: Rec, lock: Rec)
    ensures forall k :: 0 <= k < |Cut(x, lock)| ==> Cut(x, lock)[k].owner == x.owner
  {
  }

  /** Records of others after a removal are records of before, whatever has been removed. */
  lemma {:induction false} OthersFrom(L: seq<Rec>, lock: Rec, free: seq<nat>, k: int) returns (j: int)
    requires 0 <= k < |Remove(L, lock, free).list| && Remove(L, lock, free).list[k].owner != lock.owner
    ensures 0 <= j < |L| && L[j] == Remove(L, lock, free).list[k]
    decreases 2 * |L| + |free|
  {
    hide Meets, Cut;
    var x, T, R := L[0], L[1..], Remove(L, lock, free).list;
    var c := Cut(x, lock);
    PiecesAtMostTwo(x, lock);
    PiecesKeepOwner(x, lock);
    if x.owner != lock.owner || !Meets(x, lock) {
      if k == 0 { return 0; }
      assert R == [x] + Remove(T, lock, free).list;
      j := OthersFrom(T, lock, free, k - 1);
      j := j + 1;
    } else if |c| == 0 {
      j := OthersFrom(T, lock, [x.id] + free, k);
      j := j + 1;
    } else if |c| == 1 {
      assert R == [c[0]] + Remove(T, lock, free).list;
      j := OthersFrom(T, lock, free, k - 1);
      j := j + 1;
    } else if free == [] {
      j := k;
    } else {
      var M := [c[1].(id := free[0])] + T;
      assert R == [c[0]] + Remove(M, lock, free[1..]).list;
      j := OthersFrom(M, lock, free[1..], k - 1);
    }
  }

  lemma NoWrapCons(x: Rec, T: seq<Rec>, lock: Rec)
    ensures NoWrap([x] + T, lock) <==> (x.owner == lock.owner && Meets(x, lock) ==> !Wraps(x, lock)) && NoWrap(T, lock)
  {
    var xs := [x] + T;
    if NoWrap(xs, lock) {
      forall i | 0 <= i < |T| && T[i].owner == lock.owner && Meets(T[i], lock) ensures !Wraps(T[i], lock) {
        assert xs[i + 1] == T[i];
      }
      assert xs[0] == x;
    }
  }

  // ----- canonical form under removal -----

  lemma ApartShrinks(x: Rec, y: Rec, x': Rec, y': Rec)
    requires WF(x) && WF(y) && WF(x') && WF(y')
    requires Within(x', x) && Within(y', y) && Apart(x, y) && Apart(y, x)
    ensures Apart(x', y') && Apart(y', x')
  {
  }

  lemma ApartFromAll(x: Rec, x': Rec, L: seq<Rec>, M: seq<Rec>)
    requires WF(x) && WF(x') && AllWF(L) && AllWF(M)
    requires Within(x', x) && AllWithin(M, L)
    requires forall j :: 0 <= j < |L| ==> Apart(x, L[j]) && Apart(L[j], x)
    ensures forall j :: 0 <= j < |M| ==> Apart(x', M[j]) && Apart(M[j], x')
  {
    forall j | 0 <= j < |M| ensures Apart(x', M[j]) && Apart(M[j], x') {
      var k :| 0 <= k < |L| && Within(M[j], L[k]);
      ApartShrinks(x, L[k], x', M[j]);
    }
  }

  lemma CanonicalCons(x: Rec, M: seq<Rec>)
    requires Canonical(M)
    requires forall j :: 0 <= j < |M| ==> Apart(x, M[j]) && Apart(M[j], x)
    ensures Canonical([x] + M)
  {
    var xs := [x] + M;
    forall i, j | 0 <= i < |xs| && 0 <= j < |xs| && i != j ensures Apart(xs[i], xs[j]) {
      if i == 0 { assert xs[j] == M[j - 1]; }
      else if j == 0 { assert xs[i] == M[i - 1]; }
      else { assert xs[i] == M[i - 1] && xs[j] == M[j - 1]; }
    }
  }

  lemma {:induction false} RemoveKeepsCanonical(L: seq<Rec>, lock: Rec, free: seq<nat>)
    requires AllWF(L) && WF(lock) && NoWrap(L, lock) && Canonical(L)
    ensures Canonical(Remove(L, lock, free).list)
  {
    if L == [] {
    } else {
      var T := L[1..];
      var x := L[0];
      var c := Cut(x, lock);
      forall j | 0 <= j < |T| ensures Apart(x, T[j]) && Apart(T[j], x) {
        assert T[j] == L[j + 1];
      }
      if x.owner != lock.owner || !Meets(x, lock) {
        RemoveKeepsCanonical(T, lock, free);
        RemoveShrinks(T, lock, free);
        ApartFromAll(x, x, T, Remove(T, lock, free).list);
        CanonicalCons(x, Remove(T, lock, free).list);
      } else {
        CutIsExact(x, lock);
        if |c| == 0 {
          RemoveKeepsCanonical(T, lock, [x.id] + free);
        } else if |c| == 1 {
          RemoveKeepsCanonical(T, lock, free);
          RemoveShrinks(T, lock, free);
          ApartFromAll(x, c[0], T, Remove(T, lock, free).list);
          CanonicalCons(c[0], Remove(T, lock, free).list);
        } else if free != [] {
          var R := Remove(T, lock, free[1..]).list;
          var piece := c[1].(id := free[0]);
          PieceIsPassed(L, lock, free);
          RemoveKeepsCanonical(T, lock, free[1..]);
          RemoveShrinks(T, lock, free[1..]);
          assert WF(piece) && Within(piece, x);
          ApartFromAll(x, piece, T, R);
          CanonicalCons(piece, R);
          ApartFromAll(x, c[0], T, R);
          assert Apart(c[0], piece) && Apart(piece, c[0]);
          CanonicalCons(c[0], [piece] + R);
        }
      }
    }
  }

  // ----- conflict freedom under removal -----

  lemma BlocksShrinks(x: Rec, y: Rec, x': Rec, y': Rec)
    requires WF(x) && WF(y) && WF(x') && WF(y')
    requires Within(x', x) && Within(y', y) && !Blocks(x, y)
    ensures !Blocks(x', y')
  {
  }

  lemma WithinKeepsConflictFree(L: seq<Rec>, M: seq<Rec>)
    requires AllWF(L) && AllWF(M) && AllWithin(M, L) && ConflictFree(L)
    ensures ConflictFree(M)
  {
    forall i, j | 0 <= i < |M| && 0 <= j < |M| ensures !Blocks(M[i], M[j]) {
      var p :| 0 <= p < |L| && Within(M[i], L[p]);
      var q :| 0 <= q < |L| && Within(M[j], L[q]);
      BlocksShrinks(L[p], L[q], M[i], M[j]);
    }
  }
}
