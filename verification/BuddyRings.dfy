/** The free lists of the buddy system.

    Circular doubly linked lists whose nodes live in one table, each with a header node of
    its own.  The three macros INIT2, INSERT2 and DELETE2 refine an empty list, appending
    and removing. */
module BuddyRings {
  import Chains

  const LEVELS: int := 12      // NBUDDY
  const TABLE: int := 4096     // 1 << NBUDDY nodes; the header of list k is node TABLE + k

  // ----- circular links, as sequences -----

  /** Forward and backward links of all nodes. */
  datatype Links = Links(fw: seq<int>, bk: seq<int>)

  predicate Node(l: Links, p: int) {
    0 <= p < |l.fw| && p < |l.bk|
  }

  /** The place after place `i`, around the ring. */
  function After(R: seq<int>, i: int): (j: int)
    requires 0 <= i < |R|
    ensures 0 <= j < |R|
  {
    if i + 1 < |R| then i + 1 else 0
  }

  /** Node `y` follows node `x`. */
  ghost predicate Joined(l: Links, x: int, y: int) {
    Node(l, x) && Node(l, y) && l.fw[x] == y && l.bk[y] == x
  }

  ghost predicate JoinedAt(l: Links, R: seq<int>, i: int)
    requires 0 <= i < |R|
  {
    Joined(l, R[i], R[After(R, i)])
  }

  /** Following `fw` from `R[0]` visits `R` in order and comes back; `bk` is the reverse. */
  ghost predicate Linked(l: Links, R: seq<int>) {
    |R| > 0 && forall i :: 0 <= i < |R| ==> JoinedAt(l, R, i)
  }

  /** INSERT2 (p, head): node `p` goes in before the header, that is, at the end. */
  function Insert2(l: Links, p: int, head: int): Links
    requires Node(l, p) && Node(l, head) && Node(l, l.bk[head])
  {
    var last := l.bk[head];
    Links(l.fw[p := head][last := p], l.bk[p := last][head := p])
  }

  /** DELETE2 (p). */
  function Delete2(l: Links, p: int): Links
    requires Node(l, p) && Node(l, l.fw[p]) && Node(l, l.bk[p])
  {
    var f, b := l.fw[p], l.bk[p];
    Links(l.fw[b := f][p := p], l.bk[f := b][p := p])
  }

  lemma NodesOf(l: Links, R: seq<int>)
    requires Linked(l, R)
    ensures forall i :: 0 <= i < |R| ==> Node(l, R[i])
    ensures Node(l, R[0]) && l.fw[R[0]] == R[After(R, 0)] && l.bk[R[0]] == R[|R| - 1]
  {
    forall i | 0 <= i < |R| ensures Node(l, R[i]) {
      assert JoinedAt(l, R, i);
    }
    assert JoinedAt(l, R, 0) && JoinedAt(l, R, |R| - 1);
  }

  lemma InsertLinks(l: Links, R: seq<int>, p: int)
    requires Linked(l, R) && Chains.Distinct(R) && Node(l, p) && p !in R
    ensures Node(l, R[0]) && Node(l, l.bk[R[0]]) && Linked(Insert2(l, p, R[0]), R + [p])
  {
    NodesOf(l, R);
    var m, S := Insert2(l, p, R[0]), R + [p];
    forall i | 0 <= i < |S| ensures JoinedAt(m, S, i) {
      if i < |R| {
        assert S[i] == R[i] && JoinedAt(l, R, i);
        if i < |R| - 1 { assert S[After(S, i)] == R[After(R, i)]; }
      }
    }
  }

  /** The node at position `i`, which is not the header, leaves its ring. */
  lemma DeleteLinks(l: Links, R: seq<int>, i: int)
    requires Linked(l, R) && Chains.Distinct(R) && 0 < i < |R|
    ensures Node(l, R[i]) && Node(l, l.fw[R[i]]) && Node(l, l.bk[R[i]]) && Linked(Delete2(l, R[i]), Chains.Cut(R, i))
  {
    hide Chains.Cut;
    NeighboursOf(l, R, i);
    var m, S := Delete2(l, R[i]), Chains.Cut(R, i);
    forall j | 0 <= j < |S| ensures JoinedAt(m, S, j) {
      RejoinedAt(l, R, i, j);
    }
  }

  lemma NeighboursOf(l: Links, R: seq<int>, i: int)
    requires Linked(l, R) && 0 < i < |R|
    ensures Node(l, R[i]) && Node(l, R[i - 1]) && Node(l, R[After(R, i)])
    ensures l.bk[R[i]] == R[i - 1] && l.fw[R[i]] == R[After(R, i)]
  {
    assert JoinedAt(l, R, i - 1) && JoinedAt(l, R, i);
  }

  lemma RejoinedAt(l: Links, R: seq<int>, i: int, j: int)
    requires Linked(l, R) && Chains.Distinct(R) && 0 < i < |R| && 0 <= j < |R| - 1
    ensures Node(l, R[i]) && Node(l, l.fw[R[i]]) && Node(l, l.bk[R[i]])
    ensures JoinedAt(Delete2(l, R[i]), Chains.Cut(R, i), j)
  {
    hide Chains.Cut, Linked;
    NeighboursOf(l, R, i);
    var S, a := Chains.Cut(R, i), if j < i then j else j + 1;
    assert S[j] == R[a];
    if a == i - 1 {
      assert S[After(S, j)] == R[After(R, i)];
      assert R[a] != R[i] && R[After(R, i)] != R[i];
    } else {
      JoinedIs(l, R, a);
      var b := After(R, a);
      assert S[After(S, j)] == R[b];
      assert R[a] != R[i - 1] && R[a] != R[i] && R[b] != R[i] && R[b] != R[After(R, i)];
    }
  }

  lemma JoinedIs(l: Links, R: seq<int>, i: int)
    requires Linked(l, R) && 0 <= i < |R|
    ensures JoinedAt(l, R, i)
  {
  }

  // ----- all lists together -----

  function Ring(lists: seq<seq<int>>, k: int): seq<int>
    requires 0 <= k < |lists|
  {
    [TABLE + k] + lists[k]
  }

  /** Every node is in at most one list, at one place. */
  ghost predicate Members(lists: seq<seq<int>>) {
    && (forall k, i {:trigger lists[k][i]} :: 0 <= k < |lists| && 0 <= i < |lists[k]| ==> 0 <= lists[k][i] < TABLE)
    && (forall k, i, m, j {:trigger lists[k][i], lists[m][j]} ::
          0 <= k < |lists| && 0 <= i < |lists[k]| && 0 <= m < |lists| && 0 <= j < |lists[m]|
              && lists[k][i] == lists[m][j]
          ==> k == m && i == j)
  }

  ghost predicate AllLinked(L: seq<seq<int>>, l: Links) {
    forall k {:trigger L[k]} :: 0 <= k < |L| ==> Linked(l, Ring(L, k))
  }

  lemma RingDistinct(L: seq<seq<int>>, k: int)
    requires Members(L) && 0 <= k < |L|
    ensures Chains.Distinct(Ring(L, k))
  {
    forall i, j | 0 <= i < j < |Ring(L, k)| ensures Ring(L, k)[i] != Ring(L, k)[j] {
      assert L[k][j - 1] < TABLE;
      if i > 0 { assert L[k][i - 1] != L[k][j - 1]; }
    }
  }

  lemma RingsDisjoint(L: seq<seq<int>>, k: int, m: int)
    requires Members(L) && 0 <= k < |L| && 0 <= m < |L| && k != m
    ensures forall x :: x in Ring(L, k) ==> x !in Ring(L, m)
  {
    forall i, j | 0 <= i < |Ring(L, k)| && 0 <= j < |Ring(L, m)| ensures Ring(L, k)[i] != Ring(L, m)[j] {
      assert i > 0 ==> L[k][i - 1] < TABLE;
      assert j > 0 ==> L[m][j - 1] < TABLE;
      if i > 0 && j > 0 { assert L[k][i - 1] != L[m][j - 1]; }
    }
  }

  function Appended(L: seq<seq<int>>, k: int, p: int): seq<seq<int>>
    requires 0 <= k < |L|
  {
    L[k := L[k] + [p]]
  }

  function Dropped(L: seq<seq<int>>, k: int, i: int): seq<seq<int>>
    requires 0 <= k < |L| && 0 <= i < |L[k]|
  {
    L[k := Chains.Cut(L[k], i)]
  }

  lemma MembersAfterInsert(L: seq<seq<int>>, k: int, p: int)
    requires Members(L) && 0 <= k < |L| && 0 <= p < TABLE && forall m :: 0 <= m < |L| ==> p !in L[m]
    ensures Members(Appended(L, k, p))
  {
  }

  lemma MembersAfterDelete(L: seq<seq<int>>, k: int, i: int)
    requires Members(L) && 0 <= k < |L| && 0 <= i < |L[k]|
    ensures Members(Dropped(L, k, i))
  {
    hide Chains.Cut;
  }

  lemma LinkedElsewhere(l: Links, m: Links, R: seq<int>)
    requires Linked(l, R) && |m.fw| == |l.fw| && |m.bk| == |l.bk|
    requires forall x :: x in R && Node(l, x) ==> m.fw[x] == l.fw[x] && m.bk[x] == l.bk[x]
    ensures Linked(m, R)
  {
    forall i | 0 <= i < |R| ensures JoinedAt(m, R, i) {
      assert JoinedAt(l, R, i) && R[i] in R && R[After(R, i)] in R;
    }
  }

  lemma InsertAll(L: seq<seq<int>>, k: int, p: int, l: Links)
    requires Members(L) && AllLinked(L, l) && 0 <= k < |L|
    requires 0 <= p < TABLE && Node(l, p) && forall m :: 0 <= m < |L| ==> p !in L[m]
    ensures Node(l, TABLE + k) && Node(l, l.bk[TABLE + k])
    ensures Members(Appended(L, k, p)) && AllLinked(Appended(L, k, p), Insert2(l, p, TABLE + k))
  {
    hide Members, Ring, Linked;
    var M := Appended(L, k, p);
    MembersAfterInsert(L, k, p);
    InsertOwn(L, k, p, l);
    forall m | 0 <= m < |L| && m != k ensures Linked(Insert2(l, p, TABLE + k), Ring(M, m)) {
      assert p !in L[m] && Linked(l, Ring(L, m)) && Linked(l, Ring(L, k));
      InsertElsewhere(L, k, m, p, l);
      SameRing(L, M, m);
    }
  }

  lemma InsertOwn(L: seq<seq<int>>, k: int, p: int, l: Links)
    requires Members(L) && 0 <= k < |L| && Linked(l, Ring(L, k)) && 0 <= p < TABLE && Node(l, p) && p !in L[k]
    ensures Node(l, TABLE + k) && Node(l, l.bk[TABLE + k])
    ensures Linked(Insert2(l, p, TABLE + k), Ring(Appended(L, k, p), k))
  {
    hide Linked;
    var R := Ring(L, k);
    RingDistinct(L, k);
    assert R[0] == TABLE + k && p !in R;
    assert Ring(Appended(L, k, p), k) == R + [p];
    InsertLinks(l, R, p);
  }

  lemma InsertElsewhere(L: seq<seq<int>>, k: int, m: int, p: int, l: Links)
    requires Members(L) && 0 <= k < |L| && 0 <= m < |L| && m != k && Linked(l, Ring(L, k)) && Linked(l, Ring(L, m))
    requires 0 <= p < TABLE && Node(l, p) && p !in L[m] && Node(l, TABLE + k) && Node(l, l.bk[TABLE + k])
    ensures Linked(Insert2(l, p, TABLE + k), Ring(L, m))
  {
    hide Linked;
    var R := Ring(L, k);
    RingsDisjoint(L, k, m);
    NodesOf(l, R);
    assert p !in Ring(L, m) && R[0] == TABLE + k && R[0] in R && R[|R| - 1] in R;
    LinkedElsewhere(l, Insert2(l, p, TABLE + k), Ring(L, m));
  }

  lemma DeleteAll(L: seq<seq<int>>, k: int, i: int, l: Links)
    requires Members(L) && AllLinked(L, l) && 0 <= k < |L| && 0 <= i < |L[k]|
    ensures Node(l, L[k][i]) && Node(l, l.fw[L[k][i]]) && Node(l, l.bk[L[k][i]])
    ensures Members(Dropped(L, k, i)) && AllLinked(Dropped(L, k, i), Delete2(l, L[k][i]))
  {
    hide Members, Ring, Linked, Chains.Cut;
    var M := Dropped(L, k, i);
    MembersAfterDelete(L, k, i);
    DeleteOwn(L, k, i, l);
    forall m | 0 <= m < |L| && m != k ensures Linked(Delete2(l, L[k][i]), Ring(M, m)) {
      DeleteElsewhere(L, k, m, i, l);
      SameRing(L, M, m);
    }
  }

  lemma DeleteOwn(L: seq<seq<int>>, k: int, i: int, l: Links)
    requires Members(L) && 0 <= k < |L| && Linked(l, Ring(L, k)) && 0 <= i < |L[k]|
    ensures Node(l, L[k][i]) && Node(l, l.fw[L[k][i]]) && Node(l, l.bk[L[k][i]])
    ensures Linked(Delete2(l, L[k][i]), Ring(Dropped(L, k, i), k))
  {
    var R := Ring(L, k);
    RingDistinct(L, k);
    hide Members, Linked, Chains.Distinct;
    assert Ring(Dropped(L, k, i), k) == Chains.Cut(R, i + 1);
    assert R[i + 1] == L[k][i];
    DeleteLinks(l, R, i + 1);
  }

  lemma SameRing(L: seq<seq<int>>, M: seq<seq<int>>, m: int)
    requires 0 <= m < |L| && m < |M| && L[m] == M[m]
    ensures Ring(L, m) == Ring(M, m)
  {
  }

  lemma DeleteElsewhere(L: seq<seq<int>>, k: int, m: int, i: int, l: Links)
    requires Members(L) && AllLinked(L, l) && 0 <= k < |L| && 0 <= i < |L[k]| && 0 <= m < |L| && m != k
    requires Node(l, L[k][i]) && Node(l, l.fw[L[k][i]]) && Node(l, l.bk[L[k][i]])
    ensures Linked(Delete2(l, L[k][i]), Ring(L, m))
  {
    var R := Ring(L, k);
    RingsDisjoint(L, k, m);
    assert Linked(l, R) && Linked(l, Ring(L, m));
    hide Members, AllLinked, Ring, Linked;
    assert R[i + 1] == L[k][i] by { RingHolds(L, k); }
    Untouched(l, R, i + 1, Ring(L, m));
  }

  lemma RingHolds(L: seq<seq<int>>, k: int)
    requires 0 <= k < |L|
    ensures |Ring(L, k)| == |L[k]| + 1 && forall i :: 0 <= i < |L[k]| ==> Ring(L, k)[i + 1] == L[k][i]
  {
  }

  /** Deleting from ring `R` does not touch the disjoint ring `Q`. */
  lemma Untouched(l: Links, R: seq<int>, i: int, Q: seq<int>)
    requires Linked(l, R) && Linked(l, Q) && 0 < i < |R| && forall x :: x in R ==> x !in Q
    ensures Node(l, R[i]) && Node(l, l.fw[R[i]]) && Node(l, l.bk[R[i]]) && Linked(Delete2(l, R[i]), Q)
  {
    hide Linked;
    NeighboursOf(l, R, i);
    assert R[i] in R && R[i - 1] in R && R[After(R, i)] in R;
    LinkedElsewhere(l, Delete2(l, R[i]), Q);
  }

  // ----- the lists in place -----

  class Rings {
    const forw: array<int>
    const back: array<int>
    ghost var lists: seq<seq<int>>    // the members of each list, header left out

    ghost function View(): Links
      reads forw, back
    {
      Links(forw[..], back[..])
    }

    ghost predicate Valid()
      reads this, forw, back
    {
      && forw != back && forw.Length == back.Length == TABLE + LEVELS
      && |lists| == LEVELS && Members(lists) && AllLinked(lists, View())
    }

    constructor ()
      ensures Valid() && fresh(this.forw) && fresh(this.back)
      ensures lists == seq(LEVELS, _ => [])
    {
      forw := new int[TABLE + LEVELS](_ => 0);
      back := new int[TABLE + LEVELS](_ => 0);
      lists := seq(LEVELS, _ => []);
      new;
      var k := 0;
      while k < LEVELS
        invariant k <= LEVELS && lists == seq(LEVELS, _ => [])
        invariant forw != back && forw.Length == back.Length == TABLE + LEVELS && fresh(forw) && fresh(back)
        invariant forall n :: TABLE <= n < TABLE + k ==> forw[n] == n && back[n] == n
      {
        forw[TABLE + k] := TABLE + k;
        back[TABLE + k] := TABLE + k;
        k := k + 1;
      }
      forall m | 0 <= m < LEVELS ensures Linked(View(), Ring(lists, m)) {
        assert Ring(lists, m) == [TABLE + m];
      }
    }

    /** The first member of list `k`, or the header when there is none. */
    method First(k: int) returns (p: int)
      requires Valid() && 0 <= k < LEVELS
      ensures p == (if lists[k] == [] then TABLE + k else lists[k][0])
      ensures p == TABLE + k <==> lists[k] == []
    {
      NodesOf(View(), Ring(lists, k));
      assert Ring(lists, k)[0] == TABLE + k;
      if |lists[k]| > 0 { assert lists[k][0] < TABLE && Ring(lists, k)[1] == lists[k][0]; }
      p := forw[TABLE + k];
    }

    /** INSERT2 (p, & bfree [k]). */
    method Insert(p: int, k: int)
      requires Valid() && 0 <= k < LEVELS && 0 <= p < TABLE
      requires forall m :: 0 <= m < LEVELS ==> p !in lists[m]
      modifies this`lists, forw, back
      ensures Valid() && lists == Appended(old(lists), k, p)
    {
      InsertAll(lists, k, p, View());
      var head := TABLE + k;
      var last := back[head];
      forw[p] := head;
      back[p] := last;
      forw[last] := p;
      back[head] := p;
      lists := Appended(lists, k, p);
      hide Linked, Ring, Members, Appended;
      assert View() == Insert2(old(View()), p, head);
    }

    /** DELETE2 (p), where `p` is at position `i` of list `k`. */
    method Delete(p: int, ghost k: int, ghost i: int)
      requires Valid() && 0 <= k < LEVELS && 0 <= i < |lists[k]| && lists[k][i] == p
      modifies this`lists, forw, back
      ensures Valid() && lists == Dropped(old(lists), k, i)
    {
      DeleteAll(lists, k, i, View());
      var f, b := forw[p], back[p];
      back[f] := b;
      forw[b] := f;
      forw[p] := p;
      back[p] := p;
      lists := Dropped(lists, k, i);
      hide Linked, Ring, Members, Dropped;
      assert View() == Delete2(old(View()), p);
    }
  }
}
