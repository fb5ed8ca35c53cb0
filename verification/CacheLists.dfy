/** The two structures that link the buffers: the chain of least recently used buffers and
    the hash chains.

    Both are arrays of links that refine sequences: the chain of recent use is linked in
    both directions, from the most to the least recently used buffer and back, and each
    hash chain holds the buffers of one hash value.  Moving a buffer to the front, taking it
    off its hash chain and putting it on another one are proved against these sequences. */
module CacheLists {
  import opened Chains

  /** The buffer at position `k` moved to the front. */
  function ToFront(s: seq<int>, k: int): (r: seq<int>)
    requires 0 <= k < |s|
    ensures |r| == |s| && r[0] == s[k]
  {
    [s[k]] + Cut(s, k)
  }

  /** The others keep their order. */
  lemma ToFrontKeepsOrder(s: seq<int>, k: int, i: int)
    requires 0 <= k < |s| && 1 <= i < |s|
    ensures ToFront(s, k)[i] == if i <= k then s[i - 1] else s[i]
  {
  }

  lemma ToFrontDistinct(s: seq<int>, k: int)
    requires Distinct(s) && 0 <= k < |s|
    ensures Distinct(ToFront(s, k)) && forall x :: x in ToFront(s, k) <==> x in s
  {
    var r, c := ToFront(s, k), Cut(s, k);
    forall i | 0 <= i < |c| ensures c[i] != s[k] && c[i] in s {
    }
    forall i, j | 0 <= i < j < |r| ensures r[i] != r[j] {
      assert r[j] == c[j - 1];
      if i > 0 { assert r[i] == c[i - 1]; }
    }
    forall x | x in s ensures x in r {
      var i :| 0 <= i < |s| && s[i] == x;
      if i == k { assert r[0] == x; } else { assert r[if i < k then i + 1 else i] == x; }
    }
    forall x | x in r ensures x in s {
      var i :| 0 <= i < |r| && r[i] == x;
      if i > 0 { assert x == c[i - 1]; }
    }
  }

  lemma ReverseCut(s: seq<int>, k: int)
    requires 0 <= k < |s|
    ensures Cut(Reverse(s), |s| - 1 - k) == Reverse(Cut(s, k))
    ensures k == |s| - 1 ==> Reverse(s)[1..] == Reverse(Cut(s, k))
  {
  }

  lemma ReverseDistinct(s: seq<int>)
    requires Distinct(s)
    ensures Distinct(Reverse(s)) && forall x :: x in Reverse(s) <==> x in s
  {
    var r := Reverse(s);
    forall x | x in s ensures x in r {
      var i :| 0 <= i < |s| && s[i] == x;
      assert r[|s| - 1 - i] == x;
    }
    forall x | x in r ensures x in s {
      var i :| 0 <= i < |r| && r[i] == x;
      assert s[|s| - 1 - i] == x;
    }
  }

  class LruChain {
    const forw: array<int>       // b_LRUf
    const back: array<int>       // b_LRUb
    var firstbuf: int
    var lastbuf: int
    ghost var order: seq<int>    // from the most to the least recently used

    ghost predicate Valid()
      reads this, forw, back
    {
      && forw != back && forw.Length == back.Length && Distinct(order)
      && ListAt(forw[..], firstbuf, order) && ListAt(back[..], lastbuf, Reverse(order))
    }

    /** The chain set up by bufinit. */
    constructor (n: int)
      requires n > 0
      ensures Valid() && order == seq(n, i => i) && forw.Length == n && fresh(forw) && fresh(back)
    {
      forw := new int[n](i => if i + 1 < n then i + 1 else NULL);
      back := new int[n](i => if i > 0 then i - 1 else NULL);
      firstbuf, lastbuf, order := 0, n - 1, seq(n, i => i);
      new;
      var r := Reverse(order);
      forall i | 0 <= i < n ensures LinkAt(forw[..], order, i) && LinkAt(back[..], r, i) {
      }
    }

    /** What the links say about the buffer at position `k`. */
    lemma Neighbours(k: int)
      requires Valid() && 0 <= k < |order|
      ensures firstbuf == order[0] && lastbuf == order[|order| - 1] && 0 <= order[k] < forw.Length
                && 0 <= firstbuf < forw.Length == back.Length
      ensures forw[order[k]] == if k + 1 < |order| then order[k + 1] else NULL
      ensures back[order[k]] == if k > 0 then order[k - 1] else NULL
      ensures k == 0 <==> order[k] == firstbuf
      ensures k == |order| - 1 <==> order[k] == lastbuf
      ensures k + 1 < |order| ==> 0 <= order[k + 1] < forw.Length
      ensures k > 0 ==> 0 <= order[k - 1] < forw.Length
    {
      var n := |order|;
      assert LinkAt(forw[..], order, k) && LinkAt(forw[..], order, 0) && LinkAt(back[..], Reverse(order), n - 1 - k);
      if k + 1 < n { assert LinkAt(forw[..], order, k + 1); }
      if k > 0 { assert LinkAt(forw[..], order, k - 1); }
    }

    /** LRUupdate: moves a buffer to the front. */
    method Update(bp: int, ghost k: int)
      requires Valid() && 0 <= k < |order| && order[k] == bp
      modifies this, forw, back
      ensures Valid() && order == ToFront(old(order), k)
    {
      hide ListAt, Reverse, Cut;
      Neighbours(k);
      ToFrontDistinct(order, k);
      if bp != firstbuf {
        ghost var s, F, B, first0, last0 := order, forw[..], back[..], firstbuf, lastbuf;
        if bp == lastbuf {
          lastbuf := back[bp];
        }
        if back[bp] != NULL {
          forw[back[bp]] := forw[bp];
        }
        if forw[bp] != NULL {
          back[forw[bp]] := back[bp];
        }
        assert forw[..] == F[s[k - 1] := F[bp]];
        assert back[..] == if k + 1 < |s| then B[s[k + 1] := B[bp]] else B;
        ghost var F1, B1 := forw[..], back[..];
        Unlinked(s, k, F, B, first0, last0, F1, B1, lastbuf);
        back[bp] := NULL;
        forw[bp] := firstbuf;
        back[firstbuf] := bp;
        firstbuf := bp;
        order := ToFront(s, k);
        assert forw[..] == F1[bp := first0] && back[..] == B1[bp := NULL][first0 := bp];
        Relinked(s, k, F1, B1, first0, lastbuf);
      } else {
        AlreadyFirst(order);
      }
    }
  }

  lemma AlreadyFirst(s: seq<int>)
    requires s != []
    ensures ToFront(s, 0) == s
  {
  }

  /** The links after the buffer at position `k` has been taken out. */
  lemma Unlinked(s: seq<int>, k: int, F: seq<int>, B: seq<int>, first: int, last: int, F1: seq<int>, B1: seq<int>,
                 last1: int)
    requires Distinct(s) && ListAt(F, first, s) && ListAt(B, last, Reverse(s)) && 0 < k < |s| && |F| == |B|
    requires 0 <= s[k - 1] < |F| && 0 <= s[k] < |F| && F1 == F[s[k - 1] := F[s[k]]]
    requires if k + 1 < |s| then 0 <= s[k + 1] < |B| && B1 == B[s[k + 1] := B[s[k]]] && last1 == last
             else B1 == B && last1 == B[s[k]]
    ensures ListAt(F1, first, Cut(s, k)) && ListAt(B1, last1, Reverse(Cut(s, k)))
  {
    ListCut(F, first, s, k);
    ReverseDistinct(s);
    ReverseCut(s, k);
    var n := |s|;
    if k + 1 < n {
      assert Reverse(s)[n - 1 - k - 1] == s[k + 1] && Reverse(s)[n - 1 - k] == s[k];
      ListCut(B, last, Reverse(s), n - 1 - k);
    } else {
      ListRest(B, last, Reverse(s));
    }
  }

  /** The links after it has been put in front. */
  lemma Relinked(s: seq<int>, k: int, F1: seq<int>, B1: seq<int>, first: int, last: int)
    requires Distinct(s) && 0 < k < |s| && |F1| == |B1| && 0 <= s[k] < |F1| && 0 <= s[0] < |F1| && first == s[0]
    requires ListAt(F1, first, Cut(s, k)) && ListAt(B1, last, Reverse(Cut(s, k)))
    ensures ListAt(F1[s[k] := first], s[k], ToFront(s, k))
              && ListAt(B1[s[k] := NULL][first := s[k]], last, Reverse(ToFront(s, k)))
  {
    var c, bp := Cut(s, k), s[k];
    assert bp !in c by { assert forall i :: 0 <= i < |c| ==> c[i] != bp; }
    assert Distinct(c) by { ToFrontDistinct(s, k); assert forall i :: 0 <= i < |c| ==> c[i] == ToFront(s, k)[i + 1]; }
    ListPush(F1, first, c, bp);
    ReverseDistinct(c);
    assert Reverse(c)[|c| - 1] == c[0] == first;
    ListAppend(B1, last, Reverse(c), bp);
    assert Reverse(ToFront(s, k)) == Reverse(c) + [bp];
  }

  // ----- hash chains -----

  class HashChains {
    const heads: array<int>      // hasharray
    const link: array<int>       // b_hash
    const hashval: array<int>    // b_hashval
    ghost var chains: seq<seq<int>>

    ghost predicate Valid()
      reads this, heads, link, hashval
    {
      && heads != link && heads != hashval && link != hashval && link.Length == hashval.Length
          && |chains| == heads.Length > 0
      && (forall h :: 0 <= h < heads.Length ==> ChainOk(h))
    }

    /** Chain `h` holds buffers with that hash value. */
    ghost predicate ChainOk(h: int)
      requires 0 <= h < |chains| && h < heads.Length
      reads this, heads, link, hashval
    {
      && ListAt(link[..], heads[h], chains[h]) && Distinct(chains[h])
      && forall i :: i in chains[h] ==> 0 <= i < hashval.Length && hashval[i] == h
    }

    ghost predicate Chained(i: int)
      reads this, hashval
    {
      0 <= i < hashval.Length && 0 <= hashval[i] < |chains| && i in chains[hashval[i]]
    }

    /** The chains set up by bufinit: buffers are spread over them in turn. */
    constructor (n: int, nhash: int)
      requires n >= 0 && nhash > 0
      ensures Valid() && heads.Length == nhash && link.Length == n && forall i :: 0 <= i < n ==>
                Chained(i) && hashval[i] == i % nhash
      ensures fresh(heads) && fresh(link) && fresh(hashval)
    {
      heads := new int[nhash](_ => NULL);
      link := new int[n](_ => NULL);
      hashval := new int[n](_ => 0);
      chains := seq(nhash, _ => []);
      new;
      hide ListAt, Distinct;
      NoChains();
      var i := 0;
      while i < n
        invariant 0 <= i <= n && Valid() && link.Length == n && heads.Length == nhash
        invariant forall k :: 0 <= k < n ==> (Chained(k) <==> k < i)
        invariant forall k :: 0 <= k < n ==> hashval[k] == if k < i then k % nhash else 0
      {
        ghost var C, was := chains, hashval[..];
        assert forall k :: 0 <= k < n ==> (k in C[was[k]] <==> Chained(k));
        Insert(i, i % nhash);
        assert hashval[..] == was[i := i % nhash];
        forall k | 0 <= k < n ensures Chained(k) <==> k < i + 1 {
          PutOn(C, was, chains, hashval[..], i, i % nhash, k);
        }
        i := i + 1;
      }
    }

    lemma NoChains()
      requires heads.Length == |chains| && forall h :: 0 <= h < |chains| ==> chains[h] == [] && heads[h] == NULL
      ensures forall h :: 0 <= h < |chains| ==> ChainOk(h)
    {
    }

    /** HASHinsert, for a buffer that is on no chain. */
    method Insert(bp: int, h: int)
      requires Valid() && 0 <= bp < link.Length && !Chained(bp) && 0 <= h < heads.Length
      modifies this`chains, heads, link, hashval
      ensures Valid() && chains == old(chains)[h := [bp] + old(chains)[h]]
      ensures forall i :: 0 <= i < hashval.Length ==> hashval[i] == if i == bp then h else old(hashval[i])
    {
      hide ListAt, Distinct;
      ghost var C, K, H := chains, link[..], heads[..];
      forall g | 0 <= g < heads.Length ensures bp !in chains[g] {
        assert ChainOk(g);
      }
      hashval[bp] := h;
      link[bp] := heads[h];
      heads[h] := bp;
      chains := C[h := [bp] + C[h]];
      assert link[..] == K[bp := H[h]];
      forall g | 0 <= g < heads.Length ensures ChainOk(g) {
        assert old(ChainOk(g)) && bp !in C[g];
        if g == h {
          ListPush(K, H[g], C[g], bp);
          PushDistinct(bp, C[g]);
        } else {
          ListElsewhere(K, H[g], C[g], bp, H[h]);
        }
      }
    }

    /** What the links say about the buffer at place `k` of chain `h`. */
    lemma NextOnChain(h: int, k: int)
      requires Valid() && 0 <= h < heads.Length && 0 <= k <= |chains[h]|
      ensures heads[h] == if chains[h] == [] then NULL else chains[h][0]
      ensures k < |chains[h]| ==> 0 <= chains[h][k] < link.Length
      ensures k < |chains[h]| ==> link[chains[h][k]] == if k + 1 < |chains[h]| then chains[h][k + 1] else NULL
    {
      assert ChainOk(h);
      if k < |chains[h]| { assert LinkAt(link[..], chains[h], k); }
    }

    /** HASHdelete, for a buffer on the chain of its hash value. */
    method Delete(bp: int) returns (ghost k: int)
      requires Valid() && Chained(bp)
      modifies this`chains, heads, link
      ensures Valid() && !Chained(bp)
      ensures var c := old(chains)[hashval[bp]];
                0 <= k < |c| && c[k] == bp && chains == old(chains)[hashval[bp] := Cut(c, k)]
    {
      hide ListAt, Cut;
      ghost var C, K, H := chains, link[..], heads[..];
      var h := hashval[bp];
      ghost var c := C[h];
      assert ChainOk(h);
      ghost var first := PlaceOf(c, bp);
      k := first;
      if heads[h] == bp {
        FirstOnly(K, H[h], c, k);
        heads[h] := link[bp];
        ListRest(K, H[h], c);
        assert c[1..] == Cut(c, 0) by { CutFirst(c); }
      } else {
        var prev := FindPrev(bp, h, k);
        link[prev] := link[bp];
        ListCut(K, H[h], c, k);
      }
      ghost var K1 := link[..];
      link[bp] := NULL;
      assert link[..] == K1[bp := NULL];
      chains := C[h := Cut(c, k)];
      CutDistinct(c, k);
      ListElsewhere(K1, heads[h], Cut(c, k), bp, NULL);
      forall g | 0 <= g < heads.Length ensures ChainOk(g) {
        assert old(ChainOk(g));
        if g != h { Untouched(K, link[..], H[g], C[g], c); }
      }
    }

    /** The search for the buffer before `bp` on its chain. */
    method FindPrev(bp: int, h: int, ghost k: int) returns (prev: int)
      requires Valid() && 0 <= h < heads.Length && 0 <= k < |chains[h]| && chains[h][k] == bp && heads[h] != bp
      ensures k > 0 && prev == chains[h][k - 1] && 0 <= prev < link.Length
    {
      assert ChainOk(h);
      ghost var c, j := chains[h], 0;
      prev := heads[h];
      assert LinkAt(link[..], c, 0);
      while link[prev] != bp
        invariant 0 <= j < k && prev == c[j] && 0 <= prev < link.Length
        decreases k - j
      {
        assert LinkAt(link[..], c, j) && LinkAt(link[..], c, j + 1);
        prev := link[prev];
        j := j + 1;
      }
      assert LinkAt(link[..], c, j);
    }
  }

  /** Who is on the chain of its hash value after `x` has been put on chain `h`. */
  lemma PutOn(C: seq<seq<int>>, was: seq<int>, D: seq<seq<int>>, now: seq<int>, x: int, h: int, k: int)
    requires 0 <= h < |C| && D == C[h := [x] + C[h]] && |was| == |now| && 0 <= k < |was| && 0 <= x < |was|
    requires now == was[x := h]
    requires 0 <= was[k] < |C|
    ensures 0 <= now[k] < |D| && (k in D[now[k]] <==> k == x || k in C[was[k]])
  {
  }

  lemma PushDistinct(x: int, s: seq<int>)
    requires Distinct(s) && x !in s
    ensures Distinct([x] + s)
  {
  }

  lemma PlaceOf(s: seq<int>, x: int) returns (k: int)
    requires x in s
    ensures 0 <= k < |s| && s[k] == x
  {
    k :| 0 <= k < |s| && s[k] == x;
  }

  lemma FirstOnly(link: seq<int>, head: int, s: seq<int>, k: int)
    requires ListAt(link, head, s) && Distinct(s) && 0 <= k < |s| && s[k] == head
    ensures k == 0
  {
  }

  lemma CutFirst(s: seq<int>)
    requires s != []
    ensures Cut(s, 0) == s[1..]
  {
  }

  lemma CutDistinct(s: seq<int>, k: int)
    requires Distinct(s) && 0 <= k < |s|
    ensures Distinct(Cut(s, k)) && s[k] !in Cut(s, k) && forall x :: x in Cut(s, k) <==> x in s && x != s[k]
  {
    var c := Cut(s, k);
    forall i | 0 <= i < |c| ensures c[i] != s[k] && c[i] in s {
    }
    forall i, j | 0 <= i < j < |c| ensures c[i] != c[j] {
    }
    forall x | x in s && x != s[k] ensures x in c {
      var i :| 0 <= i < |s| && s[i] == x;
      assert c[if i < k then i else i - 1] == x;
    }
  }

  lemma Untouched(link: seq<int>, link': seq<int>, head: int, s: seq<int>, c: seq<int>)
    requires ListAt(link, head, s) && |link'| == |link| && (forall x :: x in s ==> x !in c)
    requires forall x :: 0 <= x < |link| && x !in c ==> link'[x] == link[x]
    ensures ListAt(link', head, s)
  {
    ListApart(link, link', head, s);
  }
}
