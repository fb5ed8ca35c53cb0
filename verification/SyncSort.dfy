/** The sort of the sync list: one bucket pass relinks the list in place, and four passes,
    from the least to the most significant byte, order it by block number.

    A pass first pushes the nodes onto the stacks of their buckets and then builds the list
    from the last bucket to the first, which undoes the reversal.  What a pass reads for each
    node is a parameter, so that nothing is assumed about buffers that change meanwhile. */
module SyncSort {
  import opened Chains

  const BUCKETS: int := 256    // UCHAR_MAX + 1

  // ----- what a pass computes -----

  /** Every node has a digit. */
  predicate Digits(digit: seq<int>) {
    forall x :: 0 <= x < |digit| ==> 0 <= digit[x] < BUCKETS
  }

  /** The nodes with digit `d`, in order. */
  function Class(list: seq<int>, digit: seq<int>, d: int): (r: seq<int>)
    requires Nodes(list, |digit|)
    ensures Nodes(r, |digit|) && forall i :: 0 <= i < |r| ==> digit[r[i]] == d
  {
    if list == [] then []
    else
      var init, x := list[..|list| - 1], list[|list| - 1];
      if digit[x] == d then Class(init, digit, d) + [x] else Class(init, digit, d)
  }

  /** The nodes with digit `d` or more, class after class. */
  function Classes(list: seq<int>, digit: seq<int>, d: int): (r: seq<int>)
    requires Nodes(list, |digit|) && 0 <= d <= BUCKETS
    ensures Nodes(r, |digit|) && forall i :: 0 <= i < |r| ==> digit[r[i]] >= d
    decreases BUCKETS - d, |list|
  {
    if d == BUCKETS then [] else Class(list, digit, d) + Classes(list, digit, d + 1)
  }

  // ----- the pass -----

  /** Bucket `d` holds its class backwards. */
  ghost predicate Bucket(link: seq<int>, space: seq<int>, done: seq<int>, digit: seq<int>, d: int)
    requires |space| == BUCKETS && 0 <= d < BUCKETS && Nodes(done, |digit|)
  {
    ListAt(link, space[d], Reverse(Class(done, digit, d)))
  }

  /** Walks over the list and puts its nodes into buckets. */
  method Distribute(link: array<int>, space: array<int>, digit: seq<int>, head: int, ghost list: seq<int>)
    requires ListAt(link[..], head, list) && Distinct(list) && |digit| == link.Length && Digits(digit)
    requires space.Length == BUCKETS && space != link
    modifies link, space
    ensures Nodes(list, |digit|) && forall d :: 0 <= d < BUCKETS ==> Bucket(link[..], space[..], list, digit, d)
  {
    hide Class, ListAt, Reverse;
    ListNodes(link[..], head, list);
    forall i | 0 <= i < BUCKETS {
      space[i] := NULL;
    }
    var bp := head;
    ghost var k := 0;
    EmptyBuckets(link[..], space[..], list, digit);
    assert list[0..] == list && link[..] == old(link[..]);
    while bp != NULL
      invariant 0 <= k <= |list| && ListAt(link[..], bp, list[k..]) && space.Length == BUCKETS
      invariant forall d :: 0 <= d < BUCKETS ==> Bucket(link[..], space[..], list[..k], digit, d)
      decreases |list| - k
    {
      ghost var before, heads := link[..], space[..];
      NotEmpty(link[..], bp, list[k..]);
      ListRest(link[..], bp, list[k..]);
      var i := digit[bp];
      var next := link[bp];
      link[bp] := space[i];
      space[i] := bp;
      assert link[..] == before[bp := heads[i]] && space[..] == heads[i := bp];
      assert list[k..][1..] == list[k + 1..];
      ListElsewhere(before, next, list[k + 1..], bp, heads[i]);
      PushBucket(before, heads, list, digit, k, link[..], space[..], list[..k + 1]);
      bp := next;
      k := k + 1;
    }
    NotEmpty(link[..], bp, list[k..]);
    assert list[..k] == list;
  }

  lemma EmptyBuckets(link: seq<int>, space: seq<int>, list: seq<int>, digit: seq<int>)
    requires |space| == BUCKETS && forall d :: 0 <= d < BUCKETS ==> space[d] == NULL
    ensures forall d :: 0 <= d < BUCKETS ==> Bucket(link, space, list[..0], digit, d)
  {
  }

  /** One more node is in its bucket. */
  lemma PushBucket(link: seq<int>, space: seq<int>, list: seq<int>, digit: seq<int>, k: int, link': seq<int>,
                   space': seq<int>, done: seq<int>)
    requires |digit| == |link| && Digits(digit) && |space| == BUCKETS && Nodes(list, |digit|) && Distinct(list)
    requires 0 <= k < |list|
    requires forall d :: 0 <= d < BUCKETS ==> Bucket(link, space, list[..k], digit, d)
    requires link' == link[list[k] := space[digit[list[k]]]] && space' == space[digit[list[k]] := list[k]]
    requires done == list[..k + 1]
    ensures forall d :: 0 <= d < BUCKETS ==> Bucket(link', space', done, digit, d)
  {
    hide ListAt, Reverse;
    var x := list[k];
    assert done[..k] == list[..k];
    forall d | 0 <= d < BUCKETS ensures Bucket(link', space', done, digit, d) {
      var c := Class(list[..k], digit, d);
      assert Bucket(link, space, list[..k], digit, d);
      ClassIn(list[..k], digit, d, x);
      assert x !in Reverse(c);
      if d == digit[x] {
        ListPush(link, space[d], Reverse(c), x);
        assert Reverse(c + [x]) == [x] + Reverse(c);
      } else {
        ListElsewhere(link, space[d], Reverse(c), x, space[digit[x]]);
      }
    }
  }

  lemma {:induction false} ClassIn(list: seq<int>, digit: seq<int>, d: int, x: int)
    requires Nodes(list, |digit|)
    ensures x in Class(list, digit, d) ==> x in list && 0 <= x < |digit| && digit[x] == d
  {
    if list != [] { ClassIn(list[..|list| - 1], digit, d, x); }
  }

  /** Builds the output list from the last bucket to the first, taking each bucket from
      its top. */
  method Collect(link: array<int>, space: array<int>, digit: seq<int>, ghost list: seq<int>) returns (prev: int)
    requires |digit| == link.Length && Digits(digit) && space.Length == BUCKETS && space != link && Nodes(list, |digit|)
    requires Distinct(list)
    requires forall d :: 0 <= d < BUCKETS ==> Bucket(link[..], space[..], list, digit, d)
    modifies link
    ensures ListAt(link[..], prev, Classes(list, digit, 0))
  {
    hide Class, ListAt;
    prev := NULL;
    var i := BUCKETS;
    NoList(link[..]);
    while i > 0
      invariant 0 <= i <= BUCKETS && ListAt(link[..], prev, Classes(list, digit, i)) && space[..] == old(space[..])
      invariant forall d :: 0 <= d < i ==> Bucket(link[..], space[..], list, digit, d)
    {
      i := i - 1;
      ghost var before := link[..];
      assert Bucket(before, space[..], list, digit, i);
      ClassDistinct(list, digit, i);
      prev := Unload(link, space[i], prev, Class(list, digit, i), Classes(list, digit, i + 1));
      forall d | 0 <= d < i ensures Bucket(link[..], space[..], list, digit, d) {
        assert Bucket(before, space[..], list, digit, d);
        ListApart(before, link[..], space[d], Reverse(Class(list, digit, d)));
      }
    }
  }

  lemma {:induction false} ClassDistinct(list: seq<int>, digit: seq<int>, d: int)
    requires Nodes(list, |digit|) && Distinct(list)
    ensures Distinct(Class(list, digit, d))
  {
    if list != [] {
      var init, x := list[..|list| - 1], list[|list| - 1];
      ClassDistinct(init, digit, d);
      ClassIn(init, digit, d, x);
      assert x !in init;
    }
  }

  /** Moves the nodes of one bucket, which holds `c` backwards, in front of the output. */
  method Unload(link: array<int>, top: int, out: int, ghost c: seq<int>, ghost rest: seq<int>) returns (prev: int)
    requires ListAt(link[..], top, Reverse(c)) && ListAt(link[..], out, rest) && Distinct(c)
    requires forall x :: x in c ==> x !in rest
    modifies link
    ensures ListAt(link[..], prev, c + rest)
    ensures forall x :: 0 <= x < link.Length && x !in c ==> link[x] == old(link[x])
  {
    hide ListAt;
    var bp := top;
    prev := out;
    ghost var n := |c|;
    assert c[..n] == c && c[n..] + rest == rest;
    while bp != NULL
      invariant 0 <= n <= |c| && ListAt(link[..], bp, Reverse(c[..n])) && ListAt(link[..], prev, c[n..] + rest)
      invariant forall x :: 0 <= x < link.Length && x !in c ==> link[x] == old(link[x])
      decreases n
    {
      ghost var before := link[..];
      NotEmpty(before, bp, Reverse(c[..n]));
      ListRest(before, bp, Reverse(c[..n]));
      assert bp == c[n - 1] && Reverse(c[..n])[1..] == Reverse(c[..n - 1]);
      var next := link[bp];
      link[bp] := prev;
      assert link[..] == before[bp := prev];
      assert [c[n - 1]] + (c[n..] + rest) == c[n - 1..] + rest;
      assert bp !in Reverse(c[..n - 1]) && bp !in c[n..] + rest;
      ListElsewhere(before, next, Reverse(c[..n - 1]), bp, prev);
      ListPush(before, prev, c[n..] + rest, bp);
      prev := bp;
      bp := next;
      n := n - 1;
    }
    NotEmpty(link[..], bp, Reverse(c[..n]));
    assert c[0..] + rest == c + rest;
  }

  /** unlocked_radix_pass: `digit` is what the pass reads for each node. */
  method RadixPass(link: array<int>, space: array<int>, digit: seq<int>, head: int, ghost list: seq<int>)
      returns (h: int)
    requires ListAt(link[..], head, list) && Distinct(list) && |digit| == link.Length && Digits(digit)
    requires space.Length == BUCKETS && space != link
    modifies link, space
    ensures Nodes(list, |digit|) && ListAt(link[..], h, Classes(list, digit, 0)) && Distinct(Classes(list, digit, 0))
  {
    Distribute(link, space, digit, head, list);
    h := Collect(link, space, digit, list);
    PassPermutes(list, digit);
    DistinctByCount(list, Classes(list, digit, 0));
  }

  // ----- a pass is a stable sort -----

  predicate Ascending(s: seq<int>, digit: seq<int>)
    requires Nodes(s, |digit|)
  {
    forall i, j :: 0 <= i < j < |s| ==> digit[s[i]] <= digit[s[j]]
  }

  lemma {:induction false} ClassCounts(list: seq<int>, digit: seq<int>, d: int, x: int)
    requires Nodes(list, |digit|) && 0 <= x < |digit|
    ensures multiset(Class(list, digit, d))[x] == if digit[x] == d then multiset(list)[x] else 0
  {
    if list != [] {
      var init := list[..|list| - 1];
      assert list == init + [list[|list| - 1]];
      ClassCounts(init, digit, d, x);
    }
  }

  lemma CountConcat(a: seq<int>, b: seq<int>, x: int)
    ensures multiset(a + b)[x] == multiset(a)[x] + multiset(b)[x]
  {
  }

  lemma {:induction false} ClassesCount(list: seq<int>, digit: seq<int>, d: int, x: int)
    requires Nodes(list, |digit|) && Digits(digit) && 0 <= x < |digit| && 0 <= d <= BUCKETS
    ensures multiset(Classes(list, digit, d))[x] == if digit[x] >= d then multiset(list)[x] else 0
    decreases BUCKETS - d
  {
    hide Class;
    if d < BUCKETS {
      ClassCounts(list, digit, d, x);
      ClassesCount(list, digit, d + 1, x);
      CountConcat(Class(list, digit, d), Classes(list, digit, d + 1), x);
    }
  }

  /** A pass loses and doubles no node, whatever digits it reads. */
  lemma PassPermutes(list: seq<int>, digit: seq<int>)
    requires Nodes(list, |digit|) && Digits(digit)
    ensures multiset(Classes(list, digit, 0)) == multiset(list)
  {
    forall x ensures multiset(Classes(list, digit, 0))[x] == multiset(list)[x] {
      if 0 <= x < |digit| {
        ClassesCount(list, digit, 0, x);
      } else {
        NotANode(list, |digit|, x);
        NotANode(Classes(list, digit, 0), |digit|, x);
      }
    }
  }

  lemma NotANode(s: seq<int>, n: int, x: int)
    requires Nodes(s, n) && !(0 <= x < n)
    ensures x !in s
  {
  }

  lemma DistinctByCount(s: seq<int>, t: seq<int>)
    requires Distinct(s) && multiset(t) == multiset(s)
    ensures Distinct(t)
  {
    forall i, j | 0 <= i < j < |t| ensures t[i] != t[j] {
      DistinctOnce(s, t[i]);
      assert t == t[..i] + [t[i]] + t[i + 1..j] + [t[j]] + t[j + 1..];
    }
  }

  lemma {:induction false} DistinctOnce(s: seq<int>, x: int)
    requires Distinct(s)
    ensures multiset(s)[x] <= 1
  {
    if s != [] {
      assert s == [s[0]] + s[1..];
      DistinctOnce(s[1..], x);
    }
  }

  /** The classes come out in ascending order of the digit, and each class in the order
      of the input: the pass is stable. */
  lemma PassIsStable(list: seq<int>, digit: seq<int>, d: int)
    requires Nodes(list, |digit|) && Digits(digit)
    ensures Ascending(Classes(list, digit, 0), digit)
    ensures 0 <= d < BUCKETS ==> Class(Classes(list, digit, 0), digit, d) == Class(list, digit, d)
  {
    hide Class, Classes;
    ClassesAscend(list, digit, 0);
    if 0 <= d < BUCKETS { ClassOfClasses(list, digit, 0, d); }
  }

  lemma {:induction false} ClassesAscend(list: seq<int>, digit: seq<int>, d: int)
    requires Nodes(list, |digit|) && 0 <= d <= BUCKETS
    ensures Ascending(Classes(list, digit, d), digit)
    decreases BUCKETS - d
  {
    hide Class, Ascending;
    if d == BUCKETS {
      NoneAscend(digit);
    } else {
      ClassesAscend(list, digit, d + 1);
      ConcatAscends(Class(list, digit, d), Classes(list, digit, d + 1), digit, d);
    }
  }

  lemma NoneAscend(digit: seq<int>)
    ensures Ascending([], digit)
  {
  }

  lemma ConcatAscends(a: seq<int>, b: seq<int>, digit: seq<int>, d: int)
    requires Nodes(a, |digit|) && Nodes(b, |digit|) && Ascending(b, digit)
    requires (forall i :: 0 <= i < |a| ==> digit[a[i]] == d) && forall i :: 0 <= i < |b| ==> digit[b[i]] >= d
    ensures Ascending(a + b, digit)
  {
    var s := a + b;
    forall i, j | 0 <= i < j < |s| ensures digit[s[i]] <= digit[s[j]] {
      if i >= |a| {
        var i', j' := i - |a|, j - |a|;
        assert s[i] == b[i'] && s[j] == b[j'];
      }
    }
  }

  lemma {:induction false} ClassOfConcat(a: seq<int>, b: seq<int>, digit: seq<int>, d: int)
    requires Nodes(a, |digit|) && Nodes(b, |digit|)
    ensures Class(a + b, digit, d) == Class(a, digit, d) + Class(b, digit, d)
  {
    if b == [] {
      assert a + b == a;
    } else {
      var init := b[..|b| - 1];
      assert (a + b)[..|a + b| - 1] == a + init;
      ClassOfConcat(a, init, digit, d);
    }
  }

  /** All nodes of `c` have digit `e`. */
  lemma {:induction false} ClassOfUniform(c: seq<int>, digit: seq<int>, e: int, d: int)
    requires Nodes(c, |digit|) && forall i :: 0 <= i < |c| ==> digit[c[i]] == e
    ensures Class(c, digit, d) == if d == e then c else []
  {
    if c != [] {
      var init := c[..|c| - 1];
      assert c == init + [c[|c| - 1]];
      ClassOfUniform(init, digit, e, d);
    }
  }

  lemma {:induction false} ClassOfClasses(list: seq<int>, digit: seq<int>, from: int, d: int)
    requires Nodes(list, |digit|) && 0 <= from <= BUCKETS && 0 <= d < BUCKETS
    ensures Nodes(Classes(list, digit, from), |digit|)
    ensures Class(Classes(list, digit, from), digit, d) == if d >= from then Class(list, digit, d) else []
    decreases BUCKETS - from
  {
    hide Class;
    if from < BUCKETS {
      var c, rest := Class(list, digit, from), Classes(list, digit, from + 1);
      ClassOfClasses(list, digit, from + 1, d);
      ClassOfConcat(c, rest, digit, d);
      ClassOfUniform(c, digit, from, d);
    } else {
      ClassOfUniform([], digit, d, d);
    }
  }

  // ----- all passes -----

  /** Digits for every pass and node. */
  predicate Reads(seen: seq<seq<int>>, n: int) {
    forall p :: 0 <= p < |seen| ==> |seen[p]| == n && Digits(seen[p])
  }

  /** What the first `p` passes make of a list. */
  function Passes(list: seq<int>, seen: seq<seq<int>>, n: int, p: int): (r: seq<int>)
    requires 0 <= p <= |seen| && Reads(seen, n) && Nodes(list, n)
    ensures Nodes(r, n)
    decreases p, |list|
  {
    if p == 0 then list else Classes(Passes(list, seen, n, p - 1), seen[p - 1], 0)
  }

  /** The sort in general_sync.  The buffers are not locked, so each pass may read other
      block numbers than the one before. */
  method SortSyncList(link: array<int>, seen: seq<seq<int>>, head: int, ghost list: seq<int>) returns (h: int)
    requires ListAt(link[..], head, list) && Distinct(list) && |seen| == 4 && Reads(seen, link.Length)
    modifies link
    ensures Nodes(list, link.Length) && ListAt(link[..], h, Passes(list, seen, link.Length, 4))
  {
    hide ListAt, Classes;
    var space := new int[BUCKETS];
    ListNodes(link[..], head, list);
    h := head;
    var i := 0;
    while i < 4
      invariant 0 <= i <= 4 && ListAt(link[..], h, Passes(list, seen, link.Length, i))
                  && Distinct(Passes(list, seen, link.Length, i))
    {
      ghost var s := Passes(list, seen, link.Length, i);
      h := RadixPass(link, space, seen[i], h, s);
      i := i + 1;
    }
  }

  lemma NoPass(list: seq<int>, seen: seq<seq<int>>, n: int)
    requires Reads(seen, n) && Nodes(list, n)
    ensures Passes(list, seen, n, 0) == list
  {
  }

  lemma OnePass(list: seq<int>, seen: seq<seq<int>>, n: int, p: int)
    requires 0 < p <= |seen| && Reads(seen, n) && Nodes(list, n)
    ensures multiset(Passes(list, seen, n, p)) == multiset(Passes(list, seen, n, p - 1))
  {
    PassPermutes(Passes(list, seen, n, p - 1), seen[p - 1]);
  }

  /** Whatever block numbers change meanwhile, the result is a permutation of the list. */
  lemma {:induction false} PassesPermute(list: seq<int>, seen: seq<seq<int>>, n: int, p: int)
    requires 0 <= p <= |seen| && Reads(seen, n) && Nodes(list, n)
    ensures multiset(Passes(list, seen, n, p)) == multiset(list)
  {
    hide Passes;
    if p == 0 {
      NoPass(list, seen, n);
    } else {
      PassesPermute(list, seen, n, p - 1);
      OnePass(list, seen, n, p);
    }
  }

  // ----- sorting by block number -----

  function Power(p: int): (m: int)
    requires 0 <= p
    ensures m >= 1
  {
    if p == 0 then 1 else BUCKETS * Power(p - 1)
  }

  /** Pass `p` reads byte `p` of each block number, the lowest first. */
  predicate ReadsBytes(seen: seq<seq<int>>, bno: seq<int>) {
    forall p, x {:trigger seen[p][x]} :: 0 <= p < |seen| && 0 <= x < |seen[p]| && x < |bno| ==>
        seen[p][x] == bno[x] / Power(p) % BUCKETS
  }

  /** `x` comes before `y`: by the last digits of the block numbers, then by position. */
  predicate Before(bno: seq<int>, pos: seq<int>, m: int, x: int, y: int)
    requires 0 <= x < |bno| == |pos| && 0 <= y < |bno| && m > 0
  {
    bno[x] % m < bno[y] % m || (bno[x] % m == bno[y] % m && pos[x] < pos[y])
  }

  predicate InOrder(s: seq<int>, bno: seq<int>, pos: seq<int>, m: int)
    requires Nodes(s, |bno|) && |pos| == |bno| && m > 0
  {
    forall i, j :: 0 <= i < j < |s| ==> Before(bno, pos, m, s[i], s[j])
  }

  /** `c` is a part of `s`, in order. */
  lemma {:induction false} ClassInOrder(s: seq<int>, bno: seq<int>, pos: seq<int>, m: int, digit: seq<int>, d: int)
    requires Nodes(s, |bno|) && |pos| == |bno| == |digit| && m > 0 && InOrder(s, bno, pos, m)
    ensures Nodes(Class(s, digit, d), |bno|) && InOrder(Class(s, digit, d), bno, pos, m)
  {
    if s != [] {
      var init := s[..|s| - 1];
      assert forall i, j :: 0 <= i < j < |init| ==> init[i] == s[i] && init[j] == s[j];
      ClassInOrder(init, bno, pos, m, digit, d);
      var c := Class(init, digit, d);
      forall i | 0 <= i < |c| ensures Before(bno, pos, m, c[i], s[|s| - 1]) {
        ClassIn(init, digit, d, c[i]);
      }
    }
  }

  lemma Powers()
    ensures Power(0) == 1 && Power(1) == 0x100 && Power(2) == 0x1_0000 && Power(3) == 0x100_0000
              && Power(4) == 0x1_0000_0000
  {
  }

  lemma HigherDigit(b: int, p: int)
    requires 0 <= p < 4 && b >= 0
    ensures b % Power(p + 1) == b / Power(p) % BUCKETS * Power(p) + b % Power(p)
  {
    hide Power;
    Powers();
    if p == 1 {
      Digit1(b);
    } else if p == 2 {
      Digit2(b);
    } else if p == 3 {
      Digit3(b);
    }
  }

  lemma Digit1(b: int)
    requires b >= 0
    ensures b % 0x1_0000 == b / 0x100 % 0x100 * 0x100 + b % 0x100
  {
    var q, r := b / 0x100, b % 0x100;
    assert b == q / 0x100 * 0x1_0000 + (q % 0x100 * 0x100 + r);
  }

  lemma Digit2(b: int)
    requires b >= 0
    ensures b % 0x100_0000 == b / 0x1_0000 % 0x100 * 0x1_0000 + b % 0x1_0000
  {
    var q, r := b / 0x1_0000, b % 0x1_0000;
    assert b == q / 0x100 * 0x100_0000 + (q % 0x100 * 0x1_0000 + r);
  }

  lemma Digit3(b: int)
    requires b >= 0
    ensures b % 0x1_0000_0000 == b / 0x100_0000 % 0x100 * 0x100_0000 + b % 0x100_0000
  {
    var q, r := b / 0x100_0000, b % 0x100_0000;
    assert b == q / 0x100 * 0x1_0000_0000 + (q % 0x100 * 0x100_0000 + r);
  }

  /** One pass on byte `p` turns a list ordered by the lower bytes into one that is ordered
      by this byte as well. */
  lemma {:induction false} PassOrders(s: seq<int>, bno: seq<int>, pos: seq<int>, p: int, digit: seq<int>, d: int)
    requires Nodes(s, |bno|) && |pos| == |bno| == |digit| && 0 <= p < 4 && 0 <= d <= BUCKETS
    requires InOrder(s, bno, pos, Power(p))
    requires forall x :: 0 <= x < |bno| ==> bno[x] >= 0 && digit[x] == bno[x] / Power(p) % BUCKETS
    ensures InOrder(Classes(s, digit, d), bno, pos, Power(p + 1))
    decreases BUCKETS - d
  {
    hide Power, Class;
    var m := Power(p);
    if d < BUCKETS {
      var a, b := Class(s, digit, d), Classes(s, digit, d + 1);
      ClassInOrder(s, bno, pos, m, digit, d);
      PassOrders(s, bno, pos, p, digit, d + 1);
      forall i, j | 0 <= i < j < |a + b| ensures Before(bno, pos, Power(p + 1), (a + b)[i], (a + b)[j]) {
        var x, y := (a + b)[i], (a + b)[j];
        if i < |a| {
          assert x == a[i] && x in a;
          if j < |a| {
            assert y == a[j] && y in a && Before(bno, pos, m, a[i], a[j]);
          } else {
            assert y == b[j - |a|] && y in b;
          }
          BeforeByDigit(bno, pos, p, x, y);
        } else {
          assert x == b[i - |a|] && y == b[j - |a|];
        }
      }
    }
  }

  lemma BeforeByDigit(bno: seq<int>, pos: seq<int>, p: int, x: int, y: int)
    requires 0 <= x < |bno| == |pos| && 0 <= y < |bno| && 0 <= p < 4 && bno[x] >= 0 && bno[y] >= 0
    requires var (dx, dy) := (bno[x] / Power(p) % BUCKETS, bno[y] / Power(p) % BUCKETS);
             dx < dy || (dx == dy && Before(bno, pos, Power(p), x, y))
    ensures Before(bno, pos, Power(p + 1), x, y)
  {
    HigherDigit(bno[x], p);
    HigherDigit(bno[y], p);
    hide Power;
    var m, dx, dy := Power(p), bno[x] / Power(p) % BUCKETS, bno[y] / Power(p) % BUCKETS;
    Powers();
    if dx < dy { Carry(dx, dy, m, bno[x] % m, bno[y] % m); }
  }

  lemma Carry(dx: int, dy: int, m: int, rx: int, ry: int)
    requires dx < dy && 0 <= rx < m && 0 <= ry && (m == 1 || m == 0x100 || m == 0x1_0000 || m == 0x100_0000)
    ensures dx * m + rx < dy * m + ry
  {
  }

  /** When the block numbers stay the same, the passes sort the list by block number, as
      an unsigned number of four bytes, and blocks with equal numbers keep their order. */
  lemma {:induction false} PassesSort(list: seq<int>, seen: seq<seq<int>>, bno: seq<int>, pos: seq<int>, p: int)
    requires |seen| == 4 && Reads(seen, |bno|) && ReadsBytes(seen, bno) && |pos| == |bno| && Nodes(list, |bno|)
    requires 0 <= p <= 4
    requires forall x :: 0 <= x < |bno| ==> 0 <= bno[x] < 0x1_0000_0000
    requires forall i, j :: 0 <= i < j < |list| ==> pos[list[i]] < pos[list[j]]
    ensures Nodes(Passes(list, seen, |bno|, p), |bno|) && InOrder(Passes(list, seen, |bno|, p), bno, pos, Power(p))
  {
    hide Power, Classes;
    Powers();
    if p > 0 {
      PassesSort(list, seen, bno, pos, p - 1);
      PassOrders(Passes(list, seen, |bno|, p - 1), bno, pos, p - 1, seen[p - 1], 0);
    }
  }

  lemma SyncListIsSorted(list: seq<int>, seen: seq<seq<int>>, bno: seq<int>, pos: seq<int>)
    requires |seen| == 4 && Reads(seen, |bno|) && ReadsBytes(seen, bno) && |pos| == |bno| && Nodes(list, |bno|)
    requires forall x :: 0 <= x < |bno| ==> 0 <= bno[x] < 0x1_0000_0000
    requires forall i, j :: 0 <= i < j < |list| ==> pos[list[i]] < pos[list[j]]
    ensures var out := Passes(list, seen, |bno|, 4);
            forall i, j :: 0 <= i < j < |out| ==>
              bno[out[i]] < bno[out[j]] || (bno[out[i]] == bno[out[j]] && pos[out[i]] < pos[out[j]])
  {
    hide Power, Passes, Before;
    Powers();
    PassesSort(list, seen, bno, pos, 4);
    var out := Passes(list, seen, |bno|, 4);
    forall i, j | 0 <= i < j < |out|
      ensures bno[out[i]] < bno[out[j]] || (bno[out[i]] == bno[out[j]] && pos[out[i]] < pos[out[j]])
    {
      WholeNumbers(bno, pos, out[i], out[j]);
    }
  }

  lemma WholeNumbers(bno: seq<int>, pos: seq<int>, x: int, y: int)
    requires |pos| == |bno| && 0 <= x < |bno| && 0 <= y < |bno| && Before(bno, pos, 0x1_0000_0000, x, y)
    requires 0 <= bno[x] < 0x1_0000_0000 && 0 <= bno[y] < 0x1_0000_0000
    ensures bno[x] < bno[y] || (bno[x] == bno[y] && pos[x] < pos[y])
  {
  }
}
