/** The free-block list. */
module FsFree {
  // A short list in the superblock whose slot 0 links to a free block that holds the next
  // short list, and so on.  `lv` lists the contents of the superblock list and of each chain
  // block behind it.

  import opened FsBytes
  import opened FsTree

  type Levels = seq<seq<int>>

  // ----- the chain -----

  /** `fr[..n]` is a proper short list: slot 0 may be 0 (no further chain block), no
      other slot is. */
  predicate ShortList(n: int, fr: seq<int>) {
    0 <= n <= NICFREE && |fr| == NICFREE && AddrRange(fr) && forall i :: 1 <= i < n ==> fr[i] != 0
  }

  ghost predicate Chain(d: Disk, n: int, fr: seq<int>, lv: Levels)
    requires IsDisk(d)
    decreases |lv|
  {
    && |lv| > 0 && ShortList(n, fr) && lv[0] == fr[..n]
    && if n == 0 || fr[0] == 0 then |lv| == 1
       else On(d, fr[0]) && Chain(d, ChainCount(d[fr[0]]), ChainAddrs(d[fr[0]]), lv[1..])
  }

  /** How often block `x` is on the list. */
  ghost function FreeOcc(lv: Levels, x: int): nat {
    if lv == [] || x == 0 then 0 else multiset(lv[0])[x] + FreeOcc(lv[1..], x)
  }

  /** How many blocks are on the list. */
  ghost function FreeLen(lv: Levels): nat {
    if lv == [] then 0 else |lv[0]| - (if |lv[0]| > 0 && lv[0][0] == 0 then 1 else 0) + FreeLen(lv[1..])
  }

  /** The list as a stack, its top last: below the entries of a short list lie those of the
      list that its slot 0 links to. */
  ghost function Stack(lv: Levels): seq<int> {
    if lv == [] then [] else Stack(lv[1..]) + Entries(lv[0])
  }

  /** The blocks of a short list; slot 0 may be empty. */
  function Entries(a: seq<int>): seq<int> {
    if |a| > 0 && a[0] == 0 then a[1..] else a
  }

  lemma StackHead(a: seq<int>, rest: Levels)
    ensures Stack([a] + rest) == Stack(rest) + Entries(a)
  {
    assert ([a] + rest)[1..] == rest;
  }

  /** Occurrences and length are those of the stack. */
  lemma {:induction false} StackCounts(d: Disk, n: int, fr: seq<int>, lv: Levels, x: int)
    requires IsDisk(d) && Chain(d, n, fr, lv) && x != 0
    ensures FreeOcc(lv, x) == multiset(Stack(lv))[x] && FreeLen(lv) == |Stack(lv)|
    decreases |lv|
  {
    hide ChainCount, ChainAddrs;
    if n > 0 && fr[0] != 0 {
      StackCounts(d, ChainCount(d[fr[0]]), ChainAddrs(d[fr[0]]), lv[1..], x);
    } else {
      assert lv[1..] == [];
    }
    assert n > 0 && fr[0] == 0 ==> lv[0] == [0] + lv[0][1..];
  }

  lemma EntriesGrow(a: seq<int>, b: int)
    requires a != []
    ensures Entries(a + [b]) == Entries(a) + [b]
  {
  }

  /** Spilling or not, freeing pushes. */
  lemma StackPushed(lv: Levels, b: int)
    requires |lv| > 0 && b != 0
    ensures Stack([[b]] + lv) == Stack(lv) + [b]
    ensures lv[0] != [] ==> Stack([lv[0] + [b]] + lv[1..]) == Stack(lv) + [b]
  {
    hide Stack;
    StackHead([b], lv);
    if lv[0] != [] {
      assert lv == [lv[0]] + lv[1..];
      StackHead(lv[0], lv[1..]);
      StackHead(lv[0] + [b], lv[1..]);
      EntriesGrow(lv[0], b);
    }
  }

  /** Allocating pops. */
  lemma StackPopped(n: int, fr: seq<int>, lv: Levels)
    requires 0 < n <= |fr| && |lv| > 0 && lv[0] == fr[..n] && fr[n - 1] != 0
    ensures Stack(lv) == Stack(if n == 1 then lv[1..] else [fr[..n - 1]] + lv[1..]) + [fr[n - 1]]
  {
    hide Stack;
    assert lv == [lv[0]] + lv[1..];
    StackHead(lv[0], lv[1..]);
    if n > 1 {
      StackHead(fr[..n - 1], lv[1..]);
      assert fr[..n] == fr[..n - 1] + [fr[n - 1]];
      EntriesGrow(fr[..n - 1], fr[n - 1]);
    }
  }

  /** The heads of the chain: the blocks whose contents the list depends on. */
  ghost predicate HeadsAgree(d: Disk, d': Disk, lv: Levels) {
    |d'| == |d| && forall i {:trigger lv[i]} :: 0 <= i < |lv| && |lv[i]| > 0 && On(d, lv[i][0]) ==>
        d'[lv[i][0]] == d[lv[i][0]]
  }

  lemma {:induction false} ChainFrame(d: Disk, d': Disk, n: int, fr: seq<int>, lv: Levels)
    requires IsDisk(d) && IsDisk(d') && Chain(d, n, fr, lv) && HeadsAgree(d, d', lv)
    ensures Chain(d', n, fr, lv)
    decreases |lv|
  {
    if n > 0 && fr[0] != 0 {
      assert lv[0][0] == fr[0];
      forall i | 0 <= i < |lv[1..]| && |lv[1..][i]| > 0 && On(d, lv[1..][i][0])
        ensures d'[lv[1..][i][0]] == d[lv[1..][i][0]]
      {
        assert lv[1..][i] == lv[i + 1];
      }
      ChainFrame(d, d', ChainCount(d[fr[0]]), ChainAddrs(d[fr[0]]), lv[1..]);
    }
  }

  lemma {:induction false} HeadCounted(lv: Levels, i: int)
    requires 0 <= i < |lv| && |lv[i]| > 0 && lv[i][0] != 0
    ensures FreeOcc(lv, lv[i][0]) > 0
    decreases i
  {
    if i > 0 {
      assert lv[1..][i - 1] == lv[i];
      HeadCounted(lv[1..], i - 1);
    } else {
      assert lv[0][0] in multiset(lv[0]);
    }
  }

  /** Writing a block that is not on the list leaves the list alone. */
  lemma WriteOffList(d: Disk, n: int, fr: seq<int>, lv: Levels, x: int, data: Bytes)
    requires IsDisk(d) && Chain(d, n, fr, lv) && On(d, x) && FreeOcc(lv, x) == 0 && IsBlock(data)
    ensures Chain(d[x := data], n, fr, lv)
  {
    forall i | 0 <= i < |lv| && |lv[i]| > 0 && On(d, lv[i][0]) ensures d[x := data][lv[i][0]] == d[lv[i][0]] {
      HeadCounted(lv, i);
    }
    ChainFrame(d, d[x := data], n, fr, lv);
  }

  lemma {:induction false} ChainEmptyIff(d: Disk, n: int, fr: seq<int>, lv: Levels)
    requires IsDisk(d) && Chain(d, n, fr, lv)
    ensures FreeLen(lv) >= 0
    ensures FreeLen(lv) == 0 <==> n == 0 || fr[n - 1] == 0
    decreases |lv|
  {
    assert FreeLen([]) == 0;
    if n > 0 && fr[0] != 0 {
      ChainEmptyIff(d, ChainCount(d[fr[0]]), ChainAddrs(d[fr[0]]), lv[1..]);
    } else {
      assert lv[1..] == [];
    }
  }

  lemma {:induction false} EmptyHasNone(d: Disk, n: int, fr: seq<int>, lv: Levels, x: int)
    requires IsDisk(d) && Chain(d, n, fr, lv) && FreeLen(lv) == 0
    ensures FreeOcc(lv, x) == 0
  {
    ChainEmptyIff(d, n, fr, lv);
    assert lv[1..] == [];
    if n > 0 { assert lv[0] == [0]; }
  }

  // ----- keeping the list sorted -----

  predicate Descending(s: seq<int>) {
    forall i, j :: 0 <= i < j < |s| ==> s[i] > s[j]
  }

  /** daddr_add from position `i`: the new block goes before the first smaller one and
      the last is pushed out; a new block that is met is a duplicate (0); one smaller
      than all comes straight back. */
  function Insert(s: seq<int>, nb: int, i: int): (seq<int>, int)
    requires 0 <= i <= |s|
    decreases |s| - i
  {
    if i == |s| then (s, nb)
    else if nb == s[i] then (s, 0)
    else if nb > s[i] then (s[..i] + [nb] + s[i..|s| - 1], s[|s| - 1])
    else Insert(s, nb, i + 1)
  }

  /** The list and the block that comes out are, together, the old list and the new
      block. */
  lemma {:induction false} InsertKeeps(s: seq<int>, nb: int, i: int, x: int)
    requires 0 <= i <= |s| && nb !in s
    ensures var (t, r) := Insert(s, nb, i);
            |t| == |s| && multiset(t)[x] + (if x == r then 1 else 0) == multiset(s)[x] + (if x == nb then 1 else 0)
    decreases |s| - i
  {
    if i < |s| {
      if nb > s[i] {
        var a, b, c := s[..i], s[i..|s| - 1], s[|s| - 1];
        assert s == a + b + [c];
        Counts(a, b, c, nb, x);
      } else {
        InsertKeeps(s, nb, i + 1, x);
      }
    }
  }

  lemma Counts(a: seq<int>, b: seq<int>, c: int, nb: int, x: int)
    ensures multiset(a + [nb] + b)[x] + (if x == c then 1 else 0) ==
              multiset(a + b + [c])[x] + (if x == nb then 1 else 0)
  {
  }

  lemma {:induction false} InsertMembers(s: seq<int>, nb: int, i: int)
    requires 0 <= i <= |s| && nb !in s
    ensures var (t, r) := Insert(s, nb, i);
            |t| == |s| && (r == nb || r in s) && forall y :: y in t ==> y == nb || y in s
    decreases |s| - i
  {
    if i < |s| && nb < s[i] { InsertMembers(s, nb, i + 1); }
  }

  /** On a descending list the smallest comes out and the rest stays descending. */
  lemma {:induction false} InsertSorts(s: seq<int>, nb: int, i: int)
    requires 0 <= i <= |s| && Descending(s) && nb !in s && forall j :: 0 <= j < i ==> s[j] > nb
    ensures var (t, r) := Insert(s, nb, i);
            Descending(t) && forall j :: 0 <= j < |t| ==> t[j] > r
    decreases |s| - i
  {
    if i < |s| && nb < s[i] { InsertSorts(s, nb, i + 1); }
  }

  /** Whatever the order of the list, the new block goes before the first one that is
      smaller, if any is. */
  lemma {:induction false} InsertPlace(s: seq<int>, nb: int, i: int, k: int)
    requires 0 <= i <= k <= |s| && forall j :: i <= j < k ==> s[j] > nb
    ensures k == |s| ==> Insert(s, nb, i) == (s, nb)
    ensures k < |s| && s[k] < nb ==> Insert(s, nb, i) == (s[..k] + [nb] + s[k..|s| - 1], s[|s| - 1])
    decreases k - i
  {
    if i < k { InsertPlace(s, nb, i + 1, k); }
  }

  /** The inner loop of daddr_add: the elements from `i` on move up one place over the
      last one before `end`. */
  method ShiftUp(list: array<int>, i: nat, end: nat)
    requires i < end <= list.Length
    modifies list
    ensures list[..i + 1] == old(list[..i + 1]) && list[end..] == old(list[end..])
    ensures list[i + 1..end] == old(list[i..end - 1])
  {
    var e := end - 1;
    while i != e
      invariant i <= e < end
      invariant list[..e + 1] == old(list[..e + 1]) && list[end..] == old(list[end..])
      invariant list[e + 1..end] == old(list[e..end - 1])
      decreases e
    {
      e := e - 1;
      list[e + 1] := list[e];
      assert list[e + 1..end] == [list[e + 1]] + list[e + 2..end];
      assert old(list[e..end - 1]) == [old(list[e])] + old(list[e + 1..end - 1]);
      assert old(list[..e + 2])[e] == old(list[e]);
      assert list[..e + 1] == old(list[..e + 2])[..e + 1];
    }
  }

  /** daddr_add on `count` slots of `list` from slot `lo`. */
  method DaddrAdd(list: array<int>, lo: nat, count: nat, newblock: int) returns (r: int)
    requires lo + count <= list.Length
    modifies list
    ensures (list[lo..lo + count], r) == Insert(old(list[lo..lo + count]), newblock, 0)
    ensures list[..lo] == old(list[..lo]) && list[lo + count..] == old(list[lo + count..])
  {
    var end := lo + count;
    ghost var a, s := list[..], list[lo..end];
    var i := lo;
    while i != end
      invariant lo <= i <= end && list[..] == a && s == list[lo..end]
      invariant Insert(s, newblock, 0) == Insert(s, newblock, i - lo)
    {
      if newblock == list[i] {
        return 0;
      }
      if newblock > list[i] {
        r := list[end - 1];
        ShiftUp(list, i, end);
        ghost var b := list[..];
        list[i] := newblock;
        Shifted(a, b, lo, i, end);
        assert list[lo..end] == b[lo..i] + [newblock] + b[i + 1..end];
        assert list[..lo] == b[..lo] && list[end..] == b[end..];
        return;
      }
      i := i + 1;
    }
    r := newblock;
  }

  lemma Shifted(a: seq<int>, b: seq<int>, lo: nat, i: nat, end: nat)
    requires lo <= i < end <= |a| == |b| && b[..i + 1] == a[..i + 1] && b[i + 1..end] == a[i..end - 1]
    ensures b[lo..i] == a[lo..end][..i - lo] && b[i + 1..end] == a[lo..end][i - lo..end - lo - 1] && b[..lo] == a[..lo]
  {
    forall k | 0 <= k < i ensures b[k] == a[k] {
      assert b[k] == b[..i + 1][k] && a[k] == a[..i + 1][k];
    }
    var d, e := b[i + 1..end], a[lo..end][i - lo..end - lo - 1];
    forall k | 0 <= k < |d| ensures d[k] == e[k] {
      assert d[k] == a[i..end - 1][k] && e[k] == a[lo..end][i - lo + k];
    }
  }

  // ----- what bfree and balloc do to the chain -----

  lemma FreeOccHead(a: seq<int>, rest: Levels, x: int)
    ensures FreeOcc([a] + rest, x) == if x == 0 then 0 else multiset(a)[x] + FreeOcc(rest, x)
    ensures FreeOcc(rest, 0) == 0
  {
    assert ([a] + rest)[1..] == rest;
    NoBlockZero(rest);
  }

  lemma NoBlockZero(lv: Levels)
    ensures FreeOcc(lv, 0) == 0
  {
    var zero := 0;
    assert FreeOcc(lv, zero) == 0;
  }

  lemma FreeLenHead(a: seq<int>, rest: Levels)
    ensures FreeLen([a] + rest) == |a| - (if |a| > 0 && a[0] == 0 then 1 else 0) + FreeLen(rest)
  {
    assert ([a] + rest)[1..] == rest;
  }

  lemma ChainHead(d: Disk, n: int, fr: seq<int>, m: int, fr': seq<int>, lv: Levels)
    requires IsDisk(d) && Chain(d, n, fr, lv) && ShortList(m, fr') && n > 0 && m > 0 && fr'[0] == fr[0]
    ensures Chain(d, m, fr', [fr'[..m]] + lv[1..])
  {
    assert ([fr'[..m]] + lv[1..])[1..] == lv[1..];
  }

  /** Sorting: `b` goes into slots 1.., and `r` comes out to be freed in its place. */
  lemma SortChain(d: Disk, n: int, fr: seq<int>, lv: Levels, b: int, fr': seq<int>, r: int)
    requires IsDisk(d) && Chain(d, n, fr, lv) && n > 0 && On(d, b) && b < 0x1_0000_0000 && FreeOcc(lv, b) == 0
    requires |fr'| == NICFREE && fr'[0] == fr[0] && fr'[n..] == fr[n..] && (fr'[1..n], r) == Insert(fr[1..n], b, 0)
    ensures Chain(d, n, fr', [fr'[..n]] + lv[1..])
    ensures forall x :: FreeOcc([fr'[..n]] + lv[1..], x) + (if x == r then 1 else 0) ==
              FreeOcc(lv, x) + (if x == b then 1 else 0)
    ensures FreeLen([fr'[..n]] + lv[1..]) == FreeLen(lv) && b !in fr[1..n] && (r == b || r in fr[1..n])
              && 0 < r < 0x1_0000_0000
  {
    hide Insert, Chain, ShortList, FreeLen, FreeOcc;
    ChainShape(d, n, fr, lv);
    assert lv[0] == [fr[0]] + fr[1..n] && fr'[..n] == [fr[0]] + fr'[1..n];
    assert lv == [lv[0]] + lv[1..];
    NotResident(fr[0], fr[1..n], lv[1..], b);
    SortShort(n, fr, b, fr', r);
    ChainHead(d, n, fr, n, fr', lv);
    FreeLenHead(fr'[..n], lv[1..]);
    FreeLenHead(fr[..n], lv[1..]);
    forall x
      ensures FreeOcc([fr'[..n]] + lv[1..], x) + (if x == r then 1 else 0) == FreeOcc(lv, x) + (if x == b then 1 else 0)
    {
      SortCounts(fr[0], fr[1..n], b, lv[1..], x);
    }
  }

  lemma NotResident(f: int, s: seq<int>, rest: Levels, b: int)
    requires FreeOcc([[f] + s] + rest, b) == 0 && b != 0
    ensures b !in s
  {
    FreeOccHead([f] + s, rest, b);
    assert b !in [f] + s;
  }

  lemma SortShort(n: int, fr: seq<int>, b: int, fr': seq<int>, r: int)
    requires ShortList(n, fr) && n > 0 && 0 < b < 0x1_0000_0000 && b !in fr[1..n]
    requires |fr'| == NICFREE && fr'[0] == fr[0] && fr'[n..] == fr[n..] && (fr'[1..n], r) == Insert(fr[1..n], b, 0)
    ensures ShortList(n, fr') && (r == b || r in fr[1..n]) && 0 < r < 0x1_0000_0000
  {
    InsertMembers(fr[1..n], b, 0);
    hide Insert;
    forall y | y in fr[1..n] ensures 0 < y < 0x1_0000_0000 {
      var j :| 0 <= j < n - 1 && fr[1..n][j] == y;
      assert fr[j + 1] == y;
    }
    forall i | 0 <= i < NICFREE ensures 0 <= fr'[i] < 0x1_0000_0000 && (1 <= i < n ==> fr'[i] != 0) {
      if 1 <= i < n {
        assert fr'[1..n][i - 1] in fr'[1..n];
      } else if i >= n {
        assert fr'[i] == fr'[n..][i - n] && fr[i] == fr[n..][i - n];
      }
    }
  }

  lemma SortCounts(f: int, s: seq<int>, b: int, rest: Levels, x: int)
    requires b !in s && b > 0 && Insert(s, b, 0).1 != 0
    ensures var (t, r) := Insert(s, b, 0);
            FreeOcc([[f] + t] + rest, x) + (if x == r then 1 else 0) ==
                FreeOcc([[f] + s] + rest, x) + (if x == b then 1 else 0)
  {
    var (t, r) := Insert(s, b, 0);
    InsertKeeps(s, b, 0, x);
    FreeOccHead([f] + t, rest, x);
    FreeOccHead([f] + s, rest, x);
  }

  /** Room left in the superblock list. */
  lemma PushChain(d: Disk, n: int, fr: seq<int>, lv: Levels, b: int)
    requires IsDisk(d) && Chain(d, n, fr, lv) && 0 < n < NICFREE && 0 < b < 0x1_0000_0000
    ensures Chain(d, n + 1, fr[n := b], [lv[0] + [b]] + lv[1..])
    ensures forall x :: FreeOcc([lv[0] + [b]] + lv[1..], x) == FreeOcc(lv, x) + if x == b then 1 else 0
    ensures FreeLen([lv[0] + [b]] + lv[1..]) == FreeLen(lv) + 1
  {
    assert lv == [lv[0]] + lv[1..] && fr[n := b][..n + 1] == lv[0] + [b];
    ChainHead(d, n, fr, n + 1, fr[n := b], lv);
    FreeLenHead(lv[0] + [b], lv[1..]);
    forall x ensures FreeOcc([lv[0] + [b]] + lv[1..], x) == FreeOcc(lv, x) + if x == b then 1 else 0 {
      FreeOccHead(lv[0] + [b], lv[1..], x);
      FreeOccHead(lv[0], lv[1..], x);
    }
  }

  /** No room, or no list yet: the list is spilled into `b`, which becomes slot 0. */
  lemma SpillChain(d: Disk, n: int, fr: seq<int>, lv: Levels, b: int)
    requires IsDisk(d) && Chain(d, n, fr, lv) && On(d, b) && b < 0x1_0000_0000 && FreeOcc(lv, b) == 0
    ensures IsDisk(d[b := ChainBlock(n, fr)]) && Chain(d[b := ChainBlock(n, fr)], 1, fr[0 := b], [[b]] + lv)
    ensures forall x :: FreeOcc([[b]] + lv, x) == FreeOcc(lv, x) + if x == b then 1 else 0
    ensures FreeLen([[b]] + lv) == FreeLen(lv) + 1
  {
    hide ChainBlock, ChainCount, ChainAddrs, FreeOcc, FreeLen;
    WriteOffList(d, n, fr, lv, b, ChainBlock(n, fr));
    assert ([[b]] + lv)[1..] == lv && fr[0 := b][..1] == [b];
    FreeLenHead([b], lv);
    forall x ensures FreeOcc([[b]] + lv, x) == FreeOcc(lv, x) + if x == b then 1 else 0 {
      FreeOccHead([b], lv, x);
    }
  }

  /** Taking the last entry of the superblock list; if that was slot 0, the list that it
      links to moves into the superblock. */
  lemma PopChain(d: Disk, n: int, fr: seq<int>, lv: Levels)
    requires IsDisk(d) && Chain(d, n, fr, lv) && n > 0 && fr[n - 1] != 0
    ensures var b := fr[n - 1];
            var (m, fr', lv') := if n == 1 then (ChainCount(d[b]), ChainAddrs(d[b]), lv[1..])
                                 else (n - 1, fr[n - 1 := 0], [fr[..n - 1]] + lv[1..]);
            && (n == 1 ==> On(d, b)) && Chain(d, m, fr', lv') && FreeLen(lv') == FreeLen(lv) - 1
            && forall x :: FreeOcc(lv', x) == FreeOcc(lv, x) - if x == b then 1 else 0
  {
    var b := fr[n - 1];
    assert lv == [lv[0]] + lv[1..];
    if n == 1 {
      assert lv[0] == [b];
      FreeLenHead([b], lv[1..]);
      forall x ensures FreeOcc(lv[1..], x) == FreeOcc(lv, x) - if x == b then 1 else 0 {
        FreeOccHead([b], lv[1..], x);
      }
    } else {
      PopPush(d, n, fr, lv);
    }
  }

  lemma PopPush(d: Disk, n: int, fr: seq<int>, lv: Levels)
    requires IsDisk(d) && Chain(d, n, fr, lv) && n > 1
    ensures var lv' := [fr[..n - 1]] + lv[1..];
            && Chain(d, n - 1, fr[n - 1 := 0], lv') && FreeLen(lv') == FreeLen(lv) - 1
            && forall x :: FreeOcc(lv', x) == FreeOcc(lv, x) - if x == fr[n - 1] then 1 else 0
  {
    var fr', b := fr[n - 1 := 0], fr[n - 1];
    assert fr'[..n - 1] == fr[..n - 1] && lv[0] == fr[..n - 1] + [b] && lv == [lv[0]] + lv[1..];
    ChainHead(d, n, fr, n - 1, fr', lv);
    FreeLenHead(fr[..n - 1], lv[1..]);
    FreeLenHead(lv[0], lv[1..]);
    forall x ensures FreeOcc([fr[..n - 1]] + lv[1..], x) == FreeOcc(lv, x) - if x == b then 1 else 0 {
      FreeOccHead(fr[..n - 1], lv[1..], x);
      FreeOccHead(fr[..n - 1] + [b], lv[1..], x);
    }
  }

  lemma ChainShape(d: Disk, n: int, fr: seq<int>, lv: Levels)
    requires IsDisk(d) && Chain(d, n, fr, lv)
    ensures 0 <= n <= NICFREE == |fr| && ShortList(n, fr) && |lv| > 0 && lv[0] == fr[..n]
  {
  }

  /** An entry of the superblock list is counted. */
  lemma ResidentCounted(d: Disk, n: int, fr: seq<int>, lv: Levels, b: int)
    requires IsDisk(d) && Chain(d, n, fr, lv) && b in fr[..n] && b != 0
    ensures FreeOcc(lv, b) > 0
  {
    assert b in lv[0];
    assert lv == [lv[0]] + lv[1..];
    FreeOccHead(lv[0], lv[1..], b);
  }

  /** A list whose next entry is 0 is at its end. */
  lemma NothingLeft(d: Disk, n: int, fr: seq<int>, lv: Levels)
    requires IsDisk(d) && Chain(d, n, fr, lv) && n > 0 && fr[n - 1] == 0
    ensures Chain(d, 0, fr, [[]]) && FreeLen(lv) == 0 == FreeLen([[]]) && Stack(lv) == []
    ensures forall x :: FreeOcc(lv, x) == 0 == FreeOcc([[]], x)
  {
    assert n == 1 && fr[..1] == [0];
    assert lv == [[0]] && Entries([0]) == [];
    StackHead([0], []);
    ChainEmptyIff(d, n, fr, lv);
    FreeLenHead([], []);
    var none: Levels := [];
    assert [[]] == [[]] + none;
    forall x ensures FreeOcc(lv, x) == 0 == FreeOcc([[]], x) {
      EmptyHasNone(d, n, fr, lv, x);
      FreeOccHead([], [], x);
    }
  }

  lemma NothingThere(d: Disk, fr: seq<int>, lv: Levels)
    requires IsDisk(d) && Chain(d, 0, fr, lv)
    ensures Stack(lv) == []
  {
    assert lv == [[]];
  }
}
