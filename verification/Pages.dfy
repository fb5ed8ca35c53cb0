/** Physical pages: a stack of free ones, and the arrays of page descriptors that segments
    have taken from the descriptor arena. */
module Pages {
  import opened BuddyMath
  import opened FiniteSets
  import opened BuddySpec
  import opened BuddyRings
  import opened BuddyArea

  const SEGMENT_PAGES: nat := 1024     // NBPS / NBPC

  /** A descriptor; with `npl` its page does not come from the pool. */
  datatype Entry = Entry(page: int, npl: bool)

  /** Where a page of the pool is. */
  datatype Home = InPool(k: int) | InArray(at: int, i: int)

  // ----- every page is in one place -----

  ghost predicate IsHome(home: map<int, Home>, pool: seq<int>, segs: map<int, seq<Entry>>, p: int)
    requires p in home
  {
    match home[p]
    case InPool(k) => 0 <= k < |pool| && pool[k] == p
    case InArray(at, i) => at in segs && 0 <= i < |segs[at]| && segs[at][i] == Entry(p, false)
  }

  ghost predicate PoolHome(home: map<int, Home>, pool: seq<int>, k: int)
    requires 0 <= k < |pool|
  {
    pool[k] in home && home[pool[k]] == InPool(k)
  }

  ghost predicate ArrayHome(home: map<int, Home>, segs: map<int, seq<Entry>>, at: int, i: int)
    requires at in segs && 0 <= i < |segs[at]|
  {
    !segs[at][i].npl ==> segs[at][i].page in home && home[segs[at][i].page] == InArray(at, i)
  }

  /** Each page of `home` is where `home` says and nowhere else, and there are no others. */
  ghost predicate Housed(home: map<int, Home>, pool: seq<int>, segs: map<int, seq<Entry>>) {
    && (forall p :: p in home ==> IsHome(home, pool, segs, p))
    && (forall k :: 0 <= k < |pool| ==> PoolHome(home, pool, k))
    && (forall at, i :: at in segs && 0 <= i < |segs[at]| ==> ArrayHome(home, segs, at, i))
  }

  /** The `n` pages on top of the stack, as they are taken. */
  function Taken(pool: seq<int>, n: int): (e: seq<Entry>)
    requires 0 <= n <= |pool|
    ensures |e| == n && forall j :: 0 <= j < n ==> e[j] == Entry(pool[|pool| - 1 - j], false)
  {
    seq(n, j requires 0 <= j < n => Entry(pool[|pool| - 1 - j], false))
  }

  /** Homes after `n` pages have been put between the first `a` entries of array `at` and
      the rest, which is then array `to`. */
  ghost function Grown(home: map<int, Home>, top: int, n: int, at: int, to: int, a: int): (r: map<int, Home>)
    ensures r.Keys == home.Keys
  {
    map p | p in home ::
      match home[p]
      case InPool(k) => if k < top - n then InPool(k) else InArray(to, a + (top - 1 - k))
      case InArray(s, i) => if s == at then InArray(to, if i < a then i else i + n) else InArray(s, i)
  }

  lemma ArrayGrows(home: map<int, Home>, pool: seq<int>, segs: map<int, seq<Entry>>, segs': map<int, seq<Entry>>,
                   at: int, to: int, n: int, A: seq<Entry>, B: seq<Entry>)
    requires Housed(home, pool, segs) && 0 <= n <= |pool| && (to !in segs || to == at)
    requires if at in segs then segs[at] == A + B else A == [] == B
    requires segs' == (segs - {at})[to := A + Taken(pool, n) + B]
    ensures Housed(Grown(home, |pool|, n, at, to, |A|), pool[..|pool| - n], segs')
  {
    var top, home', pool' := |pool|, Grown(home, |pool|, n, at, to, |A|), pool[..|pool| - n];
    forall p | p in home' ensures IsHome(home', pool', segs', p) {
      assert IsHome(home, pool, segs, p);
    }
    forall k | 0 <= k < |pool'| ensures PoolHome(home', pool', k) {
      assert PoolHome(home, pool, k);
    }
    forall s, i | s in segs' && 0 <= i < |segs'[s]| ensures ArrayHome(home', segs', s, i) {
      if s != to {
        assert ArrayHome(home, segs, s, i);
      } else if |A| <= i < |A| + n {
        assert PoolHome(home, pool, top - 1 - (i - |A|));
      } else {
        assert ArrayHome(home, segs, at, if i < |A| then i else i - n);
      }
    }
  }

  /** The pages of an array that go back to the pool. */
  function Own(e: seq<Entry>): seq<int> {
    if e == [] then []
    else Own(e[..|e| - 1]) + if e[|e| - 1].npl then [] else [e[|e| - 1].page]
  }

  lemma {:induction false} OwnPlace(e: seq<Entry>, i: int)
    requires 0 <= i < |e| && !e[i].npl
    ensures |Own(e[..i])| < |Own(e)| && Own(e)[|Own(e[..i])|] == e[i].page
  {
    var init := e[..|e| - 1];
    if i < |e| - 1 {
      OwnPlace(init, i);
      assert init[..i] == e[..i];
    }
  }

  /** Each page that goes back comes from an entry. */
  lemma {:induction false} OwnSource(e: seq<Entry>, j: int) returns (i: int)
    requires 0 <= j < |Own(e)|
    ensures 0 <= i < |e| && !e[i].npl && e[i].page == Own(e)[j] && |Own(e[..i])| == j
  {
    var init := e[..|e| - 1];
    if j < |Own(init)| {
      i := OwnSource(init, j);
      assert init[..i] == e[..i];
    } else {
      i := |e| - 1;
    }
  }

  ghost function Freed(home: map<int, Home>, top: int, at: int, e: seq<Entry>): (r: map<int, Home>)
    ensures r.Keys == home.Keys
  {
    map p | p in home ::
      match home[p]
      case InArray(s, i) => if s == at && 0 <= i < |e| then InPool(top + |Own(e[..i])|) else home[p]
      case InPool(_) => home[p]
  }

  lemma ArrayFreed(home: map<int, Home>, pool: seq<int>, segs: map<int, seq<Entry>>, at: int)
    requires Housed(home, pool, segs) && at in segs
    ensures Housed(Freed(home, |pool|, at, segs[at]), pool + Own(segs[at]), segs - {at})
  {
    var e := segs[at];
    var home', pool', segs' := Freed(home, |pool|, at, e), pool + Own(e), segs - {at};
    forall p | p in home' ensures IsHome(home', pool', segs', p) {
      assert IsHome(home, pool, segs, p);
      if home[p].InArray? && home[p].at == at { OwnPlace(e, home[p].i); }
    }
    forall k | 0 <= k < |pool'| ensures PoolHome(home', pool', k) {
      if k < |pool| {
        assert PoolHome(home, pool, k);
      } else {
        var i := OwnSource(e, k - |pool|);
        assert ArrayHome(home, segs, at, i);
      }
    }
    forall s, i | s in segs' && 0 <= i < |segs'[s]| ensures ArrayHome(home', segs', s, i) {
      assert ArrayHome(home, segs, s, i);
    }
  }

  /** The check that c_free makes before it gives pages back: it can fail only for arrays
      with pages that are not from the pool. */
  lemma PoolHasRoom(home: map<int, Home>, pool: seq<int>, segs: map<int, seq<Entry>>, at: int)
    requires Housed(home, pool, segs) && at in segs
    ensures |pool| + |Own(segs[at])| <= |home|
  {
    ArrayFreed(home, pool, segs, at);
    var e := segs[at];
    DistinctFits(Freed(home, |pool|, at, e), pool + Own(e), segs - {at});
  }

  lemma {:induction false} NoForeignPages(e: seq<Entry>)
    requires forall i :: 0 <= i < |e| ==> !e[i].npl
    ensures |Own(e)| == |e|
  {
    if e != [] { NoForeignPages(e[..|e| - 1]); }
  }

  /** The check of c_free compares the stack with all pages of the array, also with those
      that will not go back: with such pages it can fail although nothing is wrong. */
  lemma CheckIsTooStrict()
    ensures exists home, pool, segs, at ::
              Housed(home, pool, segs) && at in segs && |pool| + |segs[at]| > |home| >= |pool| + |Own(segs[at])|
  {
    var home: map<int, Home>, pool, segs := map[7 := InPool(0)], [7], map[0 := [Entry(9, true)]];
    assert PoolHome(home, pool, 0);
    forall p | p in home ensures IsHome(home, pool, segs, p) {
    }
    forall at, i | at in segs && 0 <= i < |segs[at]| ensures ArrayHome(home, segs, at, i) {
    }
    assert Own(segs[0]) == [];
    assert Housed(home, pool, segs) && 0 in segs;
    assert |home| == 1;
  }

  // ----- exactly when that check fails -----

  /** The pages of the pool that are in arrays other than `at`. */
  ghost function InOthers(home: map<int, Home>, at: int): set<int> {
    set p | p in home && home[p].InArray? && home[p].at != at
  }

  function Foreign(e: seq<Entry>): nat {
    if e == [] then 0 else Foreign(e[..|e| - 1]) + if e[|e| - 1].npl then 1 else 0
  }

  lemma {:induction false} OwnAndForeign(e: seq<Entry>)
    ensures |Own(e)| + Foreign(e) == |e|
  {
    if e != [] { OwnAndForeign(e[..|e| - 1]); }
  }

  /** The pages that are not on the stack are in arrays. */
  lemma StackAndArrays(home: map<int, Home>, pool: seq<int>, segs: map<int, seq<Entry>>)
    requires Housed(home, pool, segs)
    ensures |home| == |pool| + |set p | p in home && home[p].InArray?|
  {
    var s, t := PagesIn(home, pool, |pool|), set p | p in home && home[p].InArray?;
    forall p | p in home && home[p].InPool? ensures p in s {
      assert IsHome(home, pool, segs, p);
      InPages(home, pool, |pool|, home[p].k);
    }
    assert s + t == home.Keys && s !! t;
    assert |home.Keys| == |home|;
  }

  /** The check of c_free fails if and only if the array has more foreign pages than other
      arrays have pages of the pool. */
  lemma CheckFailsIff(home: map<int, Home>, pool: seq<int>, segs: map<int, seq<Entry>>, at: int)
    requires Housed(home, pool, segs) && at in segs
    ensures |pool| + |segs[at]| > |home| <==> Foreign(segs[at]) > |InOthers(home, at)|
  {
    hide Own, Foreign;
    var e := segs[at];
    var home' := Freed(home, |pool|, at, e);
    ArrayFreed(home, pool, segs, at);
    StackAndArrays(home', pool + Own(e), segs - {at});
    OwnAndForeign(e);
    forall p | p in home ensures home'[p].InArray? <==> p in InOthers(home, at) {
      assert IsHome(home, pool, segs, p);
    }
    assert InOthers(home, at) == set p | p in home' && home'[p].InArray?;
    assert |home'.Keys| == |home'| && |home.Keys| == |home|;
  }

  // ----- foreign pages -----

  /** The entries of an array of which `n` from `off` on have been mapped to other pages. */
  function Mapped(e: seq<Entry>, off: int, base: int, n: int): (r: seq<Entry>)
    requires 0 <= off && 0 <= n && off + n <= |e|
    ensures |r| == |e|
    ensures forall i :: 0 <= i < |r| ==> r[i] == if off <= i < off + n then Entry(base + (i - off), true) else e[i]
  {
    e[..off] + seq(n, i requires 0 <= i < n => Entry(base + i, true)) + e[off + n..]
  }

  /** A page that goes back to the stack when its entry is overwritten. */
  lemma PageReplaced(home: map<int, Home>, pool: seq<int>, segs: map<int, seq<Entry>>, at: int, q: int, x: Entry)
    requires Housed(home, pool, segs) && at in segs && 0 <= q < |segs[at]| && x.npl
    ensures var e, segs' := segs[at][q], segs[at := segs[at][q := x]];
            if e.npl then Housed(home, pool, segs')
            else e.page in home && Housed(home[e.page := InPool(|pool|)], pool + [e.page], segs')
  {
    var e, segs' := segs[at][q], segs[at := segs[at][q := x]];
    var home', pool' := if e.npl then home else home[e.page := InPool(|pool|)], pool + if e.npl then [] else [e.page];
    assert ArrayHome(home, segs, at, q);
    forall p | p in home' ensures IsHome(home', pool', segs', p) {
      assert p in home && IsHome(home, pool, segs, p);
    }
    forall k | 0 <= k < |pool'| ensures PoolHome(home', pool', k) {
      if k < |pool| { assert PoolHome(home, pool, k); }
    }
    forall s, i | s in segs' && 0 <= i < |segs'[s]| ensures ArrayHome(home', segs', s, i) {
      assert ArrayHome(home, segs, s, i);
    }
    assert e.npl ==> pool' == pool;
  }

  lemma SameBlocks(segs: map<int, seq<Entry>>, at: int, e: seq<Entry>)
    requires Sized(segs) && at in segs && |e| == |segs[at]|
    ensures Sized(segs[at := e]) && BlocksOf(segs[at := e]) == BlocksOf(segs)
  {
    hide AreaSize;
    SizedAt(segs, at);
    BlocksAfter(segs, at, at, e);
    LiveToo(segs, at);
    assert (segs - {at})[at := e] == segs[at := e];
  }

  lemma MappedMore(e: seq<Entry>, off: int, base: int, i: int)
    requires 0 <= off && 0 <= i && off + i < |e|
    ensures Mapped(e, off, base, i)[off + i] == e[off + i]
    ensures Mapped(e, off, base, i)[off + i := Entry(base + i, true)] == Mapped(e, off, base, i + 1)
    ensures Own(e[off..off + i + 1]) == Own(e[off..off + i]) + if e[off + i].npl then [] else [e[off + i].page]
  {
    assert e[off..off + i + 1][..i] == e[off..off + i];
  }

  lemma NothingMapped(segs: map<int, seq<Entry>>, at: int, off: int, base: int)
    requires at in segs && 0 <= off <= |segs[at]|
    ensures segs[at := Mapped(segs[at], off, base, 0)] == segs && Own(segs[at][off..off]) == []
  {
    assert Mapped(segs[at], off, base, 0) == segs[at];
  }

  lemma DistinctFits(home: map<int, Home>, pool: seq<int>, segs: map<int, seq<Entry>>)
    requires Housed(home, pool, segs)
    ensures |pool| <= |home|
  {
    Places(home, pool, |pool|);
  }

  lemma {:induction false} Places(home: map<int, Home>, pool: seq<int>, n: int)
    requires 0 <= n <= |pool| && forall k :: 0 <= k < |pool| ==> PoolHome(home, pool, k)
    ensures n <= |home|
  {
    var s := PagesIn(home, pool, n);
    assert s <= home.Keys;
    SubsetIsSmaller(s, home.Keys);
    assert |home.Keys| == |home|;
  }

  ghost function PagesIn(home: map<int, Home>, pool: seq<int>, n: int): (s: set<int>)
    requires 0 <= n <= |pool| && forall k :: 0 <= k < |pool| ==> PoolHome(home, pool, k)
    ensures |s| == n && forall p :: p in s ==> p in home && home[p].InPool? && home[p].k < n
  {
    if n == 0 then {}
    else
      assert PoolHome(home, pool, n - 1);
      PagesIn(home, pool, n - 1) + {pool[n - 1]}
  }

  // ----- sizes of arrays -----

  predicate IsPowerOfTwo(n: nat) {
    n == 1 || (n > 1 && n % 2 == 0 && IsPowerOfTwo(n / 2))
  }

  lemma {:induction false} PowersAre(k: nat)
    ensures IsPowerOfTwo(Pow2(k))
  {
    if k > 0 { PowersAre(k - 1); }
  }

  /** An array whose length is not a power of two has room for one more. */
  lemma RoomForOneMore(n: nat)
    requires 1 <= n < MAX_PAGES && !IsPowerOfTwo(n)
    ensures AreaSize(n + 1) == AreaSize(n)
  {
    hide AreaSize, IsPowerOfTwo;
    AreaSizeIsLeast(n);
    AreaSizeIsLeast(n + 1);
    var k, m := AreaSize(n), AreaSize(n + 1);
    if m > k {
      Pow2Monotone(k, m - 1);
      assert n == Pow2(k + 2);
      PowersAre(k + 2);
    } else if m < k {
      Pow2Monotone(m, k - 1);
    }
  }

  lemma SmallArrays(n: nat)
    requires 1 <= n <= SEGMENT_PAGES
    ensures n <= MAX_PAGES && 0 <= AreaSize(n) < LEVELS
  {
  }

  /** The blocks of the arena that hold the arrays. */
  ghost function BlocksOf(segs: map<int, seq<Entry>>): set<Block>
    requires Sized(segs)
  {
    set at | at in segs :: Block(at, AreaSize(|segs[at]|))
  }

  ghost predicate Sized(segs: map<int, seq<Entry>>) {
    forall at {:trigger segs[at]} :: at in segs ==>
        at >= 0 && 1 <= |segs[at]| <= MAX_PAGES && 0 <= AreaSize(|segs[at]|) < LEVELS
  }

  lemma BlocksAfter(segs: map<int, seq<Entry>>, at: int, to: int, e: seq<Entry>)
    requires Sized(segs) && to >= 0 && 1 <= |e| <= MAX_PAGES && 0 <= AreaSize(|e|) < LEVELS && (to !in segs || to == at)
    ensures Sized(segs - {at}) && Sized((segs - {at})[to := e])
    ensures at in segs ==> BlocksOf(segs - {at}) == BlocksOf(segs) - {Block(at, AreaSize(|segs[at]|))}
    ensures at !in segs ==> segs - {at} == segs
    ensures BlocksOf((segs - {at})[to := e]) == BlocksOf(segs - {at}) + {Block(to, AreaSize(|e|))}
  {
    hide AreaSize;
    var s1 := segs - {at};
    var s2 := s1[to := e];
    forall b ensures b in BlocksOf(s2) <==> b in BlocksOf(s1) + {Block(to, AreaSize(|e|))} {
      if b in BlocksOf(s1) + {Block(to, AreaSize(|e|))} && b.at != to { assert b.at in s1 && s2[b.at] == s1[b.at]; }
      if b == Block(to, AreaSize(|e|)) { assert s2[to] == e; }
    }
    if at in segs {
      forall b ensures b in BlocksOf(s1) <==> b in BlocksOf(segs) - {Block(at, AreaSize(|segs[at]|))} {
        if b in BlocksOf(segs) && b.at != at { assert b.at in s1 && s1[b.at] == segs[b.at]; }
      }
    }
  }

  /** A block that is not in use is not where an array is. */
  lemma NewPlace(n: nat, F: set<Block>, segs: map<int, seq<Entry>>, b: Block)
    requires Sized(segs) && Good(n, F, BlocksOf(segs) + {b}) && b !in BlocksOf(segs)
    ensures b.at !in segs
  {
    hide AreaSize;
    if b.at in segs {
      var c, S := Block(b.at, AreaSize(|segs[b.at]|)), F + (BlocksOf(segs) + {b});
      CoversOwnStart(b);
      CoversOwnStart(c);
      LiveToo(segs, b.at);
      TwoBlocks(n, S, b, c, b.at);
    }
  }

  lemma CoversOwnStart(b: Block)
    ensures Covers(b, b.at)
  {
  }

  lemma TwoBlocks(n: nat, S: set<Block>, b: Block, c: Block, u: nat)
    requires Tiles(n, S) && b in S && c in S && Covers(b, u) && Covers(c, u)
    ensures b == c
  {
  }

  ghost predicate SomeRun(F: set<Block>, k: int) {
    k >= 0 && exists a: nat :: FreeRun(F, a, k)
  }

  // ----- the operations -----

  class PageSystem {
    const area: Area
    const room: int                  // how many pages the stack has room for
    var pool: seq<int>               // the stack from tfree to pfree
    var segs: map<int, seq<Entry>>   // descriptor arrays, by the unit at which they start
    ghost var home: map<int, Home>

    ghost predicate Valid()
      reads this, area, area.rings, area.rings.forw, area.rings.back, area.budfree, area.kval
    {
      && area.Valid() && Housed(home, pool, segs) && room == |home|
      && Sized(segs) && area.live == BlocksOf(segs)
    }

    /** The pages of the machine, none of them used yet. */
    constructor (pages: seq<int>, units: nat)
      requires units < TABLE && forall i, j :: 0 <= i < j < |pages| ==> pages[i] != pages[j]
      ensures Valid() && pool == pages && segs == map[] && room == |pages| && area.units == units
      ensures fresh(area) && fresh(area.Parts())
      ensures home.Keys == set i | 0 <= i < |pages| :: pages[i]
    {
      area := new Area(units);
      pool, segs, room := pages, map[], |pages|;
      home := Start(pages);
      new;
      AtStart(pages);
    }

    /** A block of the arena for an array of `n` descriptors. */
    method Room(n: nat) returns (ok: bool, at: int)
      requires Valid() && 1 <= n <= MAX_PAGES && 0 <= AreaSize(n) < LEVELS
      modifies area`live, area.rings`lists, area.rings.forw, area.rings.back, area.budfree, area.kval
      ensures area.Valid() && (ok <==> SomeRun(old(area.Free()), AreaSize(n)))
      ensures ok ==> at >= 0 && at !in segs && Block(at, AreaSize(n)) !in BlocksOf(segs)
      ensures ok ==> area.live == BlocksOf(segs) + {Block(at, AreaSize(n))}
      ensures !ok ==> Valid() && area.rings.lists == old(area.rings.lists)
    {
      hide Good, AreaSize, FreeRun;
      ok, at := area.AreaAlloc(n);
      if ok {
        NewPlace(area.units, area.Free(), segs, Block(at, AreaSize(n)));
      }
    }

    /** Takes pages from the top of the stack. */
    method TakePages(n: nat) returns (e: seq<Entry>)
      requires n <= |pool|
      modifies this`pool
      ensures pool == old(pool)[..|old(pool)| - n] && e == Taken(old(pool), n)
    {
      e := [];
      while |e| < n
        invariant |e| <= n <= |old(pool)| && pool == old(pool)[..|old(pool)| - |e|] && e == Taken(old(pool), |e|)
      {
        var pno := pool[|pool| - 1];
        pool := pool[..|pool| - 1];
        e := e + [Entry(pno, false)];
      }
    }

    /** Puts pages back on the stack, those excepted that are not from the pool. */
    method PutPages(e: seq<Entry>)
      modifies this`pool
      ensures pool == old(pool) + Own(e)
    {
      var q := 0;
      while q < |e|
        invariant 0 <= q <= |e| && pool == old(pool) + Own(e[..q])
      {
        assert e[..q + 1][..q] == e[..q];
        if !e[q].npl {
          pool := pool + [e[q].page];
        }
        q := q + 1;
      }
      assert e[..|e|] == e;
    }

    /** Room for an array of `n` descriptors in place of the array at `pp`, whose block goes
        back to the arena. */
    method Move(pp: int, n: nat) returns (ok: bool, to: int)
      requires Valid() && pp in segs && 1 <= n <= MAX_PAGES && 0 <= AreaSize(n) < LEVELS
      modifies area`live, area.rings`lists, area.rings.forw, area.rings.back, area.budfree, area.kval
      ensures area.Valid() && (ok <==> SomeRun(old(area.Free()), AreaSize(n)))
      ensures ok ==> to >= 0 && to !in segs
      ensures ok ==> area.live == BlocksOf(segs) - {Block(pp, AreaSize(|segs[pp]|))} + {Block(to, AreaSize(n))}
      ensures !ok ==> Valid()
    {
      hide Good, AreaSize, Housed, SomeRun, BlocksOf, Area.Valid, Sized;
      SizedAt(segs, pp);
      ok, to := Room(n);
      if ok {
        LiveToo(segs, pp);
        area.AreaFree(pp, |segs[pp]|);
      }
    }

    /** c_alloc: an array of descriptors with the pages from the top of the stack.  It fails
        exactly when there are too few pages or no free run of descriptors. */
    method CAlloc(pages_wanted: nat) returns (ok: bool, pp: int)
      requires Valid() && 1 <= pages_wanted <= MAX_PAGES && 0 <= AreaSize(pages_wanted) < LEVELS
      modifies this`pool, this`segs, this`home, area`live, area.rings`lists, area.rings.forw, area.rings.back,
               area.budfree, area.kval
      ensures Valid() && home.Keys == old(home.Keys)
      ensures ok <==> pages_wanted <= |old(pool)| && SomeRun(old(area.Free()), AreaSize(pages_wanted))
      ensures ok ==> pp !in old(segs) && segs == old(segs)[pp := Taken(old(pool), pages_wanted)]
      ensures ok ==> pool == old(pool)[..|old(pool)| - pages_wanted]
      ensures !ok ==> segs == old(segs) && pool == old(pool)
    {
      hide Good, AreaSize, SomeRun, Housed, Area.Valid, BlocksOf, Sized, Taken, Grown;
      if pages_wanted > |pool| {
        return false, 0;
      }
      ok, pp := Room(pages_wanted);
      if !ok {
        return;
      }
      ghost var was := pool;
      var e := TakePages(pages_wanted);
      assert segs - {pp} == segs && [] + e + [] == e;
      ArrayGrows(home, was, segs, segs[pp := e], pp, pp, pages_wanted, [], []);
      BlocksAfter(segs, pp, pp, e);
      home := Grown(home, |was|, pages_wanted, pp, pp, 0);
      segs := segs[pp := e];
    }

    /** c_free: the pages of the array go back to the stack, those from elsewhere excepted,
        and its block to the arena.  `ok` is false when the kernel panics instead, because
        the stack seems to have no room. */
    method CFree(pp: int) returns (ok: bool)
      requires Valid() && pp in segs
      modifies this`pool, this`segs, this`home, area`live, area.rings`lists, area.rings.forw, area.rings.back,
               area.budfree, area.kval
      ensures Valid() && home.Keys == old(home.Keys)
      ensures ok <==> |old(pool)| + |old(segs)[pp]| <= room
      ensures ok ==> segs == old(segs) - {pp} && pool == old(pool) + Own(old(segs)[pp])
      ensures ok ==> area.live == old(area.live) - {Block(pp, AreaSize(|old(segs)[pp]|))}
      ensures !ok ==> segs == old(segs) && pool == old(pool) && area.live == old(area.live)
    {
      hide Good, AreaSize, Housed, Area.Valid, BlocksOf, Sized, Freed, Own;
      SizedAt(segs, pp);
      var e := segs[pp];
      if |pool| + |e| > room {
        return false;
      }
      ghost var was := pool;
      PutPages(e);
      ArrayFreed(home, was, segs, pp);
      BlocksAfter(segs, pp, pp, e);
      LiveToo(segs, pp);
      area.AreaFree(pp, |e|);
      home := Freed(home, |was|, pp, e);
      segs := segs - {pp};
      ok := true;
    }

    /** mapPhysUser: `n` entries of the array from `off` on get the pages from `base` on, which
        are not from the pool; the pages that they had go back to the stack.  `allowed` says
        that the addresses are aligned and the physical ones are not those of memory in use. */
    method MapPhysUser(pp: int, off: int, base: int, n: nat, allowed: bool) returns (ok: bool)
      requires Valid() && pp in segs
      modifies this`pool, this`segs, this`home
      ensures Valid() && home.Keys == old(home.Keys) && |pool| <= room
      ensures ok <==> allowed && 0 <= off && off + n < |old(segs)[pp]|
      ensures ok ==> && segs == old(segs)[pp := Mapped(old(segs)[pp], off, base, n)]
                     && pool == old(pool) + Own(old(segs)[pp][off..off + n])
      ensures !ok ==> segs == old(segs) && pool == old(pool)
    {
      hide Good, AreaSize, Housed, Area.Valid, BlocksOf, Sized, Own, Mapped;
      DistinctFits(home, pool, segs);
      if !allowed || off < 0 || off + n >= |segs[pp]| {
        return false;
      }
      ghost var e := segs[pp];
      NothingMapped(segs, pp, off, base);
      var i := 0;
      while i < n
        invariant 0 <= i <= n && Valid() && home.Keys == old(home.Keys)
        invariant segs == old(segs)[pp := Mapped(e, off, base, i)]
        invariant pool == old(pool) + Own(e[off..off + i])
      {
        var was := segs[pp][off + i];
        MappedMore(e, off, base, i);
        PageReplaced(home, pool, segs, pp, off + i, Entry(base + i, true));
        SameBlocks(segs, pp, segs[pp][off + i := Entry(base + i, true)]);
        if !was.npl {
          home := home[was.page := InPool(|pool|)];
          pool := pool + [was.page];
        }
        segs := segs[pp := segs[pp][off + i := Entry(base + i, true)]];
        i := i + 1;
      }
      DistinctFits(home, pool, segs);
      ok := true;
    }

    /** c_extend: one page in front of all others.  A full array, whose length is a power of
        two, moves to a new block. */
    method CExtend(pp: int) returns (ok: bool, pp1: int)
      requires Valid() && pp in segs
      modifies this`pool, this`segs, this`home, area`live, area.rings`lists, area.rings.forw, area.rings.back,
               area.budfree, area.kval
      ensures Valid() && home.Keys == old(home.Keys)
      ensures ok <==> && |old(pool)| >= 1 && |old(segs)[pp]| < SEGMENT_PAGES
                      && (IsPowerOfTwo(|old(segs)[pp]|) ==> SomeRun(old(area.Free()), AreaSize(|old(segs)[pp]| + 1)))
      ensures ok ==> segs == (old(segs) - {pp})[pp1 := Taken(old(pool), 1) + old(segs)[pp]]
      ensures ok ==> pool == old(pool)[..|old(pool)| - 1]
      ensures !ok ==> segs == old(segs) && pool == old(pool)
    {
      hide Good, AreaSize, SomeRun, Housed, IsPowerOfTwo, Area.Valid, BlocksOf, Sized, Taken;
      SizedAt(segs, pp);
      var osz := |segs[pp]|;
      if |pool| < 1 || osz >= SEGMENT_PAGES {
        return false, 0;
      }
      SmallArrays(osz + 1);
      pp1 := pp;
      if IsPowerOfTwo(osz) {
        ok, pp1 := Move(pp, osz + 1);
        if !ok {
          return;
        }
      } else {
        RoomForOneMore(osz);
        LiveToo(segs, pp);
      }
      Resettle(pp, pp1, 1, true);
      ok := true;
    }

    /** c_grow: more pages behind the others.  The array moves when its size class changes. */
    method CGrow(pp: int, new_pages: nat) returns (ok: bool, to: int)
      requires Valid() && pp in segs && new_pages <= MAX_PAGES && AreaSize(new_pages) < LEVELS
      modifies this`pool, this`segs, this`home, area`live, area.rings`lists, area.rings.forw, area.rings.back,
               area.budfree, area.kval
      ensures Valid() && home.Keys == old(home.Keys)
      ensures ok <==> || new_pages == |old(segs)[pp]|
                      || (0 < new_pages - |old(segs)[pp]| <= |old(pool)|
                          && (AreaSize(new_pages) == AreaSize(|old(segs)[pp]|)
                              || SomeRun(old(area.Free()), AreaSize(new_pages))))
      ensures ok ==> new_pages >= |old(segs)[pp]|
      ensures ok ==> segs == (old(segs) - {pp})[to := old(segs)[pp] + Taken(old(pool), new_pages - |old(segs)[pp]|)]
      ensures ok ==> pool == old(pool)[..|old(pool)| - (new_pages - |old(segs)[pp]|)]
      ensures !ok ==> segs == old(segs) && pool == old(pool)
    {
      hide Good, AreaSize, SomeRun, Housed, Area.Valid, BlocksOf, Sized, Taken;
      SizedAt(segs, pp);
      var old_pages := |segs[pp]|;
      to := pp;
      if new_pages == old_pages {
        Unchanged(segs, pp, pool);
        return true, pp;
      }
      if new_pages < old_pages || new_pages - old_pages > |pool| {
        return false, pp;
      }
      Levels(new_pages);
      if AreaSize(new_pages) != AreaSize(old_pages) {
        ok, to := Move(pp, new_pages);
        if !ok {
          return;
        }
      } else {
        LiveToo(segs, pp);
      }
      Resettle(pp, to, new_pages - old_pages, false);
      ok := true;
    }

    /** The array at `pp` gets `n` pages in front or behind, and is at `to` from now on; the
        arena has been told already. */
    method Resettle(pp: int, to: int, n: nat, front: bool)
      requires area.Valid() && Housed(home, pool, segs) && room == |home| && Sized(segs) && pp in segs
      requires 0 < n <= |pool| && to >= 0 && (to == pp || to !in segs)
      requires |segs[pp]| + n <= MAX_PAGES && 0 <= AreaSize(|segs[pp]| + n) < LEVELS
      requires area.live == BlocksOf(segs) - {Block(pp, AreaSize(|segs[pp]|))} + {Block(to, AreaSize(|segs[pp]| + n))}
      modifies this`pool, this`segs, this`home
      ensures Valid() && home.Keys == old(home.Keys) && pool == old(pool)[..|old(pool)| - n]
      ensures segs == Widened(old(segs), pp, to, Taken(old(pool), n), front)
    {
      hide Good, AreaSize, Housed, Area.Valid, BlocksOf, Sized, Taken, Grown, Widened;
      Resettled(home, pool, segs, pp, to, n, front);
      home := Grown(home, |pool|, n, pp, to, if front then 0 else |segs[pp]|);
      var got := TakePages(n);
      segs := Widened(segs, pp, to, got, front);
    }
  }

  /** The arrays after that at `pp` has got the pages `got` and is at `to`. */
  function Widened(segs: map<int, seq<Entry>>, pp: int, to: int, got: seq<Entry>, front: bool): map<int, seq<Entry>>
    requires pp in segs
  {
    (segs - {pp})[to := if front then got + segs[pp] else segs[pp] + got]
  }

  lemma Resettled(home: map<int, Home>, pool: seq<int>, segs: map<int, seq<Entry>>, pp: int, to: int, n: nat,
                  front: bool)
    requires Housed(home, pool, segs) && Sized(segs) && pp in segs && n <= |pool| && to >= 0
    requires (to == pp || to !in segs)
    requires |segs[pp]| + n <= MAX_PAGES && 0 <= AreaSize(|segs[pp]| + n) < LEVELS
    ensures var segs' := Widened(segs, pp, to, Taken(pool, n), front);
            && Housed(Grown(home, |pool|, n, pp, to, if front then 0 else |segs[pp]|), pool[..|pool| - n], segs')
            && Sized(segs')
            && BlocksOf(segs') ==
               BlocksOf(segs) - {Block(pp, AreaSize(|segs[pp]|))} + {Block(to, AreaSize(|segs[pp]| + n))}
  {
    hide AreaSize, Housed, BlocksOf, Grown, Taken;
    SizedAt(segs, pp);
    var A, B := if front then [] else segs[pp], if front then segs[pp] else [];
    var e' := if front then Taken(pool, n) + segs[pp] else segs[pp] + Taken(pool, n);
    assert A + B == segs[pp] && A + Taken(pool, n) + B == e';
    ArrayGrows(home, pool, segs, (segs - {pp})[to := e'], pp, to, n, A, B);
    BlocksAfter(segs, pp, to, e');
  }

  ghost function Start(pages: seq<int>): map<int, Home> {
    map p | p in pages :: InPool(PlaceOfPage(pages, p))
  }

  ghost function PlaceOfPage(pages: seq<int>, p: int): (k: int)
    requires p in pages
    ensures 0 <= k < |pages| && pages[k] == p
  {
    var k :| 0 <= k < |pages| && pages[k] == p;
    k
  }

  lemma AtStart(pages: seq<int>)
    requires forall i, j :: 0 <= i < j < |pages| ==> pages[i] != pages[j]
    ensures Housed(Start(pages), pages, map[]) && |Start(pages)| == |pages|
    ensures Start(pages).Keys == set i | 0 <= i < |pages| :: pages[i]
  {
    var home := Start(pages);
    forall k | 0 <= k < |pages| ensures PoolHome(home, pages, k) {
      assert pages[PlaceOfPage(pages, pages[k])] == pages[k];
    }
    var s := PagesIn(home, pages, |pages|);
    forall p | p in home.Keys ensures p in s {
      InPages(home, pages, |pages|, PlaceOfPage(pages, p));
    }
    assert s == home.Keys;
    assert |home.Keys| == |home|;
  }

  lemma {:induction false} InPages(home: map<int, Home>, pool: seq<int>, n: int, k: int)
    requires 0 <= k < n <= |pool| && forall j :: 0 <= j < |pool| ==> PoolHome(home, pool, j)
    ensures pool[k] in PagesIn(home, pool, n)
  {
    if k < n - 1 { InPages(home, pool, n - 1, k); }
  }

  lemma SizedAt(segs: map<int, seq<Entry>>, at: int)
    requires Sized(segs) && at in segs
    ensures at >= 0 && 1 <= |segs[at]| <= MAX_PAGES && 0 <= AreaSize(|segs[at]|) < LEVELS
  {
  }

  lemma LiveToo(segs: map<int, seq<Entry>>, at: int)
    requires Sized(segs) && at in segs
    ensures Block(at, AreaSize(|segs[at]|)) in BlocksOf(segs)
  {
  }

  lemma Levels(n: nat)
    requires 1 <= n <= MAX_PAGES
    ensures AreaSize(n) >= 0
  {
  }

  lemma Unchanged(segs: map<int, seq<Entry>>, at: int, pool: seq<int>)
    requires at in segs
    ensures (segs - {at})[at := segs[at] + Taken(pool, 0)] == segs && pool[..|pool| - 0] == pool
  {
    assert segs[at] + Taken(pool, 0) == segs[at];
  }

  /** An array lies in its block: it has room for all descriptors, and no other array has
      any unit of it. */
  lemma ArraysApart(n: nat, F: set<Block>, segs: map<int, seq<Entry>>, at: int, to: int, u: nat)
    requires Sized(segs) && Good(n, F, BlocksOf(segs)) && at in segs && to in segs && at != to
    requires at <= u && 4 * (u - at) < |segs[at]|
    ensures u < n && !Covers(Block(to, AreaSize(|segs[to]|)), u)
  {
    hide AreaSize;
    var b, c, S := Block(at, AreaSize(|segs[at]|)), Block(to, AreaSize(|segs[to]|)), F + BlocksOf(segs);
    LiveToo(segs, at);
    LiveToo(segs, to);
    assert b in S && c in S;
    AreaSizeIsLeast(|segs[at]|);
    FitsIsRange(n, b, u);
    assert Covers(b, u);
  }

  // ----- a run that ends in the panic -----

  /** In an arena without arrays every unit is free. */
  lemma FirstRunIsFree(n: nat, F: set<Block>)
    requires Good(n, F, {}) && n > 0
    ensures SomeRun(F, 0)
  {
    assert F + {} == F;
    assert FreeRun(F, 0, 0);
  }

  /** A machine with two pages, both in one array. */
  method TwoPages() returns (sys: PageSystem, pp: int)
    ensures fresh(sys) && fresh(sys.area) && fresh(sys.area.Parts())
    ensures sys.Valid() && sys.room == 2 && sys.pool == [] && pp in sys.segs
    ensures sys.segs[pp] == [Entry(2, false), Entry(1, false)]
  {
    hide Good, SomeRun, Area.Valid, BlocksOf, Housed, Sized, AreaSize;
    sys := new PageSystem([1, 2], 1);
    OneUnitIsFree(sys);
    var ok: bool;
    ok, pp := sys.CAlloc(2);
    assert sys.segs[pp] == [Entry(2, false), Entry(1, false)];
  }

  lemma OneUnitIsFree(sys: PageSystem)
    requires sys.Valid() && sys.segs == map[] && sys.area.units == 1
    ensures AreaSize(2) == 0 && SomeRun(sys.area.Free(), 0)
  {
    hide Good, SomeRun, Housed, Sized;
    assert BlocksOf(sys.segs) == {};
    FirstRunIsFree(1, sys.area.Free());
  }

  /** One of these pages is replaced.  Freeing the array then panics, with room for both pages
      on the stack. */
  method PanicIsReached() returns (sys: PageSystem, pp: int, ok: bool)
    ensures sys.Valid() && pp in sys.segs && !ok
    ensures |sys.pool| + |Own(sys.segs[pp])| <= sys.room
  {
    hide Good, SomeRun, Area.Valid, BlocksOf, Housed, Sized, AreaSize;
    sys, pp := TwoPages();
    ghost var e := sys.segs[pp];
    ok := sys.MapPhysUser(pp, 0, 100, 1, true);
    assert e[0..1] == [e[0]] && Own([e[0]]) == Own([]) + [e[0].page];
    PoolHasRoom(sys.home, sys.pool, sys.segs, pp);
    ok := sys.CFree(pp);
  }
}
