/** The descriptor arena. */
module BuddyArea {
  // Free lists, the free-head bit map and the level field of each node, kept consistent by
  // `arealloc`, `areafree` and `areainit`.  The arena must have fewer than 2^NBUDDY units:
  // with exactly that many, coalescing everything would ask for a list beyond the last one.

  import Chains
  import opened BuddyMath
  import opened BuddySpec
  import opened BuddyRings

  // ----- the size class of a request -----

  /** The table `buddysize`: the log of the least power of two not below `i`. */
  function BuddySize(i: nat): int
    requires i < 64
  {
    if i == 0 then -1 else if i == 1 then 0 else if i == 2 then 1 else if i <= 4 then 2
    else if i <= 8 then 3 else if i <= 16 then 4 else if i <= 32 then 5 else 6
  }

  const MAX_PAGES: nat := 0x3F00

  /** The level of the block that holds `pages` descriptors, four to a unit. */
  function AreaSize(pages: nat): int
    requires pages <= MAX_PAGES
  {
    var n := (pages + 3) / 4;
    var m := n % 64;
    if n / 64 == 0 then BuddySize(m) else BuddySize(n / 64 + if m != 0 then 1 else 0) + 6
  }

  /** The level is the least one whose blocks have room for the request. */
  lemma AreaSizeIsLeast(pages: nat)
    requires 1 <= pages <= MAX_PAGES
    ensures AreaSize(pages) >= 0
    ensures 4 * Pow2(AreaSize(pages)) >= pages
    ensures AreaSize(pages) > 0 ==> 4 * Pow2(AreaSize(pages) - 1) < pages
  {
    PowersOfTwo();
  }

  /** Only up to half the sizes that areasize lets pass have a list. */
  lemma ClassHasListIff(pages: nat)
    requires 1 <= pages <= MAX_PAGES
    ensures AreaSize(pages) < LEVELS <==> pages <= 4 * Pow2(LEVELS - 1)
  {
    hide AreaSize;
    AreaSizeIsLeast(pages);
    PowersOfTwo();
    if AreaSize(pages) < LEVELS { Pow2Monotone(AreaSize(pages), LEVELS - 1); }
    if AreaSize(pages) > LEVELS - 1 { Pow2Monotone(LEVELS - 1, AreaSize(pages) - 1); }
  }

  lemma PowersOfTwo()
    ensures Pow2(0) == 1 && Pow2(1) == 2 && Pow2(2) == 4 && Pow2(3) == 8 && Pow2(4) == 16
    ensures Pow2(5) == 32 && Pow2(6) == 64 && Pow2(7) == 128 && Pow2(8) == 256
    ensures Pow2(9) == 512 && Pow2(10) == 1024 && Pow2(11) == 2048 && Pow2(12) == 4096
  {
    assert Pow2(3) == 8;
    assert Pow2(6) == 64;
    assert Pow2(9) == 512;
  }

  // ----- free blocks as the lists and marks record them -----

  ghost function FreeOf(L: seq<seq<int>>): set<Block> {
    set k: nat, p: int | 0 <= k < |L| && p in L[k] && p >= 0 :: Block(p, k)
  }

  lemma FreeMeaning(L: seq<seq<int>>, p: nat, k: nat)
    ensures Block(p, k) in FreeOf(L) <==> k < |L| && p in L[k]
  {
  }

  /** Bits and levels agree with the free blocks. */
  ghost predicate Marks(F: set<Block>, bits: seq<bool>, levels: seq<int>) {
    && |bits| == |levels| == TABLE
    && (forall b :: b in F ==> b.at < TABLE && bits[b.at] && levels[b.at] == b.k)
    && (forall p: nat :: p < TABLE && bits[p] ==> Block(p, if levels[p] >= 0 then levels[p] else 0) in F)
  }

  /** `sp` is the first block of the least level from `q` on that has a free block. */
  ghost predicate FromLeast(L: seq<seq<int>>, q: int, sp: int) {
    exists k: nat :: q <= k < |L| && L[k] != [] && L[k][0] == sp && forall j: nat :: q <= j < k ==> L[j] == []
  }

  lemma FirstOfLeast(L: seq<seq<int>>, q: nat, k: nat, sp: int)
    requires q <= k < |L| && L[k] != [] && L[k][0] == sp && forall j :: q <= j < k ==> L[j] == []
    ensures FromLeast(L, q, sp)
  {
  }

  class Area {
    const units: int
    const rings: Rings
    const budfree: array<bool>
    const kval: array<int>
    ghost var live: set<Block>

    ghost function Free(): set<Block>
      reads rings
    {
      FreeOf(rings.lists)
    }

    /** The three structures record the same free blocks. */
    ghost predicate Rep()
      reads this, rings, rings.forw, rings.back, budfree, kval
    {
      && rings.Valid() && kval != rings.forw && kval != rings.back
      && budfree.Length == kval.Length == TABLE
      && Marks(Free(), budfree[..], kval[..])
    }

    ghost predicate Valid()
      reads this, rings, rings.forw, rings.back, budfree, kval
    {
      Rep() && 0 <= units < TABLE && Good(units, Free(), live)
    }

    /** The arrays and lists of the arena, all of them its own. */
    ghost function Parts(): set<object>
      reads this
    {
      {rings, rings.forw, rings.back, budfree, kval}
    }

    /** areainit: empty lists, then every unit is released as a block of level 0. */
    constructor (n: nat)
      requires n < TABLE
      ensures Valid() && units == n && live == {} && fresh(Parts())
    {
      units := n;
      var r := new Rings();
      rings := r;
      budfree := new bool[TABLE](_ => false);
      kval := new int[TABLE](_ => 0);
      live := UnitsFrom(0, n);
      new;
      NothingFree(rings.lists);
      AllUnitsLive(n);
      assert Valid();
      hide Rep, Good, AreaSize, UnitsFrom;
      LevelOfUnit();
      var i := 0;
      while i < n
        invariant 0 <= i <= n && Valid() && live == UnitsFrom(i, n) && fresh(Parts())
      {
        FirstUnit(i, n);
        AreaFree(i, 4);
        i := i + 1;
      }
      FirstUnit(n, n);
    }

    /** Takes a free block off its list and clears its bit. */
    method Unlink(p: int, ghost k: nat)
      requires Rep() && p >= 0 && Block(p, k) in Free()
      modifies rings`lists, rings.forw, rings.back, budfree
      ensures Rep() && Free() == old(Free()) - {Block(p, k)}
    {
      ghost var L, i := rings.lists, PlaceOf(rings.lists, p, k);
      DroppedFree(L, k, i);
      MarksRemoved(Free(), budfree[..], kval[..], Block(p, k));
      hide Marks, FreeOf, Dropped, Members, AllLinked;
      ghost var bits := budfree[..];
      budfree[p] := false;
      assert budfree[..] == bits[p := false];
      rings.Delete(p, k, i);
    }

    /** Marks a block free at level `k` and appends it to the list. */
    method Link(p: int, k: nat)
      requires Rep() && 0 <= p < TABLE && k < LEVELS && forall m: nat :: Block(p, m) !in Free()
      modifies rings`lists, rings.forw, rings.back, budfree, kval
      ensures Rep() && Free() == old(Free()) + {Block(p, k)}
    {
      ghost var L, bits, levels := rings.lists, budfree[..], kval[..];
      NotListed(L, p);
      AppendedFree(L, k, p);
      MarksAdded(Free(), bits, levels, Block(p, k));
      hide Marks, FreeOf, Appended, Members, AllLinked;
      budfree[p] := true;
      rings.Insert(p, k);
      kval[p] := k;
      assert budfree[..] == bits[p := true] && kval[..] == levels[p := k];
    }

    /** One turn of the coalescing loop, for the block of level `n` at `ix` that is being
        released: merges it with its buddy if that is free, or reports that it is not. */
    method Coalesce(ix: nat, n: nat) returns (merged: bool, start: nat)
      requires Valid() && Block(ix, n) in live
      modifies this`live, rings`lists, rings.forw, rings.back, budfree
      ensures Valid() && Block(start, if merged then n + 1 else n) in live
      ensures live - {Block(start, if merged then n + 1 else n)} == old(live) - {Block(ix, n)}
      ensures !merged ==> NoFreeBuddy(Free(), Block(start, n))
    {
      hide Good, Marks, FreeOf, FlipBit, Aligned, Buddy, Parent, NoFreeBuddy, Members, AllLinked;
      ghost var cur, F := Block(ix, n), Free();
      start := ix;
      InHandFits(units, F, live, cur);
      var nx := FlipBit(ix, n);
      BuddyIsMarked(F, budfree[..], kval[..], nx, n);
      if budfree[nx] && kval[nx] == n {
        Unlink(nx, n);
        if nx < ix {
          start := nx;
        }
        MergeInHand(units, F, Free(), live, cur);
        live := live - {cur} + {Block(start, n + 1)};
        merged := true;
      } else {
        NothingToMerge(F, cur);
        merged := false;
      }
    }

    /** Puts a block whose buddy is not free on the free lists. */
    method Release(ix: nat, n: nat)
      requires Valid() && Block(ix, n) in live && NoFreeBuddy(Free(), Block(ix, n))
      modifies this`live, rings`lists, rings.forw, rings.back, budfree, kval
      ensures Valid() && live == old(live) - {Block(ix, n)}
    {
      hide Good, Marks, FreeOf, Aligned, NoFreeBuddy, Members, AllLinked;
      ghost var F, cur := Free(), Block(ix, n);
      InHandFits(units, F, live, cur);
      HeadIsNotFree(units, F, live, cur);
      Link(ix, n);
      assert live == (live - {cur}) + {cur};
      GiveBack(units, F, live - {cur}, cur);
      live := live - {cur};
    }

    /** Releases the block at `sp` that was allocated for `pages` descriptors. */
    method AreaFree(sp: nat, pages: nat)
      requires Valid() && 1 <= pages <= MAX_PAGES
      requires AreaSize(pages) >= 0 && Block(sp, AreaSize(pages)) in live
      modifies this`live, rings`lists, rings.forw, rings.back, budfree, kval
      ensures Valid() && live == old(live) - {Block(sp, AreaSize(pages))}
    {
      hide Good, AreaSize, NoFreeBuddy, Rep;
      var ix: nat, n: nat := sp, AreaSize(pages);
      var merged;
      merged, ix := Coalesce(ix, n);
      InHandFits(units, Free(), live, Block(ix, n + if merged then 1 else 0));
      while merged
        invariant Valid() && n + (if merged then 1 else 0) < LEVELS
        invariant Block(ix, n + if merged then 1 else 0) in live
        invariant live - {Block(ix, n + if merged then 1 else 0)} == old(live) - {Block(sp, AreaSize(pages))}
        invariant !merged ==> NoFreeBuddy(Free(), Block(ix, n))
        decreases LEVELS - n, merged
      {
        n := n + 1;
        if n >= LEVELS {
          break;
        }
        merged, ix := Coalesce(ix, n);
        InHandFits(units, Free(), live, Block(ix, n + if merged then 1 else 0));
      }
      Release(ix, n);
    }

    /** Removes the first block of list `k`; it is live from now on. */
    method TakeFirst(k: nat) returns (sp: nat)
      requires Valid() && k < LEVELS && rings.lists[k] != []
      modifies this`live, rings`lists, rings.forw, rings.back, budfree
      ensures Valid() && Block(sp, k) in old(Free()) && Block(sp, k) !in old(live) && sp == old(rings.lists)[k][0]
      ensures live == old(live) + {Block(sp, k)}
    {
      hide Good, Marks, AllLinked;
      ghost var F := Free();
      assert rings.lists[k][0] >= 0;
      var first := rings.First(k);
      sp := first;
      FreeMeaning(rings.lists, sp, k);
      Unlink(sp, k);
      TakeGood(units, F, live, Block(sp, k));
      live := live + {Block(sp, k)};
    }

    /** Frees the upper half, at `sp`, of the block of level `p + 1` in hand. */
    method Uncouple(rsp: nat, p: nat, sp: nat)
      requires Valid() && Block(rsp, p + 1) in live && sp == rsp + Pow2(p)
      modifies this`live, rings`lists, rings.forw, rings.back, budfree, kval
      ensures Valid() && Block(rsp, p) in live && live - {Block(rsp, p)} == old(live) - {Block(rsp, p + 1)}
    {
      hide Good, Marks, FreeOf, Members, AllLinked;
      ghost var F, A, b := Free(), live, Block(rsp, p + 1);
      InHandFits(units, F, A, b);
      SplitGood(units, F, A, b);
      Link(sp, p);
      live := A - {b} + {Block(rsp, p)};
    }

    /** Allocates a block for `pages` descriptors, at the start of the first free block of the
        least level that has one and is large enough.  It fails exactly when no aligned run of
        its size is wholly free. */
    method AreaAlloc(pages: nat) returns (ok: bool, rsp: nat)
      requires Valid() && 1 <= pages <= MAX_PAGES && 0 <= AreaSize(pages) < LEVELS
      modifies this`live, rings`lists, rings.forw, rings.back, budfree, kval
      ensures Valid()
      ensures ok ==> Block(rsp, AreaSize(pages)) !in old(live) && live == old(live) + {Block(rsp, AreaSize(pages))}
      ensures !ok ==> live == old(live) && rings.lists == old(rings.lists)
      ensures ok <==> exists a: nat :: FreeRun(old(Free()), a, AreaSize(pages))
      ensures ok ==> FromLeast(old(rings.lists), AreaSize(pages), rsp)
    {
      hide Good, FreeRun, AreaSize, AllLinked, FromLeast;
      var q: nat := AreaSize(pages);
      var p := q;
      var head := rings.First(p);
      while head == TABLE + p
        invariant Valid() && live == old(live) && rings.lists == old(rings.lists)
        invariant q <= p < LEVELS && (head == TABLE + p <==> rings.lists[p] == [])
        invariant forall k :: q <= k < p ==> rings.lists[k] == []
        decreases LEVELS - p
      {
        if p >= LEVELS - 1 {
          NoRunWithoutBlocks(units, rings.lists, live, q);
          return false, 0;
        }
        p := p + 1;
        head := rings.First(p);
      }
      ghost var F := Free();
      rsp := TakeFirst(p);
      BlockHasRun(F, Block(rsp, p), q);
      FirstOfLeast(old(rings.lists), q, p, rsp);
      var size := Shift(p);
      var sp := rsp + size;
      while p != q
        invariant Valid() && q <= p < LEVELS && size == Pow2(p) && sp == rsp + size
        invariant Block(rsp, p) in live && live - {Block(rsp, p)} == old(live) && FromLeast(old(rings.lists), q, rsp)
      {
        p := p - 1;
        size := size / 2;
        sp := sp - size;
        Uncouple(rsp, p, sp);
      }
      ok := true;
    }
  }

  /** Whatever has been allocated and freed before: freeing what was just allocated restores
      the very set of free blocks, in whatever order they were split. */
  method AllocThenFree(area: Area, pages: nat) returns (ok: bool, rsp: nat)
    requires area.Valid() && 1 <= pages <= MAX_PAGES && 0 <= AreaSize(pages) < LEVELS
    modifies area`live, area.rings`lists, area.rings.forw, area.rings.back, area.budfree, area.kval
    ensures area.Valid() && area.live == old(area.live) && area.Free() == old(area.Free())
    ensures ok <==> exists a: nat :: FreeRun(old(area.Free()), a, AreaSize(pages))
  {
    hide Good, FreeRun, AreaSize;
    ghost var F := area.Free();
    ok, rsp := area.AreaAlloc(pages);
    if ok {
      area.AreaFree(rsp, pages);
    }
    FreeBlocksAreUnique(area.units, F, area.Free(), area.live);
  }

  /** `1 << k`. */
  method Shift(k: nat) returns (r: nat)
    ensures r == Pow2(k)
  {
    r := 1;
    for i := 0 to k
      invariant r == Pow2(i)
    {
      r := 2 * r;
    }
  }

  ghost function PlaceOf(L: seq<seq<int>>, p: int, k: nat): (i: int)
    requires p >= 0 && Block(p, k) in FreeOf(L)
    ensures k < |L| && 0 <= i < |L[k]| && L[k][i] == p
  {
    FreeMeaning(L, p, k);
    var i :| 0 <= i < |L[k]| && L[k][i] == p;
    i
  }

  lemma NotListed(L: seq<seq<int>>, p: nat)
    requires forall m: nat :: Block(p, m) !in FreeOf(L)
    ensures forall m :: 0 <= m < |L| ==> p !in L[m]
  {
    forall m | 0 <= m < |L| ensures p !in L[m] {
      FreeMeaning(L, p, m);
    }
  }

  lemma MarksRemoved(F: set<Block>, bits: seq<bool>, levels: seq<int>, b: Block)
    requires Marks(F, bits, levels) && b in F
    ensures b.at < TABLE && Marks(F - {b}, bits[b.at := false], levels)
  {
    forall c | c in F - {b} ensures c.at != b.at {
      assert levels[c.at] == c.k && levels[b.at] == b.k;
    }
  }

  lemma MarksAdded(F: set<Block>, bits: seq<bool>, levels: seq<int>, b: Block)
    requires Marks(F, bits, levels) && b.at < TABLE && forall m: nat :: Block(b.at, m) !in F
    ensures Marks(F + {b}, bits[b.at := true], levels[b.at := b.k])
  {
    forall c | c in F ensures c.at != b.at {
      assert Block(b.at, c.k) !in F;
    }
  }

  lemma DroppedFree(L: seq<seq<int>>, k: nat, i: int)
    requires Members(L) && k < |L| && 0 <= i < |L[k]|
    ensures L[k][i] >= 0 && FreeOf(Dropped(L, k, i)) == FreeOf(L) - {Block(L[k][i], k)}
  {
    var M := Dropped(L, k, i);
    forall b ensures b in FreeOf(M) <==> b in FreeOf(L) - {Block(L[k][i], k)} {
      FreeMeaning(M, b.at, b.k);
      FreeMeaning(L, b.at, b.k);
      if b.k == k { DropMembers(L, k, i, b.at); }
    }
  }

  lemma DropMembers(L: seq<seq<int>>, k: nat, i: int, x: int)
    requires Members(L) && k < |L| && 0 <= i < |L[k]|
    ensures x in Chains.Cut(L[k], i) <==> x in L[k] && x != L[k][i]
  {
    var R, S := L[k], Chains.Cut(L[k], i);
    if x in R && x != R[i] {
      var j :| 0 <= j < |R| && R[j] == x;
      assert S[if j < i then j else j - 1] == x;
    }
    if x in S {
      var j :| 0 <= j < |S| && S[j] == x;
      assert L[k][if j < i then j else j + 1] == x && (if j < i then j else j + 1) != i;
    }
  }

  lemma AppendedFree(L: seq<seq<int>>, k: nat, p: nat)
    requires k < |L|
    ensures FreeOf(Appended(L, k, p)) == FreeOf(L) + {Block(p, k)}
  {
    var M := Appended(L, k, p);
    forall b ensures b in FreeOf(M) <==> b in FreeOf(L) + {Block(p, k)} {
      FreeMeaning(M, b.at, b.k);
      FreeMeaning(L, b.at, b.k);
    }
  }

  // ----- lemmas for the methods -----

  function UnitsFrom(i: nat, n: nat): set<Block> {
    set p: nat | i <= p < n :: Block(p, 0)
  }

  lemma FirstUnit(i: nat, n: nat)
    ensures i < n ==> Block(i, 0) in UnitsFrom(i, n) && UnitsFrom(i, n) - {Block(i, 0)} == UnitsFrom(i + 1, n)
    ensures i >= n ==> UnitsFrom(i, n) == {}
  {
  }

  lemma LevelOfUnit()
    ensures AreaSize(4) == 0
  {
  }

  lemma NothingFree(L: seq<seq<int>>)
    requires forall k :: 0 <= k < |L| ==> L[k] == []
    ensures FreeOf(L) == {}
  {
  }

  lemma AllUnitsLive(n: nat)
    ensures Good(n, {}, UnitsFrom(0, n))
  {
    forall u | 0 <= u < n ensures InSome({} + UnitsFrom(0, n), u) {
      assert Block(u, 0) in {} + UnitsFrom(0, n) && Covers(Block(u, 0), u);
    }
  }

  /** The table of lists is long enough exactly when the arena has fewer units than it has
      nodes: one more, which areainit lets pass, and the arena coalesces into a single block
      of a level that has no list. */
  lemma ArenaFitsTableIff(n: nat)
    requires n <= TABLE
    ensures n < TABLE <==> forall F, A, b: Block :: Good(n, F, A) && b in F ==> b.k < LEVELS
  {
    if n < TABLE {
      forall F, A, b: Block | Good(n, F, A) && b in F ensures b.k < LEVELS {
        assert b in F + A;
        if b.k >= LEVELS {
          Pow2Monotone(LEVELS, b.k);
          PowersOfTwo();
        }
      }
    } else {
      var b := Block(0, LEVELS);
      WholeArena();
      assert Good(n, {b}, {}) && b in {b};
    }
  }

  lemma WholeArena()
    ensures Good(TABLE, {Block(0, LEVELS)}, {})
  {
    var b := Block(0, LEVELS);
    PowersOfTwo();
    UpOfStart(0, LEVELS);
    ZeroDown(LEVELS);
    forall u | 0 <= u < TABLE ensures InSome({b} + {}, u) {
      UpIsRange(u, LEVELS, 0);
      assert b in {b} + {} && Covers(b, u);
    }
    BuddyIsSibling(0, LEVELS);
  }

  lemma {:induction false} ZeroDown(k: nat)
    ensures Down(0, k) == 0
  {
    if k > 0 { ZeroDown(k - 1); }
  }

  /** A block in its place in a small arena has a level below NBUDDY, and its buddy has
      a bit in the map. */
  lemma InHandFits(n: nat, F: set<Block>, A: set<Block>, b: Block)
    requires n < TABLE && Good(n, F, A) && b in A
    ensures b.at < TABLE && b.k < LEVELS && Aligned(b.at, b.k) && 0 <= FlipBit(b.at, b.k) < TABLE
    ensures Buddy(b) == Block(FlipBit(b.at, b.k), b.k)
    ensures Parent(b) == Block(if FlipBit(b.at, b.k) < b.at then FlipBit(b.at, b.k) else b.at, b.k + 1)
  {
    assert b in F + A;
    BuddyIsSibling(b.at, b.k);
    if b.k >= LEVELS {
      Pow2Monotone(LEVELS, b.k);
      PowersOfTwo();
    }
  }

  lemma BuddyIsMarked(F: set<Block>, bits: seq<bool>, levels: seq<int>, p: nat, k: nat)
    requires Marks(F, bits, levels) && p < TABLE
    ensures bits[p] && levels[p] == k <==> Block(p, k) in F
  {
  }

  /** One turn of the coalescing loop. */
  lemma MergeInHand(n: nat, F: set<Block>, F': set<Block>, A: set<Block>, b: Block)
    requires Good(n, F, A) && b in A && Aligned(b.at, b.k) && Buddy(b) in F && F' == F - {Buddy(b)}
    ensures Good(n, F', A - {b} + {Parent(b)}) && Parent(b) !in A - {b}
  {
    MergeTiles(n, F + A, b);
    assert F' + (A - {b} + {Parent(b)}) == F + A - {b, Buddy(b)} + {Parent(b)};
  }

  ghost predicate NoFreeBuddy(F: set<Block>, b: Block) {
    Aligned(b.at, b.k) ==> Buddy(b) !in F
  }

  lemma NothingToMerge(F: set<Block>, b: Block)
    requires Aligned(b.at, b.k) && Buddy(b) !in F
    ensures NoFreeBuddy(F, b)
  {
  }

  /** No free block starts where a live block starts. */
  lemma HeadIsNotFree(n: nat, F: set<Block>, A: set<Block>, b: Block)
    requires Good(n, F, A) && b in A
    ensures forall k: nat :: Block(b.at, k) !in F
  {
    forall k: nat ensures Block(b.at, k) !in F {
      SomeUnit(b);
      SomeUnit(Block(b.at, k));
      assert b in F + A;
    }
  }

  /** A live block whose buddy is not free becomes free. */
  lemma GiveBack(n: nat, F: set<Block>, A: set<Block>, b: Block)
    requires b !in A && Good(n, F, A + {b}) && Aligned(b.at, b.k) && NoFreeBuddy(F, b)
    ensures Good(n, F + {b}, A)
  {
    assert (F + {b}) + A == F + (A + {b});
    AddCoalesced(F, b);
  }

  lemma AddCoalesced(F: set<Block>, b: Block)
    requires Coalesced(F) && Aligned(b.at, b.k) && Buddy(b) !in F
    ensures Coalesced(F + {b})
  {
    ParentHalves(b, 0);
    hide Aligned, Parent, Covers;
    forall c | c in F + {b} && Aligned(c.at, c.k) ensures Buddy(c) !in F + {b} {
      ParentHalves(c, 0);
    }
  }

  lemma TakeGood(n: nat, F: set<Block>, A: set<Block>, b: Block)
    requires Good(n, F, A) && b in F
    ensures b !in A && Good(n, F - {b}, A + {b})
  {
    assert (F - {b}) + (A + {b}) == F + A;
  }

  lemma SplitGood(n: nat, F: set<Block>, A: set<Block>, b: Block)
    requires n < TABLE && Good(n, F, A) && b in A && b.k > 0
    ensures Good(n, F + {High(b)}, A - {b} + {Low(b)}) && Low(b) !in A
    ensures High(b).at < TABLE && forall m: nat :: Block(High(b).at, m) !in F
  {
    hide Tiles, Fits, Aligned, Covers, Coalesced, Buddy;
    var l, h := Low(b), High(b);
    InPlace(n, F, A, b);
    HalvesOf(n, b);
    SplitTiles(n, F + A, b);
    assert (F + {h}) + (A - {b} + {l}) == F + A - {b} + {l, h};
    forall m: nat ensures Block(h.at, m) !in F {
      UpperHalfIsNew(n, F, A, b, m);
    }
    HeadIsNotFree(n, F, A, b);
    InPlace(n, {}, {h}, h);
    AddCoalesced(F, h);
  }

  lemma InPlace(n: nat, F: set<Block>, A: set<Block>, b: Block)
    requires b in A && (Good(n, F, A) || Fits(n, b))
    ensures Fits(n, b) && Aligned(b.at, b.k)
  {
    assert b in F + A;
  }

  lemma UpperHalfIsNew(n: nat, F: set<Block>, A: set<Block>, b: Block, m: nat)
    requires Good(n, F, A) && b in A && b.k > 0
    ensures Block(High(b).at, m) !in F
  {
    var l, h := Low(b), High(b);
    assert b in F + A;
    HalvesOf(n, b);
    ParentHalves(l, h.at);
    SomeUnit(Block(h.at, m));
    assert Covers(b, h.at);
  }

  /** With all lists of the size and above empty no run of that size is free. */
  lemma NoRunWithoutBlocks(n: nat, L: seq<seq<int>>, A: set<Block>, q: nat)
    requires |L| == LEVELS && n < TABLE && Good(n, FreeOf(L), A) && forall k :: q <= k < LEVELS ==> L[k] == []
    ensures forall a: nat :: !FreeRun(FreeOf(L), a, q)
  {
    forall a: nat ensures !FreeRun(FreeOf(L), a, q) {
      if FreeRun(FreeOf(L), a, q) {
        var b := FreeRunInOneBlock(n, FreeOf(L), A, a, q);
        FreeMeaning(L, b.at, b.k);
      }
    }
  }

  /** A free block holds a free run of each smaller size. */
  lemma BlockHasRun(F: set<Block>, b: Block, q: nat)
    requires b in F && q <= b.k
    ensures FreeRun(F, b.at, q)
  {
    forall u: nat | Up(u, q) == Up(b.at, q) ensures InSome(F, u) {
      UpMonotone(u, b.at, q, b.k);
      assert Covers(b, u);
    }
  }
}
