/** Buddy blocks as sets. */
module BuddySpec {
  // Which sets of free and live blocks an arena may have, what merging and splitting do to
  // them, and why the free blocks are determined by the free units alone.

  import opened BuddyMath

  /** The 2^k units from unit `at` on. */
  datatype Block = Block(at: nat, k: nat)

  predicate Covers(b: Block, u: nat) {
    Up(u, b.k) == Up(b.at, b.k)
  }

  /** A block in its place: aligned and inside an arena of `n` units. */
  predicate Fits(n: nat, b: Block) {
    Aligned(b.at, b.k) && b.at + Pow2(b.k) <= n
  }

  /** The blocks of `S` cover each unit of the arena exactly once. */
  ghost predicate Tiles(n: nat, S: set<Block>) {
    && (forall b :: b in S ==> Fits(n, b))
    && (forall b, c, u {:trigger Covers(b, u), Covers(c, u)} :: b in S && c in S && Covers(b, u) && Covers(c, u) ==>
        b == c)
    && (forall u :: 0 <= u < n ==> InSome(S, u))
  }

  ghost predicate InSome(S: set<Block>, u: nat) {
    exists b :: b in S && Covers(b, u)
  }

  function Buddy(b: Block): Block
    requires Aligned(b.at, b.k)
  {
    BuddyIsSibling(b.at, b.k);
    Block(FlipBit(b.at, b.k), b.k)
  }

  /** The block that a block and its buddy make up. */
  function Parent(b: Block): Block
    requires Aligned(b.at, b.k)
  {
    Block(if Buddy(b).at < b.at then Buddy(b).at else b.at, b.k + 1)
  }

  /** No free block has a free buddy of its own level: nothing is left to coalesce. */
  ghost predicate Coalesced(F: set<Block>) {
    forall b :: b in F && Aligned(b.at, b.k) ==> Buddy(b) !in F
  }

  /** Free blocks `F` and live blocks `A` of an arena. */
  ghost predicate Good(n: nat, F: set<Block>, A: set<Block>) {
    F !! A && Tiles(n, F + A) && Coalesced(F)
  }

  // ----- merging and splitting -----

  lemma SameStart(b: Block, c: Block, u: nat)
    requires Aligned(b.at, b.k) && Aligned(c.at, c.k) && b.k == c.k && Covers(b, u) && Covers(c, u)
    ensures b == c
  {
  }

  /** Of two blocks that share a unit the smaller lies inside the larger. */
  lemma Nested(b: Block, c: Block, u: nat, v: nat)
    requires b.k <= c.k && Covers(b, u) && Covers(c, u) && Covers(b, v)
    ensures Covers(c, v)
  {
    UpMonotone(u, v, b.k, c.k);
  }

  lemma FitsIsRange(n: nat, b: Block, u: nat)
    requires Fits(n, b)
    ensures Covers(b, u) <==> b.at <= u < b.at + Pow2(b.k)
  {
    UpIsRange(u, b.k, Up(b.at, b.k));
  }

  lemma ParentHalves(b: Block, u: nat)
    requires Aligned(b.at, b.k)
    ensures var p := Parent(b);
            && Aligned(p.at, p.k)
            && (Covers(p, u) <==> Covers(b, u) || Covers(Buddy(b), u))
            && Buddy(b) != b && Aligned(Buddy(b).at, b.k) && Buddy(Buddy(b)) == b && Parent(Buddy(b)) == p
            && b.at + Buddy(b).at == 2 * p.at + Pow2(b.k)
  {
    BuddyIsSibling(b.at, b.k);
    BuddyOfBuddy(b.at, b.k);
    EvenStartsParent(if Up(b.at, b.k) % 2 == 0 then b.at else Buddy(b).at, b.k);
    UpHalves(u, b.k);
    UpHalves(b.at, b.k);
  }

  ghost predicate Disjoint(S: set<Block>) {
    forall b, c, u {:trigger Covers(b, u), Covers(c, u)} :: b in S && c in S && Covers(b, u) && Covers(c, u) ==> b == c
  }

  /** Blocks may be exchanged for others that cover the same units. */
  lemma ExchangeTiles(n: nat, S: set<Block>, R: set<Block>, N: set<Block>)
    requires Tiles(n, S) && R <= S && Disjoint(N) && (forall b :: b in N ==> Fits(n, b))
    requires forall u :: InSome(R, u) <==> InSome(N, u)
    ensures Tiles(n, S - R + N) && (S - R) !! N
  {
    hide Covers, Fits;
    var T := S - R + N;
    forall b, u | b in S - R && Covers(b, u) ensures !InSome(N, u) {
      forall r | r in R ensures !Covers(r, u) {
        assert r in S && b in S;
      }
    }
    forall b, c, u | b in T && c in T && Covers(b, u) && Covers(c, u) ensures b == c {
      assert b in N ==> InSome(N, u);
      assert c in N ==> InSome(N, u);
    }
    forall u | 0 <= u < n ensures InSome(T, u) {
      assert InSome(S, u);
      var x :| x in S && Covers(x, u);
      if x in R {
        assert InSome(R, u);
        var y :| y in N && Covers(y, u);
        assert y in T;
      } else {
        assert x in T;
      }
    }
    forall b | b in N ensures b !in S - R {
      SomeUnit(b);
      assert InSome(N, b.at);
    }
  }

  lemma SomeUnit(b: Block)
    ensures Covers(b, b.at)
  {
  }

  lemma PairCovers(b: Block, u: nat)
    requires Aligned(b.at, b.k)
    ensures InSome({Parent(b)}, u) <==> InSome({b, Buddy(b)}, u)
  {
    ParentHalves(b, u);
    hide Covers, Parent, Buddy;
    var S := {b, Buddy(b)};
    assert b in S && Buddy(b) in S && Parent(b) in {Parent(b)};
  }

  lemma MergeTiles(n: nat, S: set<Block>, b: Block)
    requires Tiles(n, S) && b in S && Buddy(b) in S
    ensures Tiles(n, S - {b, Buddy(b)} + {Parent(b)}) && Parent(b) !in S - {b, Buddy(b)}
  {
    ParentHalves(b, 0);
    forall u ensures InSome({b, Buddy(b)}, u) <==> InSome({Parent(b)}, u) {
      PairCovers(b, u);
    }
    ExchangeTiles(n, S, {b, Buddy(b)}, {Parent(b)});
  }

  /** The halves of a block of positive level. */
  function Low(b: Block): Block
    requires b.k > 0
  {
    Block(b.at, b.k - 1)
  }

  function High(b: Block): Block
    requires b.k > 0
  {
    Block(b.at + Pow2(b.k - 1), b.k - 1)
  }

  lemma HalvesOf(n: nat, b: Block)
    requires b.k > 0 && Fits(n, b)
    ensures Fits(n, Low(b)) && Fits(n, High(b)) && High(b).at < n
    ensures Buddy(Low(b)) == High(b) && Buddy(High(b)) == Low(b) && Parent(Low(b)) == b
  {
    StartOfHalves(b.at, b.k - 1);
    BuddyIsSibling(b.at, b.k - 1);
    BuddyOfBuddy(b.at, b.k - 1);
  }

  lemma SplitTiles(n: nat, S: set<Block>, b: Block)
    requires Tiles(n, S) && b in S && b.k > 0
    ensures Tiles(n, S - {b} + {Low(b), High(b)}) && Low(b) !in S && High(b) !in S
  {
    var l, h := Low(b), High(b);
    HalvesOf(n, b);
    SiblingsApart(l);
    forall u ensures InSome({b}, u) <==> InSome({l, h}, u) {
      PairCovers(l, u);
    }
    ExchangeTiles(n, S, {b}, {l, h});
  }

  lemma SiblingsApart(b: Block)
    requires Aligned(b.at, b.k)
    ensures forall u :: !(Covers(b, u) && Covers(Buddy(b), u))
  {
    BuddyIsSibling(b.at, b.k);
  }

  // ----- coalescing makes the free blocks unique -----

  /** Every unit of the aligned run of 2^m units at `a` is free. */
  ghost predicate FreeRun(F: set<Block>, a: nat, m: nat) {
    forall u: nat :: Up(u, m) == Up(a, m) ==> InSome(F, u)
  }

  /** In a free run no free block is smaller than the run. */
  lemma {:induction false} NoSmallBlock(n: nat, F: set<Block>, A: set<Block>, a: nat, m: nat, k: nat, b: Block, u: nat)
    requires Good(n, F, A) && FreeRun(F, a, m) && k <= m
    requires b in F && Covers(b, u) && Up(u, m) == Up(a, m)
    ensures b.k >= k
    decreases k
  {
    if k > 0 {
      var j := k - 1;
      NoSmallBlock(n, F, A, a, m, j, b, u);
      if b.k == j {
        var c := Buddy(b);
        ParentHalves(b, b.at);
        ParentHalves(b, c.at);
        UpMonotone(u, b.at, j, m);
        UpMonotone(b.at, c.at, k, m);
        assert InSome(F, c.at);
        var d :| d in F && Covers(d, c.at);
        NoSmallBlock(n, F, A, a, m, j, d, c.at);
        if d.k == j {
          SameStart(d, c, c.at);
        } else {
          UpMonotone(b.at, c.at, k, d.k);
          assert Covers(d, b.at) && Covers(b, b.at);
        }
        assert false;
      }
    }
  }

  /** A wholly free aligned run lies inside one free block at least as large. */
  lemma FreeRunInOneBlock(n: nat, F: set<Block>, A: set<Block>, a: nat, m: nat) returns (b: Block)
    requires Good(n, F, A) && FreeRun(F, a, m)
    ensures b in F && b.k >= m && Covers(b, a)
  {
    assert InSome(F, a);
    b :| b in F && Covers(b, a);
    NoSmallBlock(n, F, A, a, m, m, b, a);
  }

  /** A free block of one arrangement is a free run of any arrangement with the same
      live blocks. */
  lemma BlockIsFreeRun(n: nat, F: set<Block>, G: set<Block>, A: set<Block>, b: Block)
    requires Good(n, F, A) && Good(n, G, A) && b in F
    ensures FreeRun(G, b.at, b.k)
  {
    forall u: nat | Covers(b, u) ensures InSome(G, u) {
      FitsIsRange(n, b, u);
      assert InSome(G + A, u);
      var c :| c in G + A && Covers(c, u);
      assert c in A ==> b == c;
    }
  }

  lemma OneInclusion(n: nat, F: set<Block>, G: set<Block>, A: set<Block>)
    requires Good(n, F, A) && Good(n, G, A)
    ensures F <= G
  {
    forall b | b in F ensures b in G {
      BlockIsFreeRun(n, F, G, A, b);
      var c := FreeRunInOneBlock(n, G, A, b.at, b.k);
      BlockIsFreeRun(n, G, F, A, c);
      var d := FreeRunInOneBlock(n, F, A, c.at, c.k);
      Nested(c, d, c.at, b.at);
      assert Covers(b, b.at) && Covers(d, b.at) && b == d;
      SameStart(b, c, b.at);
    }
  }

  /** The live blocks determine the free blocks: whatever the order of allocations and
      releases, the free blocks are the same set. */
  lemma FreeBlocksAreUnique(n: nat, F: set<Block>, G: set<Block>, A: set<Block>)
    requires Good(n, F, A) && Good(n, G, A)
    ensures F == G
  {
    OneInclusion(n, F, G, A);
    OneInclusion(n, G, F, A);
  }

  /** A free block is a maximal aligned run of free units: the run of the next level
      around it is never wholly free. */
  lemma FreeBlockIsMaximal(n: nat, F: set<Block>, A: set<Block>, b: Block)
    requires Good(n, F, A) && b in F
    ensures FreeRun(F, b.at, b.k) && !FreeRun(F, b.at, b.k + 1)
  {
    BlockIsFreeRun(n, F, F, A, b);
    if FreeRun(F, b.at, b.k + 1) {
      NoSmallBlock(n, F, A, b.at, b.k + 1, b.k + 1, b, b.at);
      assert false;
    }
  }
}
