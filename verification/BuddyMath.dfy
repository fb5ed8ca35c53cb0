/** Arithmetic of the buddy system.  A block of level `k` holds 2^k units; which block
    of that level a unit belongs to is the unit's number shifted right by `k`. */
module BuddyMath {
  function Pow2(k: nat): (r: nat)
    ensures r >= 1
  {
    if k == 0 then 1 else 2 * Pow2(k - 1)
  }

  /** `u >> k`. */
  function Up(u: nat, k: nat): nat {
    if k == 0 then u else Up(u / 2, k - 1)
  }

  /** `q << k`. */
  function Down(q: nat, k: nat): nat {
    if k == 0 then q else 2 * Down(q, k - 1)
  }

  /** `u ^ (1 << k)`: flips bit `k`. */
  function FlipBit(u: nat, k: nat): (r: int)
    ensures r == u + Pow2(k) || r == u - Pow2(k)
  {
    if Up(u, k) % 2 == 0 then u + Pow2(k) else u - Pow2(k)
  }

  /** The low `k` bits of `u` are zero. */
  predicate Aligned(u: nat, k: nat) {
    u == Down(Up(u, k), k)
  }

  /** Shifting by one more is halving. */
  lemma {:induction false} UpHalves(u: nat, k: nat)
    ensures Up(u, k + 1) == Up(u, k) / 2
  {
    if k > 0 { UpHalves(u / 2, k - 1); }
  }

  /** Units of one block stay together at every higher level. */
  lemma {:induction false} UpMonotone(u: nat, v: nat, k: nat, m: nat)
    requires k <= m && Up(u, k) == Up(v, k)
    ensures Up(u, m) == Up(v, m)
    decreases m
  {
    if k < m {
      UpMonotone(u, v, k, m - 1);
      UpHalves(u, m - 1);
      UpHalves(v, m - 1);
    }
  }

  /** Neighbouring starts of level `k` are 2^k apart. */
  lemma {:induction false} DownStep(q: nat, k: nat)
    ensures Down(q + 1, k) == Down(q, k) + Pow2(k)
  {
    if k > 0 { DownStep(q, k - 1); }
  }

  lemma {:induction false} DownDoubles(q: nat, k: nat)
    ensures Down(2 * q, k) == Down(q, k + 1)
  {
    if k > 0 { DownDoubles(q, k - 1); }
  }

  /** The units of block `q` of level `k` are the 2^k numbers from `q << k` on. */
  lemma {:induction false} UpIsRange(u: nat, k: nat, q: nat)
    ensures Up(u, k) == q <==> Down(q, k) <= u < Down(q, k) + Pow2(k)
  {
    if k > 0 { UpIsRange(u / 2, k - 1, q); }
  }

  lemma UpOfStart(q: nat, k: nat)
    ensures Up(Down(q, k), k) == q && Aligned(Down(q, k), k)
  {
    UpIsRange(Down(q, k), k, q);
  }

  /** `q ^ 1`: the other block of a pair. */
  function Sibling(q: nat): nat {
    if q % 2 == 0 then q + 1 else q - 1
  }

  /** The buddy of an aligned unit starts the other block of the pair. */
  lemma BuddyIsSibling(u: nat, k: nat)
    requires Aligned(u, k)
    ensures FlipBit(u, k) == Down(Sibling(Up(u, k)), k)
    ensures FlipBit(u, k) >= 0 && Aligned(FlipBit(u, k), k) && Up(FlipBit(u, k), k) == Sibling(Up(u, k))
  {
    var q := Up(u, k);
    if q % 2 == 0 { DownStep(q, k); } else { DownStep(q - 1, k); }
    UpOfStart(Sibling(q), k);
  }

  lemma BuddyOfBuddy(u: nat, k: nat)
    requires Aligned(u, k) && FlipBit(u, k) >= 0
    ensures FlipBit(FlipBit(u, k), k) == u
  {
    BuddyIsSibling(u, k);
    BuddyIsSibling(FlipBit(u, k), k);
  }

  /** The even one of a pair starts the enclosing block. */
  lemma EvenStartsParent(u: nat, k: nat)
    requires Aligned(u, k) && Up(u, k) % 2 == 0
    ensures Aligned(u, k + 1) && Up(u, k + 1) == Up(u, k) / 2
  {
    DownDoubles(Up(u, k) / 2, k);
    UpOfStart(Up(u, k) / 2, k + 1);
  }

  /** The first half of a block is a block. */
  lemma StartOfHalves(u: nat, k: nat)
    requires Aligned(u, k + 1)
    ensures Aligned(u, k) && Up(u, k) % 2 == 0
  {
    DownDoubles(Up(u, k + 1), k);
    UpOfStart(2 * Up(u, k + 1), k);
  }

  lemma {:induction false} Pow2Monotone(k: nat, m: nat)
    requires k <= m
    ensures Pow2(k) <= Pow2(m)
    decreases m
  {
    if k < m { Pow2Monotone(k, m - 1); }
  }
}
