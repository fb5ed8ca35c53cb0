/** The next lower prime, by trial division up to a square root that is found with
    Newton's method in 32-bit arithmetic.

    Products and quotients have names, `Mul` and `Quot`, so that the proofs use only the
    few laws of arithmetic that they need.  The loop of the square root is followed from
    its first guess to its convergence test, the correction at the end is the one place
    where a product can leave 32 bits, and everything about primes rests on a divisor that
    is at most the root. */
module Primes {
  const WORD: int := 0x1_0000_0000

  // ----- the square root -----

  function Mul(a: int, b: int): int {
    a * b
  }

  function Quot(n: int, g: int): int
    requires g > 0
  {
    n / g
  }

  /** `r` is the least number whose square is at least `n`. */
  ghost predicate IsCeilRoot(r: int, n: int) {
    0 <= r && n <= Mul(r, r) && (r > 0 ==> Mul(r - 1, r - 1) < n)
  }

  /** `s` is the greatest number whose square is at most `n`. */
  ghost predicate IsFloorRoot(s: int, n: int) {
    0 <= s && Mul(s, s) <= n < Mul(s + 1, s + 1)
  }

  // ----- the few facts of arithmetic that are needed -----

  lemma MulGrows(a: int, b: int, c: int)
    requires 0 <= a && b <= c
    ensures Mul(a, b) <= Mul(a, c) && Mul(b, a) <= Mul(c, a)
  {
    assert a * (c - b) >= 0;
  }

  lemma MulNext(a: int, b: int)
    ensures Mul(a, b + 1) == Mul(a, b) + a && Mul(a + 1, b) == Mul(a, b) + b && Mul(a, b) == Mul(b, a)
  {
  }

  lemma MulZero(a: int)
    ensures Mul(a, 0) == 0 == Mul(0, a) && Mul(a, 1) == a == Mul(1, a)
  {
  }

  lemma MulDouble(a: int, b: int)
    ensures Mul(2 * a, 2 * b) == 4 * Mul(a, b)
  {
  }

  /** The mean of two numbers: their product is at most its square. */
  lemma MulMean(a: int, b: int, s: int)
    requires 0 <= a && 0 <= b && a + b <= 2 * s
    ensures Mul(a, b) <= Mul(s, s)
  {
    var x := s - a;
    MulGrows(a, b, s + x);
    Difference(s, x);
  }

  lemma Difference(s: int, x: int)
    ensures Mul(s - x, s + x) <= Mul(s, s)
  {
    assert (s - x) * (s + x) == s * s - x * x;
    assert x * x >= 0;
  }

  lemma QuotBounds(n: int, g: int)
    requires n >= 0 && g >= 1
    ensures Quot(n, g) >= 0 && Mul(g, Quot(n, g)) <= n < Mul(g, Quot(n, g)) + g
  {
    assert n == g * (n / g) + n % g;
  }

  /** A quotient is known by its bounds. */
  lemma QuotIs(n: int, g: int, q: int)
    requires n >= 0 && g >= 1 && Mul(g, q) <= n < Mul(g, q) + g
    ensures Quot(n, g) == q
  {
    hide Mul, Quot;
    QuotBounds(n, g);
    var p := Quot(n, g);
    MulNext(g, p);
    MulNext(g, q);
    if p < q { MulGrows(g, p + 1, q); }
    if q < p { MulGrows(g, q + 1, p); }
  }

  /** The bit that __MOST_BIT_UINT finds: the position of the highest one. */
  function MostBit(n: int): (b: int)
    requires n >= 1
    ensures b >= 0
  {
    if n == 1 then 0 else 1 + MostBit(n / 2)
  }

  function Shift(k: int): (p: int)
    requires k >= 0
    ensures p >= 1
  {
    if k == 0 then 1 else 2 * Shift(k - 1)
  }

  lemma {:induction false} MostBitBounds(n: int)
    requires n >= 1
    ensures Shift(MostBit(n)) <= n < 2 * Shift(MostBit(n))
  {
    if n > 1 { MostBitBounds(n / 2); }
  }

  lemma {:induction false} ShiftHalf(k: int)
    requires k >= 0
    ensures Mul(Shift(k / 2), Shift(k / 2)) <= Shift(k) <= 2 * Mul(Shift(k / 2), Shift(k / 2))
  {
    hide Mul;
    if k >= 2 {
      ShiftHalf(k - 2);
      assert k / 2 == (k - 2) / 2 + 1;
      MulDouble(Shift((k - 2) / 2), Shift((k - 2) / 2));
      assert Shift(k) == 2 * Shift(k - 1) == 4 * Shift(k - 2);
    } else {
      MulZero(1);
    }
  }

  lemma {:induction false} ShiftGrows(j: int, k: int)
    requires 0 <= j <= k
    ensures Shift(j) <= Shift(k)
    decreases k
  {
    if j < k { ShiftGrows(j, k - 1); }
  }

  lemma Shifts()
    ensures Shift(32) == WORD && Shift(15) == 0x8000
  {
    assert Shift(15) == 0x8000 && Shift(16) == 0x1_0000;
    assert Shift(24) == 0x100_0000;
  }

  /** The first guess is at most the root, and within a factor of two of it. */
  lemma FirstGuess(n: int, g: int)
    requires 2 <= n < WORD && g == Shift(MostBit(n) / 2)
    ensures 1 <= g <= 0x8000 && Mul(g, g) <= n < 4 * Mul(g, g)
  {
    hide Mul, Shift;
    MostBitBounds(n);
    ShiftHalf(MostBit(n));
    Shifts();
    var k := MostBit(n);
    if k >= 32 { ShiftGrows(32, k); }
    ShiftGrows(k / 2, 15);
  }

  // ----- steps of Newton's method -----

  function Step(n: int, g: int): int
    requires g > 0
  {
    (Quot(n, g) + g) / 2
  }

  /** A step of Newton's method does not fall below the root. */
  lemma StepAbove(n: int, g: int, s: int)
    requires n >= 1 && g >= 1 && IsFloorRoot(s, n)
    ensures Step(n, g) >= s
  {
    hide Mul, Quot;
    var q := Quot(n, g);
    QuotBounds(n, g);
    MulNext(g, q);
    if q + g < 2 * s {
      MulMean(g, q + 1, s);
    }
  }

  /** Above the root the distance of the guess and the quotient at least halves. */
  lemma GapHalves(n: int, g: int, s: int)
    requires n >= 1 && IsFloorRoot(s, n) && 0 < s < g
    ensures var g' := Step(n, g); Quot(n, g) < g && s <= g' < g && 2 * (g' - Quot(n, g')) <= g - Quot(n, g)
  {
    hide Mul, Quot;
    var q := Quot(n, g);
    QuotBounds(n, g);
    if q >= g {
      MulGrows(g, g, q);
      MulGrows(g, s + 1, g);
      MulGrows(s + 1, s + 1, g);
    }
    StepAbove(n, g, s);
    var g' := Step(n, g);
    var q' := Quot(n, g');
    QuotBounds(n, g');
    MulNext(g', q');
    if q' < q {
      MulGrows(g', q' + 1, q);
      MulGrows(q, g', g);
    }
  }

  /** At the root the loop is at most one step from its end. */
  lemma AtRoot(n: int, s: int)
    requires n >= 1 && IsFloorRoot(s, n)
    ensures s >= 1 && s <= Quot(n, s) <= s + 2
    ensures Quot(n, s) == s + 2 ==> Step(n, s) == s + 1 && Quot(n, s + 1) == s
  {
    hide Mul, Quot;
    MulZero(1);
    MulNext(s, s);
    MulNext(s, s + 1);
    MulNext(s, s + 2);
    MulNext(s + 1, s);
    var q := Quot(n, s);
    QuotBounds(n, s);
    if q < s {
      MulNext(s, q);
      MulGrows(s, q + 1, s);
    }
    if q > s + 2 { MulGrows(s, s + 3, q); }
    if q == s + 2 { QuotIs(n, s + 1, s); }
  }

  /** How far guess and quotient can be apart after `k` steps. */
  function Bound(k: int): int {
    if k >= 18 then 1 else Shift(if k < 0 then 18 else 18 - k)
  }

  /** Where the guess is after `k` steps. */
  ghost predicate Near(n: int, s: int, g: int, k: int) {
    && g >= 1 && k >= 0
    && if k == 0 then g <= 0x8000 && g <= s && n < 4 * Mul(g, g)
       else (g == s && k <= 18) || (s < g && g - Quot(n, g) <= Bound(k) && k <= 19)
  }

  lemma {:induction false} FloorRootExists(n: int) returns (s: int)
    requires n >= 0
    ensures IsFloorRoot(s, n)
  {
    if n == 0 {
      s := 0;
    } else {
      s := FloorRootExists(n - 1);
      if Mul(s + 1, s + 1) <= n { s := s + 1; }
    }
  }

  /** The first step, from a guess below the root. */
  lemma FirstStep(n: int, s: int, g: int)
    requires n >= 1 && IsFloorRoot(s, n) && Near(n, s, g, 0) && g < s
    ensures Near(n, s, Step(n, g), 1)
  {
    hide Mul, Quot;
    StepAbove(n, g, s);
    var q := Quot(n, g);
    QuotBounds(n, g);
    if q >= 4 * g {
      MulGrows(g, 4 * g, q);
      Times4(g);
    }
    QuotBounds(n, Step(n, g));
    Shifts17();
  }

  lemma Times4(g: int)
    ensures Mul(g, 4 * g) == 4 * Mul(g, g)
  {
  }

  lemma Shifts17()
    ensures Bound(1) == 0x2_0000
  {
    assert Shift(7) == 0x80 && Shift(17) == 0x2_0000;
  }

  /** A turn of the loop that does not end it. */
  lemma NextNear(n: int, s: int, g: int, k: int)
    requires n >= 1 && IsFloorRoot(s, n) && Near(n, s, g, k) && (Quot(n, g) > g + 1 || g > Quot(n, g) + 1)
    ensures Near(n, s, Step(n, g), k + 1)
  {
    hide Mul, Quot, Step;
    AtRoot(n, s);
    if g == s {
      StepIs(n, s);
    } else if k == 0 {
      FirstStep(n, s, g);
    } else {
      GapHalves(n, g, s);
    }
  }

  lemma StepIs(n: int, g: int)
    requires g > 0
    ensures Step(n, g) == (Quot(n, g) + g) / 2
  {
  }

  lemma FirstNear(n: int, s: int, g: int)
    requires 2 <= n < WORD && g == Shift(MostBit(n) / 2) && IsFloorRoot(s, n)
    ensures Near(n, s, g, 0)
  {
    hide Mul, Quot;
    FirstGuess(n, g);
    if g > s {
      MulGrows(g, s + 1, g);
      MulGrows(s + 1, s + 1, g);
    }
  }

  const LASTEXACT: int := 0xffff_0000

  /** What the loop leaves in `ret`. */
  ghost predicate AtEnd(n: int, ret: int) {
    ret >= 1 && if Mul(ret, ret) < n then n < Mul(ret, ret) + ret else Mul(ret, ret - 1) <= n
  }

  lemma LoopEnds(n: int, g: int)
    requires n >= 1 && g >= 1 && -1 <= g - Quot(n, g) <= 1
    ensures AtEnd(n, if g >= Quot(n, g) then g else Quot(n, g))
  {
    hide Mul, Quot;
    var q := Quot(n, g);
    QuotBounds(n, g);
    MulNext(g, g - 1);
    MulNext(g, g);
    MulNext(g + 1, g);
    MulZero(g);
  }

  /** The correction at the end, with a 32-bit product. */
  lemma Corrected(n: int, ret: int)
    requires 2 <= n < WORD && AtEnd(n, ret)
    ensures ret <= 0x1_0000
    ensures var r := if Mul(ret, ret) % WORD < n then ret + 1 else ret;
            if n < LASTEXACT then IsCeilRoot(r, n) else r == 0x1_0001
  {
    hide Mul;
    var m := Mul(ret, ret);
    MulNext(ret, ret);
    MulNext(ret + 1, ret);
    MulNext(ret, ret - 1);
    MulNext(ret - 1, ret - 1);
    SixteenBits();
    MulZero(0);
    MulZero(1);
    MulZero(ret);
    MulGrows(ret, 0, ret);
    if ret >= 0x1_0001 { MulGrows(0x1_0000, 0x1_0001, ret); MulGrows(ret, 0x1_0000, ret - 1); }
    if ret <= 0xffff { MulGrows(ret, ret, 0xffff); MulGrows(0xffff, ret, 0xffff); }
  }

  lemma SixteenBits()
    ensures Mul(0x1_0000, 0x1_0000) == WORD && Mul(0x1_0000, 0xffff) == LASTEXACT
              && Mul(0xffff, 0xffff) + 0xffff == LASTEXACT
    ensures Mul(0x1_0000, 0x1_0001) == WORD + 0x1_0000
  {
  }

  /** isqrt: the loop always ends by its convergence test, and the result is the square
      root rounded up unless the 32-bit square of the candidate wraps around, which is
      so from 0xffff0000 on. */
  method Isqrt(num: int) returns (ret: int)
    requires 0 <= num < WORD
    ensures if num < LASTEXACT then IsCeilRoot(ret, num) else ret == 0x1_0001
  {
    hide Quot, Near, AtEnd, IsFloorRoot;
    if num <= 1 {
      return num;
    }
    ghost var s := FloorRootExists(num);
    var guess := Shift(MostBit(num) / 2);
    FirstNear(num, s, guess);
    var loopct := 0;
    ret := 0;
    while loopct < 32
      invariant 0 <= loopct <= 19 && guess >= 1 && Near(num, s, guess, loopct)
    {
      var guess2 := Quot(num, guess);
      if guess >= guess2 {
        ret := guess;
        if guess - guess2 <= 1 {
          LoopEnds(num, guess);
          break;
        }
      } else {
        ret := guess2;
        if guess2 - guess <= 1 {
          LoopEnds(num, guess);
          break;
        }
      }
      NextNear(num, s, guess, loopct);
      StepIs(num, guess);
      guess := (guess2 + guess) / 2;
      loopct := loopct + 1;
      NearBounds(num, s, guess, loopct);
    }
    Corrected(num, ret);
    if Mul(ret, ret) % WORD < num {
      ret := ret + 1;
    }
  }

  lemma NearBounds(n: int, s: int, g: int, k: int)
    requires Near(n, s, g, k)
    ensures g >= 1 && k <= 19
  {
  }

  /** So the result is right exactly below 0xffff0000. */
  lemma RootIsExactIff(num: int, ret: int)
    requires 0 <= num < WORD && if num < LASTEXACT then IsCeilRoot(ret, num) else ret == 0x1_0001
    ensures IsCeilRoot(ret, num) <==> num < LASTEXACT
    ensures num <= Mul(ret, ret) && (num >= 3 ==> 2 <= ret < num)
  {
    SixteenBits();
    if num >= 3 && ret >= num && num < LASTEXACT {
      MulGrows(ret - 1, num - 1, ret - 1);
      MulGrows(num - 1, 2, ret - 1);
      Double(num - 1);
    }
    if ret <= 1 && num < LASTEXACT { MulZero(ret); }
  }

  lemma Double(a: int)
    ensures Mul(a, 2) == 2 * a
  {
  }

  // ----- primes -----

  predicate Divides(d: int, n: int)
    requires d > 0
  {
    n % d == 0
  }

  ghost predicate Prime(n: int) {
    n >= 2 && forall d :: 2 <= d < n ==> !Divides(d, n)
  }

  lemma Factors(d: int, n: int)
    requires d > 0 && n > 0 && Divides(d, n)
    ensures Quot(n, d) >= 1 && Mul(d, Quot(n, d)) == n && Divides(Quot(n, d), n)
  {
    hide Mul, Quot;
    var q := Quot(n, d);
    WholeQuot(n, d);
    MulZero(d);
    if q <= 0 { MulGrows(d, q, 0); }
    MulNext(d, q);
    QuotIs(n, q, d);
    WholeQuot(n, q);
  }

  lemma WholeQuot(n: int, d: int)
    requires d > 0
    ensures Mul(d, Quot(n, d)) + n % d == n
  {
  }

  /** Trial division is complete: a composite number has a divisor up to its root. */
  lemma SmallDivisor(n: int, r: int, d: int) returns (f: int)
    requires 2 <= d < n && Divides(d, n) && 0 <= r && n <= Mul(r, r)
    ensures 2 <= f <= r && f < n && Divides(f, n)
  {
    hide Mul, Divides, Quot;
    Factors(d, n);
    var q := Quot(n, d);
    if d <= r { return d; }
    MulZero(d);
    MulZero(q);
    MulNext(d, d);
    if q > r { MulGrows(d, r + 1, q); MulGrows(r + 1, r + 1, d); MulNext(r, r); MulNext(r + 1, r); }
    if q >= n { MulGrows(q, 2, d); Double(q); MulNext(q, d); }
    return q;
  }

  lemma EvenMultiple(n: int, d: int)
    requires d > 0 && Divides(d, n) && d % 2 == 0
    ensures n % 2 == 0
  {
    var q, e := n / d, d / 2;
    assert n == d * q == 2 * (e * q);
  }

  /** isprime: right for every number but 2. */
  method IsPrime(num: int) returns (ret: bool)
    requires 0 <= num < WORD
    ensures ret <==> Prime(num) && num != 2
  {
    hide Mul, IsCeilRoot, Divides;
    var nsqrt := Isqrt(num);
    RootIsExactIff(num, nsqrt);
    if num <= 1 {
      return false;
    }
    if num % 2 == 0 {
      EvenComposite(num);
      return false;
    }
    var f := 3;
    while f <= nsqrt
      invariant 3 <= f && forall d :: 3 <= d < f ==> !Divides(d, num)
    {
      if Divides(f, num) {
        return false;
      }
      f := f + 1;
    }
    forall d | 2 <= d < num ensures !Divides(d, num) {
      if Divides(d, num) {
        var e := SmallDivisor(num, nsqrt, d);
        if e % 2 == 0 { EvenMultiple(num, e); }
      }
    }
    ret := true;
  }

  lemma EvenComposite(n: int)
    requires n >= 2 && n % 2 == 0
    ensures Prime(n) <==> n == 2
  {
    assert Divides(2, n);
  }

  /** nlp: the largest prime below the argument. */
  method Nlp(num: int) returns (ret: int)
    requires 0 <= num < WORD
    ensures num <= 2 ==> ret == 0
    ensures num >= 3 ==> Prime(ret) && ret < num && forall p :: ret < p < num ==> !Prime(p)
  {
    hide Divides, Prime;
    if num <= 2 {
      return 0;
    }
    EvenComposite(2);
    var n := num - 1;
    while n > 2
      invariant 2 <= n < num && forall p :: n < p < num ==> !Prime(p)
    {
      var prime := IsPrime(n);
      if prime {
        break;
      }
      n := n - 1;
    }
    ret := n;
  }
}
