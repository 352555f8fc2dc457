/** The two Montgomery constants of an Android RSA key, and what a device computes
    with them word by word. */
module Montgomery {
  import opened Bytes

  function Pow(b: nat, e: nat): (r: nat)
    ensures b > 0 ==> r > 0
  {
    if e == 0 then 1 else b * Pow(b, e - 1)
  }

  lemma {:induction false} PowAdd(b: nat, d: nat, e: nat)
    ensures Pow(b, d + e) == Pow(b, d) * Pow(b, e)
  {
    if d > 0 {
      PowAdd(b, d - 1, e);
      assert Pow(b, d + e) == b * (Pow(b, d - 1) * Pow(b, e));
      MulAssoc(b, Pow(b, d - 1), Pow(b, e));
    }
  }

  lemma MulAssoc(a: int, b: int, c: int)
    ensures a * (b * c) == (a * b) * c
  {
  }

  lemma {:induction false} PowOfPow(b: nat, d: nat, e: nat)
    ensures Pow(Pow(b, d), e) == Pow(b, d * e)
  {
    if e > 0 {
      PowOfPow(b, d, e - 1);
      PowAdd(b, d, d * (e - 1));
      assert d * e == d + d * (e - 1);
    }
  }

  // ---- congruence --------------------------------------------------------

  /** a and b differ by a multiple of n. */
  ghost predicate Congruent(a: int, b: int, n: int) {
    exists k: int :: a - b == k * n
  }

  lemma CongruentBy(a: int, b: int, n: int, k: int)
    requires a - b == k * n
    ensures Congruent(a, b, n)
  {
  }

  lemma CongruentTrans(a: int, b: int, c: int, n: int)
    requires Congruent(a, b, n) && Congruent(b, c, n)
    ensures Congruent(a, c, n)
  {
    var j: int :| a - b == j * n;
    var k: int :| b - c == k * n;
    assert a - c == (j + k) * n;
  }

  lemma CongruentScale(x: int, a: int, b: int, n: int)
    requires Congruent(a, b, n)
    ensures Congruent(x * a, x * b, n)
  {
    var k: int :| a - b == k * n;
    assert x * a - x * b == x * (a - b);
    MulAssoc(x, k, n);
    assert x * a - x * b == (x * k) * n;
  }

  lemma ModCongruent(a: int, n: nat)
    requires n > 0
    ensures Congruent(a % n, a, n)
  {
    assert a % n - a == (-(a / n)) * n;
  }

  /** A number below the modulus is the remainder of what it is congruent to. */
  lemma CongruentIsMod(a: int, b: int, n: nat)
    requires 0 <= a < n && Congruent(a, b, n)
    ensures a == b % n
  {
    var k: int :| a - b == k * n;
    var q := b / n;
    assert a - b % n == (k + q) * n;
    BetweenMultiples(k + q, n, a - b % n);
  }

  lemma BetweenMultiples(k: int, n: int, d: int)
    requires n > 0 && d == k * n && -n < d < n
    ensures d == 0
  {
    assert k >= 1 ==> k * n >= n;
    assert k <= -1 ==> k * n <= -n;
  }

  lemma OddTimes(k: int, m: int)
    ensures k * (2 * m + 1) == 2 * (k * m) + k
  {
  }

  /** Modulo an odd number a factor two can be cancelled. */
  lemma CancelTwo(a: int, b: int, n: int)
    requires n % 2 == 1 && Congruent(2 * a, 2 * b, n)
    ensures Congruent(a, b, n)
  {
    var k: int :| 2 * a - 2 * b == k * n;
    var h, m := k / 2, n / 2;
    OddTimes(k, m);
    assert n == 2 * m + 1 && k == 2 * h;
    MulAssoc(2, h, n);
    CongruentBy(a, b, n, h);
  }

  lemma {:induction false} CancelPowerOfTwo(e: nat, a: int, b: int, n: int)
    requires n % 2 == 1 && Congruent(Pow(2, e) * a, Pow(2, e) * b, n)
    ensures Congruent(a, b, n)
  {
    if e > 0 {
      MulAssoc(2, Pow(2, e - 1), a);
      MulAssoc(2, Pow(2, e - 1), b);
      CancelTwo(Pow(2, e - 1) * a, Pow(2, e - 1) * b, n);
      CancelPowerOfTwo(e - 1, a, b, n);
    }
  }

  // ---- n0inv -------------------------------------------------------------

  /** The inverse of an odd number modulo 2^e, one bit at a time. */
  function Hensel(a: nat, e: nat): nat
    requires a % 2 == 1
  {
    if e == 0 then 0
    else
      var x := Hensel(a, e - 1);
      if (a * x) % Pow(2, e) == 1 % Pow(2, e) then x else x + Pow(2, e - 1)
  }

  lemma {:induction false} HenselInverts(a: nat, e: nat)
    requires a % 2 == 1
    ensures Congruent(a * Hensel(a, e), 1, Pow(2, e)) && Hensel(a, e) < Pow(2, e)
  {
    if e == 0 {
      assert a * Hensel(a, e) == 0;
      CongruentBy(0, 1, 1, -1);
    } else {
      HenselInverts(a, e - 1);
      var x, p := Hensel(a, e - 1), Pow(2, e - 1);
      if (a * x) % Pow(2, e) == 1 % Pow(2, e) {
        SameRemainder(a * x, 1, Pow(2, e));
      } else {
        var q: int :| a * x - 1 == q * p;
        OddStep(a, x, p, q);
      }
    }
  }

  lemma SameRemainder(a: int, b: int, n: nat)
    requires n > 0 && a % n == b % n
    ensures Congruent(a, b, n)
  {
    assert a - b == (a / n - b / n) * n;
  }

  lemma OddStep(a: nat, x: nat, p: nat, q: int)
    requires a % 2 == 1 && p > 0 && a * x - 1 == q * p && (a * x) % (2 * p) != 1 % (2 * p)
    ensures Congruent(a * (x + p), 1, 2 * p)
  {
    if q % 2 == 0 {
      EvenQuotient(a * x, p, q);
    } else {
      var h := (q + a) / 2;
      assert q + a == 2 * h;
      OddQuotient(a, x, p, q, h);
      CongruentBy(a * (x + p), 1, 2 * p, h);
    }
  }

  lemma EvenQuotient(y: nat, p: nat, q: int)
    requires p > 0 && y - 1 == q * p && q % 2 == 0
    ensures y % (2 * p) == 1 % (2 * p)
  {
    var h := q / 2;
    assert q * p == (2 * h) * p == h * (2 * p);
    RemainderOf(y, 1, 2 * p, h);
  }

  lemma OddQuotient(a: nat, x: nat, p: nat, q: int, h: int)
    requires a * x - 1 == q * p && q + a == 2 * h
    ensures a * (x + p) - 1 == h * (2 * p)
  {
    assert a * (x + p) == a * x + a * p;
    assert q * p + a * p == (q + a) * p;
    assert (2 * h) * p == h * (2 * p);
  }

  lemma RemainderOf(a: int, b: int, n: nat, k: int)
    requires n > 0 && a - b == k * n
    ensures a % n == b % n
  {
    var q := b / n;
    assert a == (k + q) * n + b % n;
    QuotientUnique(a, n, k + q, b % n);
  }

  lemma QuotientUnique(a: int, n: nat, q: int, r: int)
    requires n > 0 && a == q * n + r && 0 <= r < n
    ensures a % n == r
  {
    assert a % n - r == (q - a / n) * n;
    BetweenMultiples(q - a / n, n, a % n - r);
  }

  /** big.Int's ModInverse modulo 2^32. */
  function ModInverse(a: nat): Option<nat> {
    if a % 2 == 0 then None else Some(Hensel(a, 32))
  }

  /** It is what the library promises: the inverse when there is one, and only then. */
  lemma ModInverseIsInverse(a: nat)
    ensures match ModInverse(a)
      case None => forall x: int :: (a * x) % TWO32 != 1
      case Some(x) => x < TWO32 && (a * x) % TWO32 == 1
  {
    Pow32();
    if a % 2 == 0 {
      forall x: int ensures (a * x) % TWO32 != 1 {
        var h := a / 2;
        assert a * x == 2 * (h * x);
        EvenRemainder(h * x);
      }
    } else {
      HenselInverts(a, 32);
      var k: int :| a * Hensel(a, 32) - 1 == k * TWO32;
      RemainderOf(a * Hensel(a, 32), 1, TWO32, k);
    }
  }

  lemma EvenRemainder(y: int)
    ensures (2 * y) % TWO32 != 1
  {
  }

  lemma Pow32()
    ensures Pow(2, 32) == TWO32
  {
    PowAdd(2, 16, 16);
    PowAdd(2, 8, 8);
    assert Pow(2, 8) == 256;
  }

  function N0Inv(n: nat): Option<U32> {
    match ModInverse(n % TWO32)
    case None => None
    case Some(inv) => Some(Wrap32(0 - inv))
  }

  /** Main result. n0inv fails exactly when the modulus is even; otherwise it is the
      one 32-bit number whose product with the modulus is -1 modulo 2^32. */
  lemma N0InvIsNegatedInverse(n: nat)
    ensures N0Inv(n).None? <==> n % 2 == 0
    ensures forall v: U32 :: N0Inv(n) == Some(v) <==> (v * n) % TWO32 == TWO32 - 1
  {
    var n0 := n % TWO32;
    assert n0 % 2 == n % 2;
    ModInverseIsInverse(n0);
    forall v: U32 ensures N0Inv(n) == Some(v) <==> (v * n) % TWO32 == TWO32 - 1 {
      MulMod(v, n);
      NegatedInverse(n0, v);
      if n % 2 == 1 {
        var inv := ModInverse(n0).value;
        InverseUnique(n0, inv, TWO32 - v);
        Negated(inv, v);
      }
    }
    hide ModInverse;
  }

  lemma Negated(inv: U32, v: U32)
    requires inv != 0
    ensures Wrap32(0 - inv) == v <==> inv == TWO32 - v
  {
  }

  lemma MulMod(v: nat, n: nat)
    ensures (v * n) % TWO32 == (v * (n % TWO32)) % TWO32
  {
    assert v * n - v * (n % TWO32) == v * (n - n % TWO32) == (v * (n / TWO32)) * TWO32;
    RemainderOf(v * n, v * (n % TWO32), TWO32, v * (n / TWO32));
  }

  lemma NegatedInverse(n0: nat, v: U32)
    ensures (v * n0) % TWO32 == TWO32 - 1 <==> (n0 * (TWO32 - v)) % TWO32 == 1
  {
    var a, b := v * n0, n0 * (TWO32 - v);
    assert a + b == n0 * TWO32;
    SumOfMultiple(a, b, n0);
  }

  lemma SumOfMultiple(a: int, b: int, k: int)
    requires a + b == k * TWO32
    ensures a % TWO32 == TWO32 - 1 <==> b % TWO32 == 1
  {
  }

  /** Two inverses of an odd number agree modulo 2^32. */
  lemma InverseUnique(n0: nat, x: nat, y: nat)
    requires n0 % 2 == 1 && (n0 * x) % TWO32 == 1 && x < TWO32 && y <= TWO32
    ensures (n0 * y) % TWO32 == 1 <==> x == y
  {
    if (n0 * y) % TWO32 == 1 {
      SameRemainder(n0 * x, n0 * y, TWO32);
      var k: int :| n0 * x - n0 * y == k * TWO32;
      SameRemainder(n0 * x, 1, TWO32);
      var j: int :| n0 * x - 1 == j * TWO32;
      DifferenceOfInverses(n0, x, y, k, j);
      assert y != TWO32;
      BetweenMultiples(k * x - j * (x - y), TWO32, x - y);
    }
  }

  lemma DifferenceOfInverses(n0: nat, x: nat, y: nat, k: int, j: int)
    requires n0 * x - n0 * y == k * TWO32 && n0 * x - 1 == j * TWO32
    ensures x - y == (k * x - j * (x - y)) * TWO32
  {
    var d := x - y;
    assert n0 * x - n0 * y == n0 * d;
    MulAssoc(n0, d, x);
    MulAssoc(n0, x, d);
    assert (n0 * x) * d == (n0 * d) * x;
    assert (1 + j * TWO32) * d == d + (j * d) * TWO32;
    assert (k * TWO32) * x == (k * x) * TWO32;
  }

  // ---- reduction ---------------------------------------------------------

  /** One word of a Montgomery reduction. */
  function WordStep(n: nat, v: U32, t: nat): nat {
    (t + (t % TWO32 * v % TWO32) * n) / TWO32
  }

  /** With n0inv, what is added makes every word step exact. */
  lemma WordStepExact(n: nat, v: U32, t: nat)
    requires N0Inv(n) == Some(v)
    ensures (t + (t % TWO32 * v % TWO32) * n) % TWO32 == 0
    ensures TWO32 * WordStep(n, v, t) == t + (t % TWO32 * v % TWO32) * n
  {
    hide N0Inv, WordStep, Congruent;
    N0InvIsNegatedInverse(n);
    NegatedWord(n, v, t % TWO32, t % TWO32 * v % TWO32);
    StepExact(n, v, t, t % TWO32 * v % TWO32);
  }

  lemma StepExact(n: nat, v: U32, t: nat, m: nat)
    requires m == t % TWO32 * v % TWO32 && Congruent(n * m, 0 - t % TWO32, TWO32)
    ensures (t + m * n) % TWO32 == 0 && TWO32 * WordStep(n, v, t) == t + m * n
  {
    var k: int :| n * m - (0 - t % TWO32) == k * TWO32;
    SumIsMultiple(t, n * m, k);
    assert n * m == m * n;
    assert WordStep(n, v, t) == (t + m * n) / TWO32;
  }

  /** m * n is -t0 modulo 2^32. */
  lemma NegatedWord(n: nat, v: U32, t0: nat, m: nat)
    requires (v * n) % TWO32 == TWO32 - 1 && m == t0 * v % TWO32
    ensures Congruent(n * m, 0 - t0, TWO32)
  {
    hide Congruent;
    ModCongruent(t0 * v, TWO32);
    CongruentScale(n, m, t0 * v, TWO32);
    MinusOne(v * n);
    CongruentScale(t0, v * n, -1, TWO32);
    assert n * (t0 * v) == t0 * (v * n);
    CongruentTrans(n * m, t0 * (v * n), 0 - t0, TWO32);
  }

  lemma SumIsMultiple(t: nat, a: int, k: int)
    requires a + t % TWO32 == k * TWO32
    ensures (t + a) % TWO32 == 0
  {
  }

  lemma MinusOne(a: int)
    requires a % TWO32 == TWO32 - 1
    ensures Congruent(a, -1, TWO32)
  {
    assert a - -1 == (a / TWO32 + 1) * TWO32;
  }

  function Reduce(n: nat, v: U32, t: nat, words: nat): nat {
    if words == 0 then t else WordStep(n, v, Reduce(n, v, t, words - 1))
  }

  /** The reduction by so many words divides by their power modulo n, and keeps the
      number small. */
  lemma {:induction false} ReduceDivides(n: nat, v: U32, t: nat, words: nat)
    requires N0Inv(n) == Some(v)
    ensures Congruent(Pow(TWO32, words) * Reduce(n, v, t, words), t, n)
    ensures Pow(TWO32, words) * Reduce(n, v, t, words) <= t + (Pow(TWO32, words) - 1) * n
  {
    if words == 0 {
      CongruentBy(1 * t, t, n, 0);
    } else {
      ReduceDivides(n, v, t, words - 1);
      var p, u := Pow(TWO32, words - 1), Reduce(n, v, t, words - 1);
      WordStepExact(n, v, u);
      var m := u % TWO32 * v % TWO32;
      var r := WordStep(n, v, u);
      PowerTimes(p, r);
      assert p * (TWO32 * r) == p * (u + m * n);
      Distribute(p, u, m, n);
      CongruentBy(p * (u + m * n), p * u, n, p * m);
      CongruentTrans(p * (u + m * n), p * u, t, n);
      Bound(p, u, m, n, t);
    }
  }

  lemma PowerTimes(p: int, r: int)
    ensures (TWO32 * p) * r == p * (TWO32 * r)
  {
  }

  lemma Distribute(p: int, u: int, m: int, n: int)
    ensures p * (u + m * n) == p * u + (p * m) * n
  {
  }

  lemma Bound(p: nat, u: nat, m: nat, n: nat, t: nat)
    requires m < TWO32 && p * u <= t + (p - 1) * n
    ensures p * (u + m * n) <= t + (TWO32 * p - 1) * n
  {
    Distribute(p, u, m, n);
    assert m <= TWO32 - 1;
    assert m * (p * n) <= (TWO32 - 1) * (p * n) by { Monotone(m, TWO32 - 1, p * n); }
    assert (p * m) * n == m * (p * n);
  }

  lemma Monotone(a: nat, b: nat, c: nat)
    requires a <= b
    ensures a * c <= b * c
  {
  }

  /** R for so many words; the rr field is R squared modulo n. */
  function RR(n: nat, words: nat): nat
    requires n > 0
  {
    Pow(TWO32, 2 * words) % n
  }

  /** Main result. With the two constants of the key, one reduction of x * rr gives x
      in Montgomery form, x * R modulo n, after at most one subtraction of n. */
  lemma ToMontgomeryForm(n: nat, v: U32, x: nat, words: nat)
    requires N0Inv(n) == Some(v) && x <= Pow(TWO32, words)
    ensures var r := Reduce(n, v, x * RR(n, words), words);
            r < 2 * n && (if r >= n then r - n else r) == (x * Pow(TWO32, words)) % n
  {
    hide Congruent, Pow, Reduce;
    N0InvIsNegatedInverse(n);
    hide N0Inv;
    var R, rr := Pow(TWO32, words), RR(n, words);
    var r := Reduce(n, v, x * rr, words);
    ReduceDivides(n, v, x * rr, words);
    SquareModulo(n, words);
    BelowTwice(R, r, x, rr, n);
    Cancelled(n, x, r, rr, words);
    if r >= n {
      CongruentBy(r - n, r, n, -1);
      CongruentTrans(r - n, r, x * R, n);
      CongruentIsMod(r - n, x * R, n);
    } else {
      CongruentIsMod(r, x * R, n);
    }
  }

  lemma SquareModulo(n: nat, words: nat)
    requires n > 0
    ensures Congruent(RR(n, words), Pow(TWO32, words) * Pow(TWO32, words), n) && RR(n, words) < n
  {
    PowAdd(TWO32, words, words);
    ModCongruent(Pow(TWO32, 2 * words), n);
  }

  lemma Cancelled(n: nat, x: nat, r: nat, rr: nat, words: nat)
    requires n % 2 == 1
    requires var R := Pow(TWO32, words); Congruent(R * r, x * rr, n) && Congruent(rr, R * R, n)
    ensures Congruent(r, x * Pow(TWO32, words), n)
  {
    hide Congruent;
    var R := Pow(TWO32, words);
    CongruentScale(x, rr, R * R, n);
    CongruentTrans(R * r, x * rr, x * (R * R), n);
    assert x * (R * R) == R * (x * R);
    Pow32();
    PowOfPow(2, 32, words);
    CancelPowerOfTwo(32 * words, r, x * R, n);
  }

  lemma BelowTwice(R: nat, r: nat, x: nat, rr: nat, n: nat)
    requires R > 0 && rr < n && x <= R && R * r <= x * rr + (R - 1) * n
    ensures r < 2 * n
  {
    Monotone(x, R, rr);
    Monotone(rr, n - 1, R);
    assert R * rr == rr * R && (n - 1) * R == R * (n - 1);
    TwiceBound(R, r, n);
  }

  lemma TwiceBound(R: nat, r: nat, n: nat)
    requires R > 0 && n > 0 && R * r <= R * (n - 1) + (R - 1) * n
    ensures r < 2 * n
  {
    if r >= 2 * n { Monotone(2 * n, r, R); }
    assert R * (n - 1) == R * n - R && (R - 1) * n == R * n - n;
    assert (2 * n) * R == 2 * (R * n) && r * R == R * r;
  }

  /** For 64 words the rr constant is 2^4096 modulo the modulus. */
  lemma RRIsPower(n: nat)
    requires n > 0
    ensures RR(n, 64) == Pow(2, 4096) % n
  {
    hide Pow;
    Pow32();
    PowOfPow(2, 32, 128);
  }
}
