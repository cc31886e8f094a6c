/**
 Modular arithmetic for raw RSA: congruence, Euclid's lemma, Fermat's little theorem, and the
 statement that raising to a power e*d with e*d = 1 modulo p-1 and q-1 is the identity modulo p*q.

 Divisibility is written `a % d == 0`. Every non-linear step goes through an explicit quotient
 (`IsMultiple`, `a / d`), so the solver only ever checks polynomial identities.
 */
module NumberTheory {

  function Pow(b: int, e: nat): int {
    if e == 0 then 1 else b * Pow(b, e - 1)
  }

  ghost predicate Prime(p: int) {
    p > 1 && forall d :: 1 < d < p ==> p % d != 0
  }

  ghost predicate Congruent(a: int, b: int, n: int)
    requires n > 0
  {
    (a - b) % n == 0
  }

  lemma IsMultiple(d: int, a: int, k: int)
    requires d > 0 && a == d * k
    ensures a % d == 0 && a / d == k
  {
    var q, r := a / d, a % d;
    assert a == d * q + r;
    assert d * (k - q) == r;
    assert k - q >= 1 ==> d * (k - q) >= d;
    assert k - q <= -1 ==> d * (k - q) <= -d;
  }

  lemma Quotient(d: int, a: int)
    requires d > 0 && a % d == 0
    ensures a == d * (a / d)
  {
  }

  lemma Remainder(q: int, d: int, r: int)
    requires 0 <= r < d
    ensures (q * d + r) % d == r
  {
    var a := q * d + r;
    var k := a / d;
    assert a == d * k + a % d;
    assert d * (q - k) == a % d - r;
    assert q - k >= 1 ==> d * (q - k) >= d;
    assert q - k <= -1 ==> d * (q - k) <= -d;
  }

  lemma SumOfMultiples(d: int, a: int, b: int, x: int, y: int)
    requires d > 0 && a % d == 0 && b % d == 0
    ensures (a * x + b * y) % d == 0
  {
    var k, l := a / d, b / d;
    assert a * x + b * y == d * (k * x + l * y) by {
      assert a == d * k && b == d * l;
      assert (d * k) * x == d * (k * x);
      assert (d * l) * y == d * (l * y);
    }
    IsMultiple(d, a * x + b * y, k * x + l * y);
  }

  // ---------- Congruence ----------

  lemma CongruentRefl(a: int, n: int)
    requires n > 0
    ensures Congruent(a, a, n)
  {
    IsMultiple(n, 0, 0);
  }

  lemma CongruentTrans(a: int, b: int, c: int, n: int)
    requires n > 0 && Congruent(a, b, n) && Congruent(b, c, n)
    ensures Congruent(a, c, n)
  {
    SumOfMultiples(n, a - b, b - c, 1, 1);
  }

  lemma CongruentSym(a: int, b: int, n: int)
    requires n > 0 && Congruent(a, b, n)
    ensures Congruent(b, a, n)
  {
    SumOfMultiples(n, a - b, a - b, -1, 0);
  }

  lemma CongruentMul(a: int, b: int, c: int, d: int, n: int)
    requires n > 0 && Congruent(a, b, n) && Congruent(c, d, n)
    ensures Congruent(a * c, b * d, n)
  {
    SumOfMultiples(n, a - b, c - d, c, b);
    assert (a - b) * c + (c - d) * b == a * c - b * d;
  }

  lemma {:induction false} CongruentPow(a: int, b: int, e: nat, n: int)
    requires n > 0 && Congruent(a, b, n)
    ensures Congruent(Pow(a, e), Pow(b, e), n)
  {
    if e == 0 {
      CongruentRefl(1, n);
    } else {
      CongruentPow(a, b, e - 1, n);
      CongruentMul(a, b, Pow(a, e - 1), Pow(b, e - 1), n);
    }
  }

  lemma CongruentMod(a: int, n: int)
    requires n > 0
    ensures Congruent(a, a % n, n) && Congruent(a % n, a, n)
  {
    IsMultiple(n, a - a % n, a / n);
    CongruentSym(a, a % n, n);
  }

  lemma CongruentSmall(a: int, b: int, n: int)
    requires n > 0 && 0 <= a < n && 0 <= b < n && Congruent(a, b, n)
    ensures a == b
  {
    Quotient(n, a - b);
    var k := (a - b) / n;
    assert k >= 1 ==> n * k >= n;
    assert k <= -1 ==> n * k <= -n;
  }

  /** Congruence is equality of remainders. */
  lemma CongruentIffMod(a: int, b: int, n: int)
    requires n > 0
    ensures Congruent(a, b, n) <==> a % n == b % n
  {
    CongruentMod(a, n);
    CongruentMod(b, n);
    if Congruent(a, b, n) {
      CongruentTrans(a % n, a, b, n);
      CongruentTrans(a % n, b, b % n, n);
      CongruentSmall(a % n, b % n, n);
    }
    if a % n == b % n {
      CongruentTrans(a, a % n, b, n);
    }
  }

  // ---------- Powers ----------

  lemma {:induction false} PowAdd(b: int, x: nat, y: nat)
    ensures Pow(b, x + y) == Pow(b, x) * Pow(b, y)
  {
    if x == 0 {
    } else {
      PowAdd(b, x - 1, y);
      assert b * (Pow(b, x - 1) * Pow(b, y)) == (b * Pow(b, x - 1)) * Pow(b, y);
    }
  }

  lemma {:induction false} PowPow(b: int, x: nat, y: nat)
    ensures 0 <= x * y && Pow(Pow(b, x), y) == Pow(b, x * y)
  {
    if y == 0 {
      assert x * y == 0;
    } else {
      PowPow(b, x, y - 1);
      assert x * y == x + x * (y - 1);
      PowAdd(b, x, x * (y - 1));
    }
  }

  lemma RegroupProduct(a: int, b: int, x: int, y: int)
    ensures (a * b) * (x * y) == (a * x) * (b * y)
  {
  }

  lemma {:induction false} PowProduct(a: int, b: int, e: nat)
    ensures Pow(a * b, e) == Pow(a, e) * Pow(b, e)
  {
    if e == 0 {
    } else {
      PowProduct(a, b, e - 1);
      RegroupProduct(a, b, Pow(a, e - 1), Pow(b, e - 1));
    }
  }

  lemma {:induction false} PowOne(e: nat)
    ensures Pow(1, e) == 1
  {
    if e == 0 {
    } else {
      PowOne(e - 1);
    }
  }

  // ---------- Euclid's lemma ----------

  /** The least positive multiplier that takes `b` to a multiple of `p`. */
  lemma {:induction false} LeastMultiplier(p: int, b: int, bound: int) returns (d: int)
    requires p > 1 && 1 <= bound && (bound * b) % p == 0
    ensures 1 <= d <= bound && (d * b) % p == 0
    ensures forall x :: 1 <= x < d ==> (x * b) % p != 0
    decreases bound
  {
    if x :| 1 <= x < bound && (x * b) % p == 0 {
      d := LeastMultiplier(p, b, x);
    } else {
      d := bound;
    }
  }

  lemma MultiplierDivides(p: int, b: int, d: int, x: int)
    requires p > 1 && 1 <= d && (d * b) % p == 0 && (x * b) % p == 0
    requires forall y :: 1 <= y < d ==> (y * b) % p != 0
    ensures x % d == 0
  {
    var q, r := x / d, x % d;
    assert x == d * q + r;
    SumOfMultiples(p, x * b, d * b, 1, -q);
    assert (x * b) * 1 + (d * b) * (-q) == r * b by {
      assert x * b == (d * q + r) * b == d * q * b + r * b;
      assert (d * b) * (-q) == -(d * q * b);
    }
    assert (r * b) % p == 0;
  }

  /** Euclid's lemma: a prime that divides a product divides one of the factors. */
  lemma Euclid(p: int, a: int, b: int)
    requires Prime(p) && (a * b) % p == 0
    ensures a % p == 0 || b % p == 0
  {
    IsMultiple(p, p * b, b);
    var d := LeastMultiplier(p, b, p);
    MultiplierDivides(p, b, d, p);
    MultiplierDivides(p, b, d, a);
    assert d == 1 || d == p;
  }

  // ---------- Fermat's little theorem ----------

  ghost function Pick(s: set<nat>): (x: nat)
    requires s != {}
    ensures x in s
  {
    var x :| x in s; x
  }

  ghost function Product(s: set<nat>): int {
    if s == {} then 1 else Pick(s) * Product(s - {Pick(s)})
  }

  lemma SwapFactors(x: int, y: int, z: int)
    ensures y * (x * z) == x * (y * z)
  {
  }

  lemma {:induction false} ProductRemove(s: set<nat>, x: nat)
    requires x in s
    ensures Product(s) == x * Product(s - {x})
  {
    var y := Pick(s);
    if y == x {
    } else {
      ProductRemove(s - {y}, x);
      ProductRemove(s - {x}, y);
      assert s - {y} - {x} == s - {x} - {y};
      var rest := Product(s - {x} - {y});
      SwapFactors(x, y, rest);
    }
  }

  ghost function Scaled(a: int, p: int, s: set<nat>): set<nat>
    requires p > 0
  {
    set x | x in s :: (a * x) % p
  }

  ghost predicate Residues(s: set<nat>, p: int) {
    forall x :: x in s ==> 1 <= x < p
  }

  lemma ScalingIsInjective(a: int, p: int, x: int, y: int)
    requires Prime(p) && a % p != 0 && 0 <= x < p && 0 <= y < p
    requires (a * x) % p == (a * y) % p
    ensures x == y
  {
    CongruentIffMod(a * x, a * y, p);
    assert a * x - a * y == a * (x - y);
    Euclid(p, a, x - y);
    CongruentSmall(x, y, p);
  }

  lemma ScaledRemove(a: int, p: int, s: set<nat>, x: int)
    requires Prime(p) && a % p != 0 && Residues(s, p) && x in s
    ensures (a * x) % p in Scaled(a, p, s)
    ensures Scaled(a, p, s) - {(a * x) % p} == Scaled(a, p, s - {x})
  {
    var v := (a * x) % p;
    forall y | y in s && y != x
      ensures (a * y) % p != v
    {
      if (a * y) % p == v {
        ScalingIsInjective(a, p, x, y);
      }
    }
    forall z | z in Scaled(a, p, s - {x})
      ensures z in Scaled(a, p, s) - {v}
    {
    }
    forall z | z in Scaled(a, p, s) - {v}
      ensures z in Scaled(a, p, s - {x})
    {
      var y :| y in s && z == (a * y) % p;
      assert y in s - {x};
    }
  }

  lemma ScaledProductStep(a: int, p: int, x: int, image: int, u: int, v: int)
    requires p > 0 && Congruent(image, u * v, p)
    ensures Congruent(((a * x) % p) * image, (a * u) * (x * v), p)
  {
    CongruentMod(a * x, p);
    CongruentMul((a * x) % p, a * x, image, u * v, p);
    RegroupProduct(a, x, u, v);
  }

  lemma {:induction false} ScaledProduct(a: int, p: int, s: set<nat>)
    requires Prime(p) && a % p != 0 && Residues(s, p)
    ensures |Scaled(a, p, s)| == |s|
    ensures Congruent(Product(Scaled(a, p, s)), Pow(a, |s|) * Product(s), p)
  {
    if s == {} {
      assert Scaled(a, p, s) == {};
      CongruentRefl(1, p);
    } else {
      var x := Pick(s);
      var rest := s - {x};
      ScaledProduct(a, p, rest);
      ScaledRemove(a, p, s, x);
      ProductRemove(s, x);
      ProductRemove(Scaled(a, p, s), (a * x) % p);
      assert |s| == |rest| + 1;
      ScaledProductStep(a, p, x, Product(Scaled(a, p, rest)), Pow(a, |rest|), Product(rest));
    }
  }

  lemma SubsetOfEqualSize(s: set<nat>, t: set<nat>)
    requires s <= t && |s| == |t|
    ensures s == t
  {
    forall x | x in t
      ensures x in s
    {
      if x !in s {
        SubsetSize(s, t - {x});
      }
    }
  }

  lemma {:induction false} SubsetSize(s: set<nat>, t: set<nat>)
    requires s <= t
    ensures |s| <= |t|
  {
    if s == {} {
    } else {
      var x := Pick(s);
      SubsetSize(s - {x}, t - {x});
    }
  }

  lemma ProductOfUnits(p: int, x: int, y: int)
    requires Prime(p) && 1 <= x < p && y % p != 0
    ensures (x * y) % p != 0 && (y * x) % p != 0
  {
    if (x * y) % p == 0 {
      Euclid(p, x, y);
    }
  }

  lemma {:induction false} PrimeDoesNotDivideProduct(p: int, s: set<nat>)
    requires Prime(p) && Residues(s, p)
    ensures Product(s) % p != 0
  {
    if s == {} {
    } else {
      var x := Pick(s);
      PrimeDoesNotDivideProduct(p, s - {x});
      ProductOfUnits(p, x, Product(s - {x}));
    }
  }

  ghost function NonZeroResidues(p: int): (s: set<nat>)
    requires p >= 1
    ensures |s| == p - 1
    ensures forall x :: x in s <==> 1 <= x < p
  {
    if p == 1 then {} else NonZeroResidues(p - 1) + {p - 1}
  }

  /** Fermat's little theorem. */
  lemma Fermat(p: int, a: int)
    requires Prime(p) && a % p != 0
    ensures Congruent(Pow(a, p - 1), 1, p)
  {
    var s := NonZeroResidues(p);
    ScalingPermutes(a, p);
    ScaledProduct(a, p, s);
    PrimeDoesNotDivideProduct(p, s);
    CancelFactor(p, Pow(a, p - 1), Product(s));
  }

  lemma CancelFactor(p: int, b: int, w: int)
    requires Prime(p) && w % p != 0 && Congruent(w, b * w, p)
    ensures Congruent(b, 1, p)
  {
    CongruentSym(w, b * w, p);
    assert b * w - w == (b - 1) * w;
    Euclid(p, b - 1, w);
  }

  lemma ScalingPermutes(a: int, p: int)
    requires Prime(p) && a % p != 0
    ensures Scaled(a, p, NonZeroResidues(p)) == NonZeroResidues(p)
  {
    var s := NonZeroResidues(p);
    forall x: nat | x in s
      ensures (a * x) % p in s
    {
      ProductOfUnits(p, x, a);
      assert (a * x) % p < p;
    }
    ScaledProduct(a, p, s);
    SubsetOfEqualSize(Scaled(a, p, s), s);
  }

  // ---------- The RSA identity ----------

  lemma PowerIsIdentityModPrime(p: int, m: int, x: nat)
    requires Prime(p) && x >= 1 && (x - 1) % (p - 1) == 0
    ensures Congruent(Pow(m, x), m, p)
  {
    if m % p == 0 {
      var tail := Pow(m, x - 1);
      SumOfMultiples(p, m, m, tail, -1);
    } else {
      var t := (x - 1) / (p - 1);
      Quotient(p - 1, x - 1);
      assert t < 0 ==> (p - 1) * t < 0;
      Fermat(p, m);
      PowPow(m, p - 1, t);
      CongruentPow(Pow(m, p - 1), 1, t, p);
      PowOne(t);
      assert Congruent(Pow(m, x - 1), 1, p);
      CongruentRefl(m, p);
      CongruentMul(m, m, Pow(m, x - 1), 1, p);
    }
  }

  lemma CoprimeMultiples(p: int, q: int, a: int)
    requires Prime(p) && Prime(q) && p != q && a % p == 0 && a % q == 0
    ensures p * q > 0 && a % (p * q) == 0
  {
    var k := a / p;
    Quotient(p, a);
    Euclid(q, p, k);
    if p % q == 0 {
      assert q < p || p < q;
    }
    Quotient(q, k);
    assert p * q > 0;
    assert a == (p * q) * (k / q) by {
      assert a == p * (q * (k / q));
    }
    IsMultiple(p * q, a, k / q);
  }

  /** For distinct primes p, q and x = 1 modulo p-1 and q-1, m^x = m modulo p*q for EVERY m,
      including those that share a factor with p*q. */
  lemma PowerIsIdentity(p: int, q: int, m: int, x: nat)
    requires Prime(p) && Prime(q) && p != q
    requires x >= 1 && (x - 1) % (p - 1) == 0 && (x - 1) % (q - 1) == 0
    ensures p * q > 0 && Congruent(Pow(m, x), m, p * q)
  {
    PowerIsIdentityModPrime(p, m, x);
    PowerIsIdentityModPrime(q, m, x);
    CoprimeMultiples(p, q, Pow(m, x) - m);
  }
}
