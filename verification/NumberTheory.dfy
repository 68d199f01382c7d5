/** Arithmetic modulo a prime: Euclid's lemma, Fermat's little theorem and Euler's criterion. */
module NumberTheory {

  predicate Divides(d: int, n: int)
    requires d != 0
  {
    n % d == 0
  }

  ghost predicate Prime(p: int) {
    p >= 2 && forall d :: 1 < d < p ==> !Divides(d, p)
  }

  /** The e-th power of x. */
  function Pow(x: int, e: nat): int {
    if e == 0 then 1 else x * Pow(x, e - 1)
  }

  /** The e-th power of x modulo p. */
  function PowMod(x: int, e: nat, p: int): int
    requires p > 0
  {
    Pow(x, e) % p
  }

  /** The t-th power of two. */
  function Pow2(t: nat): (r: nat)
    ensures r > 0
  {
    if t == 0 then 1 else 2 * Pow2(t - 1)
  }

  // ------------------------------------------------------------------ remainders

  lemma {:induction false} ModUnique(a: int, q: int, r: int, p: int)
    requires p > 0 && a == q * p + r && 0 <= r < p
    ensures a % p == r
  {
    var k := q - a / p;
    assert k * p == a % p - r;
    assert k >= 1 ==> k * p >= p;
    assert k <= -1 ==> k * p <= -p;
  }

  /** Adding a multiple of the modulus does not matter. */
  lemma {:induction false} ModShift(a: int, k: int, p: int)
    requires p > 0
    ensures (a + k * p) % p == a % p
  {
    ModUnique(a + k * p, a / p + k, a % p, p);
  }

  lemma {:induction false} ModMulRight(a: int, b: int, p: int)
    requires p > 0
    ensures (a * (b % p)) % p == (a * b) % p
  {
    var q := b / p;
    assert b == q * p + b % p;
    assert a * b == a * (b % p) + (a * q) * p by {
      assert a * (q * p) == (a * q) * p;
      assert a * (q * p + b % p) == a * (q * p) + a * (b % p);
    }
    ModShift(a * (b % p), a * q, p);
  }

  lemma {:induction false} ModMulCongruent(a: int, b: int, c: int, d: int, p: int)
    requires p > 0 && a % p == b % p && c % p == d % p
    ensures (a * c) % p == (b * d) % p
  {
    ModMulRight(a, c, p);
    ModMulRight(a, d, p);
    ModMulRight(d, a, p);
    ModMulRight(d, b, p);
  }

  lemma {:induction false} ModNegate(a: int, b: int, p: int)
    requires p > 0 && a % p == b % p
    ensures (-a) % p == (-b) % p
  {
    ModMulCongruent(-1, -1, a, b, p);
  }

  /** Congruence is divisibility of the difference. */
  lemma {:induction false} ModDifference(a: int, b: int, p: int)
    requires p > 0
    ensures a % p == b % p <==> (a - b) % p == 0
  {
    if a % p == b % p {
      assert a - b == (a / p - b / p) * p + 0;
      ModUnique(a - b, a / p - b / p, 0, p);
    } else if (a - b) % p == 0 {
      var k := (a - b) / p;
      assert a == b + k * p;
      ModShift(b, k, p);
    }
  }

  lemma {:induction false} Shuffle(a: int, b: int, c: int, d: int)
    ensures (a * b) * (c * d) == (a * c) * (b * d)
  {
    assert (a * b) * (c * d) == a * (b * (c * d)) == a * (c * (b * d));
  }

  /** The i-th bit is what the remainders modulo 2^i and 2^(i+1) differ by. */
  lemma {:induction false} BitSplit(n: nat, i: nat)
    ensures n % Pow2(i + 1) == n % Pow2(i) + if (n / Pow2(i)) % 2 == 1 then Pow2(i) else 0
  {
    var t := Pow2(i);
    assert Pow2(i + 1) == 2 * t;
    hide Pow2;
    var q, r := n / t, n % t;
    assert n == q * t + r;
    SplitQuotient(n, q, r, t);
  }

  lemma {:induction false} SplitQuotient(n: int, q: nat, r: int, t: int)
    requires t > 0 && n == q * t + r && 0 <= r < t
    ensures n % (2 * t) == r + if q % 2 == 1 then t else 0
  {
    var h, b := q / 2, q % 2;
    assert q == 2 * h + b;
    assert q * t == h * (2 * t) + b * t by {
      assert (2 * h + b) * t == (2 * h) * t + b * t;
      assert (2 * h) * t == h * (2 * t);
    }
    assert b * t == if b == 1 then t else 0;
    ModUnique(n, h, b * t + r, 2 * t);
  }

  // ------------------------------------------------------------------ powers

  lemma {:induction false} PowAdd(x: int, a: nat, b: nat)
    ensures Pow(x, a + b) == Pow(x, a) * Pow(x, b)
  {
    if a > 0 {
      PowAdd(x, a - 1, b);
      assert Pow(x, a + b) == x * (Pow(x, a - 1) * Pow(x, b)) == (x * Pow(x, a - 1)) * Pow(x, b);
    }
  }

  lemma {:induction false} PowProduct(x: int, y: int, e: nat)
    ensures Pow(x * y, e) == Pow(x, e) * Pow(y, e)
  {
    if e > 0 {
      PowProduct(x, y, e - 1);
      Shuffle(x, y, Pow(x, e - 1), Pow(y, e - 1));
    }
  }

  lemma {:induction false} PowCongruent(x: int, y: int, e: nat, p: int)
    requires p > 0 && x % p == y % p
    ensures Pow(x, e) % p == Pow(y, e) % p
  {
    if e > 0 {
      PowCongruent(x, y, e - 1, p);
      ModMulCongruent(x, y, Pow(x, e - 1), Pow(y, e - 1), p);
    }
  }

  lemma {:induction false} PowMinusOne(e: nat)
    ensures Pow(-1, e) == if e % 2 == 0 then 1 else -1
  {
    if e > 0 {
      PowMinusOne(e - 1);
    }
  }

  lemma {:induction false} Square(x: int)
    ensures Pow(x, 2) == x * x
  {
    assert Pow(x, 2) == x * Pow(x, 1) == x * x;
  }

  lemma {:induction false} PowZero(e: nat)
    requires e > 0
    ensures Pow(0, e) == 0
  {
  }

  // ------------------------------------------------------------------ Euclid's lemma

  lemma {:induction false} EuclidSmall(p: int, a: int, b: int)
    requires Prime(p) && 0 < a < p && (a * b) % p == 0
    ensures b % p == 0
    decreases a
  {
    if a > 1 {
      var q, r := p / a, p % a;
      assert !Divides(a, p);
      assert r * b == b * p - q * (a * b) by {
        assert p == q * a + r;
        assert (q * a + r) * b == q * (a * b) + r * b;
      }
      var k := (a * b) / p;
      assert a * b == k * p;
      assert r * b == (b - q * k) * p by {
        assert q * (k * p) == (q * k) * p;
        assert (b - q * k) * p == b * p - (q * k) * p;
      }
      ModUnique(r * b, b - q * k, 0, p);
      EuclidSmall(p, r, b);
    }
  }

  lemma {:induction false} Euclid(p: int, a: int, b: int)
    requires Prime(p) && (a * b) % p == 0
    ensures a % p == 0 || b % p == 0
  {
    if a % p != 0 {
      ModMulRight(b, a, p);
      assert ((a % p) * b) % p == 0;
      EuclidSmall(p, a % p, b);
    }
  }

  /** A factor that the prime does not divide can be cancelled. */
  lemma {:induction false} Cancel(p: int, a: int, b: int, c: int)
    requires Prime(p) && a % p != 0 && (a * b) % p == (a * c) % p
    ensures b % p == c % p
  {
    ModDifference(a * b, a * c, p);
    assert a * b - a * c == a * (b - c);
    Euclid(p, a, b - c);
    ModDifference(b, c, p);
  }

  // ------------------------------------------------------------------ Fermat's little theorem

  /** The product of the elements of `s` between 1 and n - 1. */
  ghost function Product(s: set<int>, n: int): int
    decreases n
  {
    if n <= 1 then 1 else (if n - 1 in s then n - 1 else 1) * Product(s, n - 1)
  }

  lemma {:induction false} ProductBelow(s: set<int>, t: set<int>, n: int)
    requires forall i :: 1 <= i < n ==> (i in s <==> i in t)
    ensures Product(s, n) == Product(t, n)
    decreases n
  {
    if n > 1 {
      ProductBelow(s, t, n - 1);
    }
  }

  lemma {:induction false} ProductEmpty(n: int)
    ensures Product({}, n) == 1
    decreases n
  {
    if n > 1 {
      ProductEmpty(n - 1);
    }
  }

  lemma {:induction false} ProductRemove(s: set<int>, n: int, x: int)
    requires x in s && 1 <= x < n
    ensures Product(s, n) == x * Product(s - {x}, n)
    decreases n
  {
    if x == n - 1 {
      ProductBelow(s, s - {x}, n - 1);
    } else {
      ProductRemove(s, n - 1, x);
      if n - 1 in s {
        Rotate(x, n - 1, Product(s - {x}, n - 1));
      }
    }
  }

  lemma Rotate(a: int, b: int, c: int)
    ensures b * (a * c) == a * (b * c)
  {
  }

  ghost function Residues(p: int): set<int> {
    set i | 1 <= i < p && IsResidue(i, p)
  }

  predicate IsResidue(i: int, p: int) { 1 <= i < p }

  ghost function Scaled(s: set<int>, x: int, p: int): set<int>
    requires p > 0
  {
    set i | i in s :: (x * i) % p
  }

  lemma {:induction false} ScaleInjective(p: int, x: int, i: int, j: int)
    requires Prime(p) && x % p != 0 && 1 <= i < p && 1 <= j < p && (x * i) % p == (x * j) % p
    ensures i == j
  {
    Cancel(p, x, i, j);
    ModUnique(i, 0, i, p);
    ModUnique(j, 0, j, p);
  }

  lemma {:induction false} ScaledResidues(p: int, x: int)
    requires Prime(p) && x % p != 0
    ensures Scaled(Residues(p), x, p) <= Residues(p)
  {
    forall i | i in Residues(p) ensures (x * i) % p in Residues(p) {
      ModUnique(i, 0, i, p);
      if (x * i) % p == 0 {
        Euclid(p, x, i);
      }
    }
  }

  lemma {:induction false} ScaledRemove(p: int, x: int, s: set<int>, i: int)
    requires Prime(p) && x % p != 0 && s <= Residues(p) && i in s
    ensures Scaled(s - {i}, x, p) == Scaled(s, x, p) - {(x * i) % p}
    ensures (x * i) % p in Scaled(s, x, p)
  {
    var a, b, m := Scaled(s - {i}, x, p), Scaled(s, x, p), (x * i) % p;
    forall j | j in s && j != i ensures (x * j) % p != m {
      if (x * j) % p == m {
        ScaleInjective(p, x, i, j);
      }
    }
    forall y | y in b && y != m ensures y in a {
      var j :| j in s && (x * j) % p == y;
      assert j in s - {i};
    }
    forall y | y in a ensures y in b && y != m {
      var j :| j in s - {i} && (x * j) % p == y;
    }
  }

  lemma {:induction false} ScaledProduct(p: int, x: int, s: set<int>)
    requires Prime(p) && x % p != 0 && s <= Residues(p)
    ensures |Scaled(s, x, p)| == |s|
    ensures Product(Scaled(s, x, p), p) % p == (Pow(x, |s|) * Product(s, p)) % p
  {
    if s == {} {
      assert Scaled(s, x, p) == {};
      assert Pow(x, 0) * Product(s, p) == Product(s, p);
    } else {
      var i :| i in s;
      var r, m := s - {i}, (x * i) % p;
      ScaledRemove(p, x, s, i);
      ScaledResidues(p, x);
      assert m in Residues(p);
      ScaledProduct(p, x, r);
      ProductRemove(s, p, i);
      ProductRemove(Scaled(s, x, p), p, m);
      var a, b := Product(Scaled(r, x, p), p), Pow(x, |r|) * Product(r, p);
      ModUnique(m, 0, m, p);
      ModMulCongruent(m, x * i, a, b, p);
      Shuffle(x, i, Pow(x, |r|), Product(r, p));
    }
  }

  lemma {:induction false} ProductCoprime(p: int, s: set<int>)
    requires Prime(p) && s <= Residues(p)
    ensures Product(s, p) % p != 0
  {
    if s == {} {
      ProductEmpty(p);
      ModUnique(1, 0, 1, p);
    } else {
      var i :| i in s;
      ProductRemove(s, p, i);
      ProductCoprime(p, s - {i});
      ModUnique(i, 0, i, p);
      if Product(s, p) % p == 0 {
        Euclid(p, i, Product(s - {i}, p));
      }
    }
  }

  lemma {:induction false} ResiduesSize(p: int)
    requires p >= 1
    ensures |Residues(p)| == p - 1
  {
    if p == 1 {
      assert Residues(p) == {};
    } else {
      ResiduesSize(p - 1);
      assert Residues(p) == Residues(p - 1) + {p - 1};
    }
  }

  lemma {:induction false} SubsetEqual(a: set<int>, b: set<int>)
    requires a <= b && |a| == |b|
    ensures a == b
  {
    assert b == a + (b - a);
    assert |b| == |a| + |b - a|;
  }

  /** Fermat: x^(p-1) = 1 modulo a prime that does not divide x. */
  lemma {:induction false} Fermat(p: int, x: int)
    requires Prime(p) && x % p != 0
    ensures Pow(x, p - 1) % p == 1
  {
    var s := Residues(p);
    ResiduesSize(p);
    ScaledProduct(p, x, s);
    ScaledResidues(p, x);
    SubsetEqual(Scaled(s, x, p), s);
    ProductCoprime(p, s);
    CancelProduct(p, Pow(x, p - 1), Product(s, p));
  }

  lemma {:induction false} CancelProduct(p: int, w: int, f: int)
    requires Prime(p) && f % p != 0 && f % p == (w * f) % p
    ensures w % p == 1
  {
    assert f * w == w * f && f * 1 == f;
    Cancel(p, f, w, 1);
    ModUnique(1, 0, 1, p);
  }

  /** The only square roots of 1 are 1 and -1. */
  lemma {:induction false} RootsOfOne(p: int, u: int)
    requires Prime(p) && (u * u) % p == 1
    ensures u % p == 1 || u % p == p - 1
  {
    ModUnique(1, 0, 1, p);
    ModDifference(u * u, 1, p);
    assert u * u - 1 == (u - 1) * (u + 1);
    Euclid(p, u - 1, u + 1);
    ModDifference(u, 1, p);
    ModDifference(u, -1, p);
    ModUnique(-1, -1, p - 1, p);
  }

  /** Euler: x^((p-1)/2) is 1 or -1. */
  lemma {:induction false} Euler(p: int, x: int)
    requires Prime(p) && p % 2 == 1 && x % p != 0
    ensures Pow(x, (p - 1) / 2) % p == 1 || Pow(x, (p - 1) / 2) % p == p - 1
  {
    var h := (p - 1) / 2;
    Fermat(p, x);
    PowAdd(x, h, h);
    RootsOfOne(p, Pow(x, h));
  }

  // ------------------------------------------------------------------ square roots, p mod 4 = 3

  /** For a quadratic residue, x^((p+1)/4) is a square root of x. */
  lemma {:induction false} RootOfResidue(p: int, x: int)
    requires p > 0 && p % 4 == 3 && Pow(x, (p - 1) / 2) % p == 1
    ensures var y := PowMod(x, (p + 1) / 4, p);
            (y * y) % p == x % p
  {
    var q := (p + 1) / 4;
    var y := PowMod(x, q, p);
    ModUnique(y, 0, y, p);
    ModMulCongruent(y, Pow(x, q), y, Pow(x, q), p);
    PowAdd(x, q, q);
    assert q + q == (p - 1) / 2 + 1;
    ModMulRight(x, Pow(x, (p - 1) / 2), p);
  }

  /** Exactly one of x and -x is a residue when p mod 4 = 3. */
  lemma {:induction false} NegatedResidue(p: int, x: int)
    requires Prime(p) && p % 4 == 3 && x % p != 0
    ensures Pow(x, (p - 1) / 2) % p == 1 <==> Pow((-x) % p, (p - 1) / 2) % p != 1
  {
    var h := (p - 1) / 2;
    assert h % 2 == 1;
    Euler(p, x);
    PowProduct(-1, x, h);
    PowMinusOne(h);
    assert Pow(-x, h) == -Pow(x, h);
    ModUnique((-x) % p, 0, (-x) % p, p);
    PowCongruent((-x) % p, -x, h, p);
    ModUnique(1, 0, 1, p);
    ModUnique(-1, -1, p - 1, p);
    ModUnique(p - 1, 0, p - 1, p);
    ModUnique(-(p - 1), -1, 1, p);
    if Pow(x, h) % p == 1 {
      ModNegate(Pow(x, h), 1, p);
    } else {
      ModNegate(Pow(x, h), p - 1, p);
    }
  }

  lemma {:induction false} SquareNegated(p: int, y: int)
    requires p > 0
    ensures PowMod(p - y, 2, p) == PowMod(y, 2, p)
  {
    hide Pow;
    Square(p - y);
    Square(y);
    assert (p - y) * (p - y) == y * y + (p - 2 * y) * p;
    ModShift(y * y, p - 2 * y, p);
  }

  /** Two square roots of one number differ at most in sign. */
  lemma {:induction false} RootsAgree(p: int, y: int, z: int)
    requires Prime(p) && 0 <= y < p && 0 <= z < p && PowMod(y, 2, p) == PowMod(z, 2, p)
    ensures y == z || y + z == p
  {
    Square(y);
    Square(z);
    ModDifference(y * y, z * z, p);
    assert y * y - z * z == (y - z) * (y + z);
    Euclid(p, y - z, y + z);
    ModDifference(y, z, p);
    ModUnique(y, 0, y, p);
    ModUnique(z, 0, z, p);
    if (y + z) % p == 0 && y + z < p {
      ModUnique(y + z, 0, y + z, p);
    }
    if (y + z) % p == 0 && y + z >= p {
      ModUnique(y + z, 1, y + z - p, p);
    }
  }

  /** A nonzero square is a quadratic residue. */
  lemma {:induction false} SquareIsResidue(p: int, y: int)
    requires Prime(p) && p % 2 == 1 && y % p != 0
    ensures Pow(PowMod(y, 2, p), (p - 1) / 2) % p == 1
  {
    var r, h := PowMod(y, 2, p), (p - 1) / 2;
    Square(y);
    Fermat(p, y);
    ModUnique(r, 0, r, p);
    PowCongruent(r, y * y, h, p);
    PowProduct(y, y, h);
    PowAdd(y, h, h);
  }

  /** Whenever r = y^2 has a root at all, r^((p+1)/4) is one. */
  lemma {:induction false} ComputedRoot(p: int, y: int)
    requires Prime(p) && p % 4 == 3 && 0 <= y < p
    ensures PowMod(PowMod(PowMod(y, 2, p), (p + 1) / 4, p), 2, p) == PowMod(y, 2, p)
  {
    hide Pow;
    var r := PowMod(y, 2, p);
    var z := PowMod(r, (p + 1) / 4, p);
    Square(z);
    ModUnique(r, 0, r, p);
    if y == 0 {
      Square(0);
      PowZero((p + 1) / 4);
    } else {
      ModUnique(y, 0, y, p);
      SquareIsResidue(p, y);
      RootOfResidue(p, r);
    }
  }
}
