/** Multiples in a commutative group, the part of group theory that Schnorr signatures use. */
module Groups {
  import opened NumberTheory

  datatype Group<!T> = Group(add: (T, T) -> T, zero: T, member: T -> bool)

  // Each law is one predicate of its arguments, so that a proof names the instance it uses.

  ghost predicate Closed<T>(g: Group<T>, a: T, b: T) {
    g.member(a) && g.member(b) ==> g.member(g.add(a, b))
  }

  ghost predicate Unital<T>(g: Group<T>, a: T) {
    g.member(a) ==> g.add(g.zero, a) == a
  }

  ghost predicate Commutes<T>(g: Group<T>, a: T, b: T) {
    g.member(a) && g.member(b) ==> g.add(a, b) == g.add(b, a)
  }

  ghost predicate Associates<T>(g: Group<T>, a: T, b: T, c: T) {
    g.member(a) && g.member(b) && g.member(c) ==> g.add(g.add(a, b), c) == g.add(a, g.add(b, c))
  }

  ghost predicate Laws<T(!new)>(g: Group<T>) {
    && g.member(g.zero)
    && (forall a, b :: Closed(g, a, b))
    && (forall a :: Unital(g, a))
    && (forall a, b :: Commutes(g, a, b))
    && (forall a, b, c :: Associates(g, a, b, c))
  }

  /** k-fold addition of x. */
  function Times<T>(g: Group<T>, k: nat, x: T): T {
    if k == 0 then g.zero else g.add(Times(g, k - 1, x), x)
  }

  lemma {:induction false} TimesMember<T(!new)>(g: Group<T>, k: nat, x: T)
    requires Laws(g) && g.member(x)
    ensures g.member(Times(g, k, x))
  {
    if k > 0 {
      TimesMember(g, k - 1, x);
      assert Closed(g, Times(g, k - 1, x), x);
    }
  }

  lemma {:induction false} TimesAdd<T(!new)>(g: Group<T>, a: nat, b: nat, x: T)
    requires Laws(g) && g.member(x)
    ensures Times(g, a + b, x) == g.add(Times(g, a, x), Times(g, b, x))
  {
    var u := Times(g, a, x);
    TimesMember(g, a, x);
    if b == 0 {
      assert Commutes(g, u, g.zero) && Unital(g, u);
    } else {
      TimesMember(g, b - 1, x);
      TimesAdd(g, a, b - 1, x);
      assert Times(g, a + b, x) == g.add(Times(g, a + (b - 1), x), x);
      assert Associates(g, u, Times(g, b - 1, x), x);
    }
  }

  /** One step of double-and-add. */
  lemma {:induction false} DoubleAndAdd<T(!new)>(g: Group<T>, k: nat, i: nat, x: T)
    requires Laws(g) && g.member(x)
    ensures Times(g, Pow2(i + 1), x) == g.add(Times(g, Pow2(i), x), Times(g, Pow2(i), x))
    ensures Times(g, k % Pow2(i + 1), x) ==
            if (k / Pow2(i)) % 2 == 1 then g.add(Times(g, k % Pow2(i), x), Times(g, Pow2(i), x))
            else Times(g, k % Pow2(i), x)
  {
    BitSplit(k, i);
    TimesAdd(g, k % Pow2(i), Pow2(i), x);
    TimesAdd(g, Pow2(i), Pow2(i), x);
  }

  lemma {:induction false} TimesZero<T(!new)>(g: Group<T>, k: nat)
    requires Laws(g)
    ensures Times(g, k, g.zero) == g.zero
  {
    if k > 0 {
      TimesZero(g, k - 1);
      assert Unital(g, g.zero);
    }
  }

  lemma {:induction false} TimesTimes<T(!new)>(g: Group<T>, a: nat, b: nat, x: T)
    requires Laws(g) && g.member(x)
    ensures a * b >= 0 && Times(g, a, Times(g, b, x)) == Times(g, a * b, x)
  {
    if a > 0 {
      TimesTimes(g, a - 1, b, x);
      TimesAdd(g, (a - 1) * b, b, x);
      assert a * b == (a - 1) * b + b;
    }
  }

  /** Multiples of an element of order n depend only on the remainder modulo n. */
  lemma {:induction false} TimesModulo<T(!new)>(g: Group<T>, k: nat, n: nat, x: T)
    requires Laws(g) && g.member(x) && n > 0 && Times(g, n, x) == g.zero
    ensures Times(g, k, x) == Times(g, k % n, x)
  {
    var q, r := k / n, k % n;
    assert k == q * n + r && q * n >= 0;
    TimesAdd(g, q * n, r, x);
    TimesTimes(g, q, n, x);
    TimesZero(g, q);
    TimesMember(g, r, x);
    assert Unital(g, Times(g, r, x));
  }

  /** An element that a prime n takes to zero, and that is not zero, has order exactly n. */
  lemma {:induction false} PrimeOrder<T(!new)>(g: Group<T>, n: nat, k: nat, x: T)
    requires Laws(g) && g.member(x) && Prime(n) && Times(g, n, x) == g.zero != x && 0 < k < n
    ensures Times(g, k, x) != g.zero
  {
    if k == 1 {
      assert Times(g, 1, x) == g.add(Times(g, 0, x), x) && Unital(g, x);
    } else {
      assert !Divides(k, n);
      if Times(g, k, x) == g.zero {
        TimesModulo(g, n, k, x);
        PrimeOrder(g, n, n % k, x);
      }
    }
  }

  /** Inverses are unique. */
  lemma {:induction false} InverseUnique<T(!new)>(g: Group<T>, a: T, b: T, c: T)
    requires Laws(g) && g.member(a) && g.member(b) && g.member(c)
    requires g.add(a, b) == g.zero && g.add(a, c) == g.zero
    ensures b == c
  {
    assert Associates(g, b, a, c) && Commutes(g, a, b) && Commutes(g, b, g.zero) && Unital(g, b) && Unital(g, c);
  }

  /** The response of a signer to a challenge. */
  function Response(k: nat, e: nat, d: nat, n: nat): (s: nat)
    requires n > 0
    ensures s < n
  {
    ProductNonNegative(e, d);
    (k + e * d) % n
  }

  lemma ProductNonNegative(a: nat, b: nat)
    ensures a * b >= 0
  {
  }

  lemma Complement(k: nat, e: nat, d: nat, n: nat)
    requires e <= n
    ensures k + e * d + (n - e) * d == k + d * n
  {
  }

  /** The response to a challenge solves the verification equation. */
  lemma {:induction false} ResponseSolves<T(!new)>(g: Group<T>, n: nat, x: T, k: nat, e: nat, d: nat)
    requires Laws(g) && g.member(x) && Times(g, n, x) == g.zero && k < n && e <= n
    ensures g.add(Times(g, Response(k, e, d, n), x), Times(g, n - e, Times(g, d, x))) == Times(g, k, x)
  {
    ProductNonNegative(e, d);
    ProductNonNegative(n - e, d);
    ProductNonNegative(d, n);
    TimesModulo(g, k + e * d, n, x);
    TimesTimes(g, n - e, d, x);
    TimesAdd(g, k + e * d, (n - e) * d, x);
    Complement(k, e, d, n);
    TimesModulo(g, k + d * n, n, x);
    ModShift(k, d, n);
    ModUnique(k, 0, k, n);
  }
}
