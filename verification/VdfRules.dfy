/** The VDF's proof in one formula: which of the two numbers that are accepted is the one created. */
module VdfRules {
  import opened NumberTheory
  import opened Bytes
  import opened Vdf

  ghost predicate Root(z: int, y: int, p: int)
    requires p > 0
  {
    (z * z) % p == y
  }

  /** y is a square modulo p. */
  ghost predicate Squared(y: int, p: int)
    requires p > 0
  {
    exists z :: Root(z, y, p)
  }

  /** A square-root operation gives a square. */
  lemma {:induction false} SqrtIsSquare(x: int, p: int)
    requires Prime(p) && p % 4 == 3
    ensures Squared(ModSqrtOp(x, p), p)
  {
    var n := (-x) % p;
    ModUnique(n, 0, n, p);
    if QuadRes(x, p) {
      ResiduePower(x, p);
    } else if x % p != 0 {
      NegatedResidue(p, x);
      ResiduePower(n, p);
    } else {
      ModNegate(x, 0, p);
      PowZero((p + 1) / 4);
      assert Root(0, 0, p);
    }
  }

  lemma {:induction false} ResiduePower(r: int, p: int)
    requires Prime(p) && p % 4 == 3 && QuadRes(r, p)
    ensures Squared(PowMod(r, (p + 1) / 4, p), p)
  {
    hide Pow;
    var m := (p + 1) / 4;
    var s := Pow(r, m);
    RootOfResidue(p, r);
    ModUnique(s % p, 0, s % p, p);
    ModMulCongruent(s % p, s, s % p, s, p);
    PowerOfSquare(r, s, m, p);
  }

  lemma {:induction false} PowerOfSquare(r: int, s: int, m: nat, p: int)
    requires p > 0 && (s * s) % p == r % p
    ensures Squared(PowMod(r, m, p), p)
  {
    hide Pow;
    PowCongruent(r, s * s, m, p);
    PowProduct(s, s, m);
    assert Root(Pow(s, m), PowMod(r, m, p), p);
  }

  /** Of a number and its negative at most one is a square. */
  lemma {:induction false} SquaresAgree(y: int, w: int, p: int)
    requires Prime(p) && p % 4 == 3 && 0 <= y < p && 0 <= w < p && PlusMinus(y, w, p)
    requires Squared(y, p) && Squared(w, p)
    ensures y == w
  {
    ModUnique(y, 0, y, p);
    ModUnique(w, 0, w, p);
    if y != w {
      var u :| Root(u, y, p);
      var v :| Root(v, w, p);
      Square(u);
      Square(v);
      NoNegativeSquare(u, v, p);
    }
  }

  lemma {:induction false} RootChainBounds(x: int, t: nat, p: int)
    requires Prime(p) && p % 4 == 3 && t >= 1
    ensures 0 <= RootChain(x, t, p) < p && Squared(RootChain(x, t, p), p)
  {
    SqrtIsSquare(RootChain(x, t - 1, p), p);
  }

  /** The proof that is created is the one number below p that is a square and whose 2^t-th power is the
      input or its negative. */
  lemma {:induction false} CreatedExactly(x: int, y: int, t: nat, p: int)
    requires Prime(p) && p % 4 == 3 && t >= 1
    ensures y == RootChain(x % p, t, p) <==>
            && 0 <= y < p && Squared(y, p)
            && (Pow(y, Pow2(t)) % p == x % p || Pow(y, Pow2(t)) % p == (-x) % p)
  {
    hide RootChain, Accepts, Squared, Pow;
    var r := RootChain(x % p, t, p);
    RootChainBounds(x % p, t, p);
    Soundness(x, y, t, p);
    AcceptanceExact(x, y, t, p);
    if 0 <= y < p && Squared(y, p) && PlusMinus(y, r, p) {
      SquaresAgree(y, r, p);
    }
  }
}
