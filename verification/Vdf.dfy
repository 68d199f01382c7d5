/** The Sloth verifiable delay function: iterated modular square roots. */
module Vdf {
  import opened NumberTheory
  import opened Bytes

  const FIELD: int := 64106875808534963770974826322234655855469213855659218736479077548818158667371

  /** The code accepts a string, read as big-endian bytes, or a number. */
  datatype Input = Text(data: bytes) | Number(n: int)

  function Seed(input: Input): int {
    match input
    case Text(data) => IntFromBytes(data)
    case Number(n) => n
  }

  predicate QuadRes(x: int, p: int)
    requires p > 0
  {
    PowMod(x, (p - 1) / 2, p) == 1
  }

  function ModSqrtOp(x: int, p: int): int
    requires p > 0
  {
    if QuadRes(x, p) then PowMod(x, (p + 1) / 4, p)
    else PowMod((-x) % p, (p + 1) / 4, p)
  }

  /** x after t square-root operations. */
  function RootChain(x: int, t: nat, p: int): int
    requires p > 0
  {
    if t == 0 then x else ModSqrtOp(RootChain(x, t - 1, p), p)
  }

  /** y after t squarings. */
  function SquareChain(y: int, t: nat, p: int): int
    requires p > 0
  {
    if t == 0 then y else PowMod(SquareChain(y, t - 1, p), 2, p)
  }

  /** y equals x or -x modulo p. */
  predicate PlusMinus(y: int, x: int, p: int)
    requires p > 0
  {
    y % p == x % p || y % p == (-x) % p
  }

  /** What `verify_proof` tests, as it tests it. */
  predicate Accepts(x: int, proof: int, t: nat, p: int)
    requires p > 0
  {
    var y := SquareChain(proof, t, p);
    var z := if QuadRes(y, p) then y else (-y) % p;
    (x % p) % p == z || (-(x % p)) % p == z
  }

  class VDFPrimitive {
    const iterations: nat
    const p: int

    constructor (iterations: nat)
      ensures this.iterations == iterations && p == FIELD
    {
      this.iterations := iterations;
      p := FIELD;
    }

    method CreateProof(input: Input) returns (x: int)
      requires p > 0
      ensures x == RootChain(Seed(input) % p, iterations, p)
    {
      x := Seed(input);
      x := x % p;
      for i := 0 to iterations
        invariant x == RootChain(Seed(input) % p, i, p)
      {
        x := ModSqrtOp(x, p);
      }
    }

    method VerifyProof(input: Input, proof: int) returns (ok: bool)
      requires p > 0
      ensures ok == Accepts(Seed(input), proof, iterations, p)
    {
      var x := Seed(input);
      x := x % p;
      var y := proof;
      for i := 0 to iterations
        invariant y == SquareChain(proof, i, p)
      {
        y := PowMod(y, 2, p);
      }
      if !QuadRes(y, p) {
        y := (-y) % p;
      }
      return x % p == y || (-x) % p == y;
    }
  }

  // ------------------------------------------------------------------ laws

  /** The constant satisfies the congruence the method needs. */
  lemma FieldMod4()
    ensures FIELD % 4 == 3
  {
  }

  /** One square-root operation, squared, gives back its argument up to sign. */
  lemma {:induction false} SqrtThenSquare(x: int, p: int)
    requires Prime(p) && p % 4 == 3
    ensures PlusMinus(PowMod(ModSqrtOp(x, p), 2, p), x, p)
  {
    var y, n := ModSqrtOp(x, p), (-x) % p;
    assert Pow(y, 2) == y * Pow(y, 1) == y * y;
    ModUnique((y * y) % p, 0, (y * y) % p, p);
    ModUnique(n, 0, n, p);
    if QuadRes(x, p) {
      RootOfResidue(p, x);
    } else if x % p != 0 {
      NegatedResidue(p, x);
      RootOfResidue(p, n);
    } else {
      ModNegate(x, 0, p);
      PowZero((p + 1) / 4);
    }
  }

  lemma {:induction false} PlusMinusSquare(y: int, x: int, p: int)
    requires p > 0 && PlusMinus(y, x, p)
    ensures PowMod(y, 2, p) == PowMod(x, 2, p)
  {
    if y % p == x % p {
      PowCongruent(y, x, 2, p);
    } else {
      PowCongruent(y, -x, 2, p);
      assert Pow(-x, 2) == (-x) * Pow(-x, 1) == x * x;
      assert Pow(x, 2) == x * Pow(x, 1) == x * x;
    }
  }

  /** Squaring first or last makes no difference. */
  lemma {:induction false} SquareFirst(y: int, t: nat, p: int)
    requires p > 0 && t > 0
    ensures SquareChain(y, t, p) == SquareChain(PowMod(y, 2, p), t - 1, p)
  {
    if t > 1 {
      SquareFirst(y, t - 1, p);
    }
  }

  /** A sign is lost by the first squaring. */
  lemma {:induction false} SignIsSquaredAway(y: int, x: int, t: nat, p: int)
    requires p > 0 && PlusMinus(y, x, p)
    ensures PlusMinus(SquareChain(y, t, p), SquareChain(x, t, p), p)
  {
    if t > 0 {
      PlusMinusSquare(y, x, p);
      SquareFirst(y, t, p);
      SquareFirst(x, t, p);
    }
  }

  lemma {:induction false} PlusMinusTransitive(a: int, b: int, c: int, p: int)
    requires p > 0 && PlusMinus(a, b, p) && PlusMinus(b, c, p)
    ensures PlusMinus(a, c, p)
  {
    if b % p == c % p {
      ModNegate(b, c, p);
    } else {
      ModNegate(b, -c, p);
    }
  }

  lemma {:induction false} ChainRoundTrip(x: int, t: nat, p: int)
    requires Prime(p) && p % 4 == 3
    ensures PlusMinus(SquareChain(RootChain(x, t, p), t, p), x, p)
  {
    if t > 0 {
      var r := RootChain(x, t - 1, p);
      SqrtThenSquare(r, p);
      SquareFirst(ModSqrtOp(r, p), t, p);
      SignIsSquaredAway(PowMod(ModSqrtOp(r, p), 2, p), r, t - 1, p);
      ChainRoundTrip(x, t - 1, p);
      PlusMinusTransitive(SquareChain(ModSqrtOp(r, p), t, p), SquareChain(r, t - 1, p), x, p);
    }
  }

  lemma {:induction false} SquareChainPower(y: int, t: nat, p: int)
    requires p > 0
    ensures SquareChain(y, t, p) % p == Pow(y, Pow2(t)) % p
  {
    if t == 0 {
      assert Pow(y, 1) == y * Pow(y, 0) == y;
    } else {
      var s, e := SquareChain(y, t - 1, p), Pow2(t - 1);
      SquareChainPower(y, t - 1, p);
      PowCongruent(s, Pow(y, e), 2, p);
      assert Pow(Pow(y, e), 2) == Pow(y, e) * Pow(Pow(y, e), 1) == Pow(y, e) * Pow(y, e);
      PowAdd(y, e, e);
      ModUnique(PowMod(s, 2, p), 0, PowMod(s, 2, p), p);
    }
  }

  /** The sign flip of the verifier is harmless once the result is reduced. */
  lemma {:induction false} AcceptsReduced(x: int, proof: int, t: nat, p: int)
    requires p > 0 && 0 <= SquareChain(proof, t, p) < p
    ensures Accepts(x, proof, t, p) <==> PlusMinus(SquareChain(proof, t, p), x, p)
  {
    var y, r := SquareChain(proof, t, p), x % p;
    ModUnique(y, 0, y, p);
    ModUnique(r, 0, r, p);
    ModNegate(r, x, p);
    if QuadRes(y, p) {
    } else {
      var z := (-y) % p;
      ModUnique(z, 0, z, p);
      if y % p == x % p {
        ModNegate(y, x, p);
      }
      if y % p == (-x) % p {
        ModNegate(y, -x, p);
      }
      if z == x % p {
        ModNegate(-y, x, p);
      }
      if z == (-x) % p {
        ModNegate(-y, -x, p);
      }
    }
  }

  /** With at least one iteration, a proof y is accepted exactly when y^(2^t) is x or -x. */
  lemma {:induction false} AcceptanceExact(x: int, proof: int, t: nat, p: int)
    requires p > 0 && t >= 1
    ensures Accepts(x, proof, t, p) <==> PlusMinus(Pow(proof, Pow2(t)), x, p)
  {
    AcceptsReduced(x, proof, t, p);
    SquareChainPower(proof, t, p);
  }

  /** Completeness: every honest proof is accepted, for every input and iteration count. */
  lemma {:induction false} Completeness(input: Input, t: nat, p: int)
    requires Prime(p) && p % 4 == 3
    ensures Accepts(Seed(input), RootChain(Seed(input) % p, t, p), t, p)
  {
    var x := Seed(input);
    var y := RootChain(x % p, t, p);
    ChainRoundTrip(x % p, t, p);
    ModUnique(x % p, 0, x % p, p);
    ModNegate(x % p, x, p);
    AcceptsReduced(x, y, t, p);
  }

  // ------------------------------------------------------------------ soundness

  lemma PlusMinusSymmetric(a: int, b: int, p: int)
    requires p > 0 && PlusMinus(a, b, p)
    ensures PlusMinus(b, a, p)
  {
    if a % p != b % p {
      ModNegate(a, -b, p);
    }
  }

  /** The negative of a square is no square, except for zero. */
  lemma {:induction false} NoNegativeSquare(u: int, v: int, p: int)
    requires Prime(p) && p % 4 == 3 && PowMod(u, 2, p) == (-PowMod(v, 2, p)) % p
    ensures PowMod(u, 2, p) == PowMod(v, 2, p)
  {
    hide Pow;
    var q, r := PowMod(u, 2, p), PowMod(v, 2, p);
    ModUnique(r, 0, r, p);
    ModUnique(q, 0, q, p);
    if r != 0 {
      NonZeroSquare(v, p);
      if q == 0 {
        ModNegate(-r, 0, p);
      } else {
        NonZeroSquare(u, p);
        SquareIsResidue(p, u);
        SquareIsResidue(p, v);
        NegatedResidue(p, r);
      }
    }
  }

  lemma {:induction false} NonZeroSquare(v: int, p: int)
    requires p > 0 && PowMod(v, 2, p) != 0
    ensures v % p != 0
  {
    if v % p == 0 {
      PowCongruent(v, 0, 2, p);
      PowZero(2);
    }
  }

  /** Squares that agree up to sign have roots that agree up to sign. */
  lemma {:induction false} RootsUpToSign(u: int, v: int, p: int)
    requires Prime(p) && p % 4 == 3 && PlusMinus(PowMod(u, 2, p), PowMod(v, 2, p), p)
    ensures PlusMinus(u, v, p)
  {
    hide Pow;
    ModUnique(PowMod(u, 2, p), 0, PowMod(u, 2, p), p);
    ModUnique(PowMod(v, 2, p), 0, PowMod(v, 2, p), p);
    if PowMod(u, 2, p) != PowMod(v, 2, p) {
      NoNegativeSquare(u, v, p);
    }
    var a, b := u % p, v % p;
    ModUnique(a, 0, a, p);
    ModUnique(b, 0, b, p);
    PowCongruent(u, a, 2, p);
    PowCongruent(v, b, 2, p);
    RootsAgree(p, a, b);
    if a + b == p {
      ModNegate(v, b, p);
      ModUnique(-b, -1, a, p);
    }
  }

  lemma {:induction false} ChainsUpToSign(u: int, v: int, t: nat, p: int)
    requires Prime(p) && p % 4 == 3 && PlusMinus(SquareChain(u, t, p), SquareChain(v, t, p), p)
    ensures PlusMinus(u, v, p)
  {
    if t > 0 {
      RootsUpToSign(SquareChain(u, t - 1, p), SquareChain(v, t - 1, p), p);
      ChainsUpToSign(u, v, t - 1, p);
    }
  }

  /** Soundness: with at least one iteration the accepted proofs are the created one and its negative. */
  lemma {:induction false} Soundness(x: int, proof: int, t: nat, p: int)
    requires Prime(p) && p % 4 == 3 && t >= 1
    ensures Accepts(x, proof, t, p) <==> PlusMinus(proof, RootChain(x % p, t, p), p)
  {
    hide Accepts, PlusMinus, RootChain;
    var r := RootChain(x % p, t, p);
    AcceptsReduced(x, proof, t, p);
    ChainRoundTrip(x % p, t, p);
    Reduced(SquareChain(r, t, p), x, p);
    if PlusMinus(proof, r, p) {
      SignIsSquaredAway(proof, r, t, p);
      PlusMinusTransitive(SquareChain(proof, t, p), SquareChain(r, t, p), x, p);
    }
    if PlusMinus(SquareChain(proof, t, p), x, p) {
      PlusMinusSymmetric(SquareChain(r, t, p), x, p);
      PlusMinusTransitive(SquareChain(proof, t, p), x, SquareChain(r, t, p), p);
      ChainsUpToSign(proof, r, t, p);
    }
  }

  lemma {:induction false} Reduced(y: int, x: int, p: int)
    requires p > 0 && PlusMinus(y, x % p, p)
    ensures PlusMinus(y, x, p)
  {
    ModUnique(x % p, 0, x % p, p);
    ModNegate(x % p, x, p);
  }
}
