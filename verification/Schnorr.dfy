/** BIP-340 Schnorr signatures over a short Weierstrass curve y^2 = x^3 + 7. */
module Schnorr {
  import opened Common
  import opened NumberTheory
  import opened Bytes
  import opened Groups

  datatype Point = Point(x: int, y: int)

  /** None is the point at infinity. */
  type MaybePoint = Option<Point>

  datatype Curve = Curve(p: int, n: int, g: Point)

  const SECP256K1: Curve := Curve(
    0xFFFFFFFFFFFFFFFFFFFFFFFFFFFFFFFFFFFFFFFFFFFFFFFFFFFFFFFEFFFFFC2F,
    0xFFFFFFFFFFFFFFFFFFFFFFFFFFFFFFFEBAAEDCE6AF48A03BBFD25E8CD0364141,
    Point(0x79BE667EF9DCBBAC55A06295CE870B07029BFCDB2DCE28D959F2815B16F81798,
          0x483ADA7726A3C4655DA4FBFC0E1108A8FD17B448A68554199C47D08FFB10D4B8))

  function PointAdd(c: Curve, a: MaybePoint, b: MaybePoint): MaybePoint
    requires c.p >= 2
  {
    if a.None? then b
    else if b.None? then a
    else
      var P, Q := a.value, b.value;
      if P.x == Q.x && P.y != Q.y then None
      else
        var lam :=
          if P == Q then (3 * P.x * P.x * PowMod(2 * P.y, c.p - 2, c.p)) % c.p
          else ((Q.y - P.y) * PowMod(Q.x - P.x, c.p - 2, c.p)) % c.p;
        var x3 := (lam * lam - P.x - Q.x) % c.p;
        Some(Point(x3, (lam * (P.x - x3) - P.y) % c.p))
  }

  predicate OnCurve(c: Curve, P: Point) {
    c.p >= 2 && 0 <= P.x < c.p && 0 <= P.y < c.p && PowMod(P.y, 2, c.p) == (PowMod(P.x, 3, c.p) + 7) % c.p
  }

  /** The points of the curve under the code's own addition. */
  function CurveGroup(c: Curve): Group<MaybePoint>
    requires c.p >= 2
  {
    Group((a, b) => PointAdd(c, a, b), None, (a: MaybePoint) => a.None? || OnCurve(c, a.value))
  }

  /** What can be read off the curve's constants. */
  ghost predicate Constants(c: Curve) {
    && c.p % 4 == 3 && 7 < c.p <= Power256(32)
    && 2 <= c.n < Power256(32)
    && OnCurve(c, c.g)
  }

  /** What the proofs use; the base point has order exactly n. */
  ghost predicate CurveLaws(c: Curve) {
    && Constants(c) && Prime(c.p) && Laws(CurveGroup(c))
    && Times(CurveGroup(c), c.n, Some(c.g)) == None
    && (forall k: nat :: 0 < k < c.n ==> Times(CurveGroup(c), k, Some(c.g)) != None)
  }

  lemma BasePoint(c: Curve)
    requires Constants(c)
    ensures OnCurve(c, c.g)
  {
  }

  lemma {:induction false} ModPlus(a: int, b: int, p: int)
    requires p > 0
    ensures (a % p + b) % p == (a + b) % p
  {
    ModShift(a % p + b, a / p, p);
  }

  lemma {:induction false} SmallPowers(x: int)
    ensures Pow(x, 2) == x * x && Pow(x, 3) == x * x * x
  {
    assert Pow(x, 1) == x;
    var square := x * Pow(x, 1);
    assert Pow(x, 2) == square && Pow(x, 3) == x * square;
    assert x * square == square * x;
  }

  predicate HasEvenY(P: Point) { P.y % 2 == 0 }

  function LiftX(c: Curve, x: int): MaybePoint
    requires c.p >= 2
  {
    if x >= c.p then None
    else
      var ySq := (PowMod(x, 3, c.p) + 7) % c.p;
      var y := PowMod(ySq, (c.p + 1) / 4, c.p);
      if PowMod(y, 2, c.p) != ySq then None
      else Some(Point(x, if y % 2 == 0 then y else c.p - y))
  }

  // ------------------------------------------------------------------ double-and-add

  lemma {:induction false} PowersAgree(n: nat)
    ensures Pow2(8 * n) == Power256(n)
  {
    if n > 0 {
      PowersAgree(n - 1);
      var k := 8 * n - 8;
      assert Pow2(k + 1) == 2 * Pow2(k);
      assert Pow2(k + 2) == 2 * Pow2(k + 1);
      assert Pow2(k + 3) == 2 * Pow2(k + 2);
      assert Pow2(k + 4) == 2 * Pow2(k + 3);
      assert Pow2(k + 5) == 2 * Pow2(k + 4);
      assert Pow2(k + 6) == 2 * Pow2(k + 5);
      assert Pow2(k + 7) == 2 * Pow2(k + 6);
      assert Pow2(k + 8) == 2 * Pow2(k + 7);
    }
  }

  /** Double-and-add over 256 bits equals k-fold addition, for every 256-bit k. */
  method PointMul(c: Curve, point: MaybePoint, k: nat) returns (R: MaybePoint)
    requires CurveLaws(c) && CurveGroup(c).member(point) && k < Power256(32)
    ensures R == Times(CurveGroup(c), k, point)
    ensures CurveGroup(c).member(R)
  {
    hide Power256, PointAdd, OnCurve;
    ghost var g := CurveGroup(c);
    var P := point;
    R := None;
    assert Unital(g, point);
    for i := 0 to 256
      invariant R == Times(g, k % Pow2(i), point) && P == Times(g, Pow2(i), point)
    {
      DoubleAndAdd(g, k, i, point);
      if (k / Pow2(i)) % 2 == 1 {
        R := PointAdd(c, R, P);
      }
      P := PointAdd(c, P, P);
    }
    PowersAgree(32);
    ModUnique(k, 0, k, Pow2(256));
    TimesMember(g, k, point);
  }

  // ------------------------------------------------------------------ even points

  /** The point of the same x-coordinate with an even y-coordinate. */
  function EvenPoint(c: Curve, P: Point): Point {
    if HasEvenY(P) then P else Point(P.x, c.p - P.y)
  }

  /** Of a root and its negative, the even one is again a reduced root. */
  lemma {:induction false} EvenRoot(p: int, y: int)
    requires p % 4 == 3 && 0 <= y < p
    ensures var z := if y % 2 == 0 then y else p - y;
            0 <= z < p && z % 2 == 0 && PowMod(z, 2, p) == PowMod(y, 2, p)
  {
    hide Pow;
    SquareNegated(p, y);
  }

  lemma {:induction false} EvenPointOnCurve(c: Curve, P: Point)
    requires OnCurve(c, P) && c.p % 4 == 3
    ensures OnCurve(c, EvenPoint(c, P)) && HasEvenY(EvenPoint(c, P))
    ensures !HasEvenY(P) ==> PointAdd(c, Some(P), Some(EvenPoint(c, P))) == None
  {
    EvenRoot(c.p, P.y);
  }

  /** lift_x gives back the even version of any point from its x-coordinate. */
  lemma {:induction false} LiftXRecovers(c: Curve, P: Point)
    requires Prime(c.p) && c.p % 4 == 3 && OnCurve(c, P)
    ensures LiftX(c, P.x) == Some(EvenPoint(c, P))
  {
    hide Pow;
    ComputedRoot(c.p, P.y);
    SameEvenRoot(c.p, PowMod(PowMod(P.y, 2, c.p), (c.p + 1) / 4, c.p), P.y);
  }

  lemma {:induction false} SameEvenRoot(p: int, y: int, z: int)
    requires Prime(p) && p % 4 == 3 && 0 <= y < p && 0 <= z < p && PowMod(y, 2, p) == PowMod(z, 2, p)
    ensures (if y % 2 == 0 then y else p - y) == (if z % 2 == 0 then z else p - z)
  {
    RootsAgree(p, y, z);
  }

  lemma {:induction false} LiftXOnCurve(c: Curve, x: int)
    requires Prime(c.p) && c.p % 4 == 3 && x >= 0 && LiftX(c, x).Some?
    ensures OnCurve(c, LiftX(c, x).value) && HasEvenY(LiftX(c, x).value) && LiftX(c, x).value.x == x
  {
    hide Pow, PowMod;
    var y := PowMod((PowMod(x, 3, c.p) + 7) % c.p, (c.p + 1) / 4, c.p);
    PowModBounds((PowMod(x, 3, c.p) + 7) % c.p, (c.p + 1) / 4, c.p);
    EvenRoot(c.p, y);
  }

  lemma PowModBounds(x: int, e: nat, p: int)
    requires p > 0
    ensures 0 <= PowMod(x, e, p) < p
  {
  }

  /** Replacing a scalar by its negative modulo n when its multiple is odd makes it even. */
  lemma {:induction false} EvenMultiple(c: Curve, k0: nat, P: Point)
    requires CurveLaws(c) && 0 < k0 < c.n && Times(CurveGroup(c), k0, Some(c.g)) == Some(P)
    ensures var k := if HasEvenY(P) then k0 else c.n - k0;
            0 < k < c.n && Times(CurveGroup(c), k, Some(c.g)) == Some(EvenPoint(c, P))
  {
    hide PointAdd, PowMod, Power256;
    var g := CurveGroup(c);
    if !HasEvenY(P) {
      TimesMember(g, k0, Some(c.g));
      TimesMember(g, c.n - k0, Some(c.g));
      TimesAdd(g, k0, c.n - k0, Some(c.g));
      EvenPointOnCurve(c, P);
      InverseUnique(g, Some(P), Times(g, c.n - k0, Some(c.g)), Some(EvenPoint(c, P)));
    }
  }

  // ------------------------------------------------------------------ signing and verifying

  type TaggedHash = (string, bytes) -> bytes

  function Challenge(c: Curve, tagged: TaggedHash, r: bytes, pubkey: bytes, msg: bytes): nat
    requires c.n > 0
  {
    IntFromBytes(tagged("BIP0340/challenge", r + pubkey + msg)) % c.n
  }

  /** What verification computes, with k-fold addition for double-and-add. */
  ghost predicate Verifies(c: Curve, tagged: TaggedHash, msg: bytes, pubkey: bytes, sig: bytes)
    requires c.p >= 2 && c.n > 0 && |pubkey| == 32 && |sig| == 64
  {
    var P := LiftX(c, IntFromBytes(pubkey));
    var r, s := IntFromBytes(sig[0..32]), IntFromBytes(sig[32..64]);
    P.Some? && r < c.p && s < c.n &&
    Equation(c, P, Challenge(c, tagged, sig[0..32], pubkey, msg), r, s)
  }

  /** s*G - e*P is an even point with x-coordinate r. */
  ghost predicate Equation(c: Curve, P: MaybePoint, e: nat, r: int, s: nat)
    requires c.p >= 2 && e <= c.n
  {
    var R := PointAdd(c, Times(CurveGroup(c), s, Some(c.g)), Times(CurveGroup(c), c.n - e, P));
    R.Some? && HasEvenY(R.value) && R.value.x == r
  }

  /** The x-only public key of a secret scalar. */
  ghost predicate PublicKey(c: Curve, d0: nat, pubkey: bytes)
    requires CurveLaws(c)
  {
    exists P: Point :: OnCurve(c, P) && Times(CurveGroup(c), d0, Some(c.g)) == Some(P)
      && pubkey == BytesFromInt(P.x, 32)
  }

  datatype VerifyResult = BadLength | Verdict(ok: bool)

  method SchnorrVerify(c: Curve, tagged: TaggedHash, msg: bytes, pubkey: bytes, sig: bytes) returns (v: VerifyResult)
    requires CurveLaws(c)
    ensures v.BadLength? <==> |pubkey| != 32 || |sig| != 64
    ensures v.Verdict? ==> (v.ok <==> Verifies(c, tagged, msg, pubkey, sig))
  {
    hide PointAdd, LiftX, Power256, IntFromBytes, Pow;
    if |pubkey| != 32 || |sig| != 64 { return BadLength; }
    var P := LiftX(c, IntFromBytes(pubkey));
    var r := IntFromBytes(sig[0..32]);
    var s := IntFromBytes(sig[32..64]);
    if P.None? || r >= c.p || s >= c.n { return Verdict(false); }
    LiftXOnCurve(c, IntFromBytes(pubkey));
    var e := IntFromBytes(tagged("BIP0340/challenge", sig[0..32] + pubkey + msg)) % c.n;
    var ok := CheckEquation(c, P, e, r, s);
    return Verdict(ok);
  }

  method CheckEquation(c: Curve, P: MaybePoint, e: nat, r: int, s: nat) returns (ok: bool)
    requires CurveLaws(c) && CurveGroup(c).member(P) && e < c.n && s < c.n
    ensures ok <==> Equation(c, P, e, r, s)
  {
    hide PointAdd, Power256, IntFromBytes;
    var a := PointMul(c, Some(c.g), s);
    var b := PointMul(c, P, c.n - e);
    var R := PointAdd(c, a, b);
    return R.Some? && HasEvenY(R.value) && R.value.x == r;
  }

  function XorBytes(a: bytes, b: bytes): bytes {
    if a == [] || b == [] then []
    else [XorByte(a[0], b[0])] + XorBytes(a[1..], b[1..])
  }

  function XorByte(x: byte, y: byte): byte {
    XorBelow(x as int, y as int, 8);
    assert Pow2(4) == 16 && Pow2(8) == 256;
    Xor(x as int, y as int) as byte
  }

  /** Addition of binary digits without carrying. */
  function Xor(a: nat, b: nat): nat {
    if a == 0 && b == 0 then 0 else 2 * Xor(a / 2, b / 2) + if a % 2 == b % 2 then 0 else 1
  }

  lemma {:induction false} XorBelow(a: nat, b: nat, k: nat)
    requires a < Pow2(k) && b < Pow2(k)
    ensures Xor(a, b) < Pow2(k)
  {
    if a != 0 || b != 0 {
      XorBelow(a / 2, b / 2, k - 1);
    }
  }

  datatype SignResult = Signed(sig: bytes) | BadSecretKey | BadAux | ZeroNonce | SelfCheckFailed

  /** pubkey_gen: None stands for the range error. */
  method PubkeyGen(c: Curve, seckey: bytes) returns (pubkey: Option<bytes>)
    requires CurveLaws(c)
    ensures pubkey.Some? <==> 1 <= IntFromBytes(seckey) <= c.n - 1
    ensures pubkey.Some? ==> PublicKey(c, IntFromBytes(seckey), pubkey.value)
  {
    var d0 := IntFromBytes(seckey);
    if !(1 <= d0 <= c.n - 1) { return None; }
    var P := PointMul(c, Some(c.g), d0);
    return Some(BytesFromInt(P.value.x, 32));
  }

  /** The secret scalar whose multiple of G is the even version of P = d0*G. */
  function EvenScalar(c: Curve, d0: nat, P: Point): nat
    requires d0 <= c.n
  {
    if HasEvenY(P) then d0 else c.n - d0
  }

  function Nonce(c: Curve, tagged: TaggedHash, msg: bytes, d: nat, aux: bytes, P: Point): nat
    requires 0 < c.n && d < Power256(32) && 0 <= P.x < Power256(32)
  {
    var t := XorBytes(BytesFromInt(d, 32), tagged("BIP0340/aux", aux));
    IntFromBytes(tagged("BIP0340/nonce", t + BytesFromInt(P.x, 32) + msg)) % c.n
  }

  /** The signature that the secret d0 and the nonce k0 give. */
  function SignatureOf(c: Curve, tagged: TaggedHash, msg: bytes, d0: nat, k0: nat, P: Point, R: Point): (sig: bytes)
    requires 0 < d0 < c.n && 0 < k0 < c.n < Power256(32)
    requires 0 <= P.x < Power256(32) && 0 <= R.x < Power256(32)
    ensures |sig| == 64
  {
    var e := Challenge(c, tagged, BytesFromInt(R.x, 32), BytesFromInt(P.x, 32), msg);
    BytesFromInt(R.x, 32) + BytesFromInt(Response(EvenScalar(c, k0, R), e, EvenScalar(c, d0, P), c.n), 32)
  }

  /** P = d0*G and R = k0*G for the nonce k0 that the code derives. */
  ghost predicate SigningPoints(c: Curve, tagged: TaggedHash, msg: bytes, d0: nat, aux: bytes, k0: nat, P: Point,
      R: Point)
    requires CurveLaws(c)
  {
    && OnCurve(c, P) && OnCurve(c, R) && 0 < d0 < c.n && 0 < k0 < c.n
    && Times(CurveGroup(c), d0, Some(c.g)) == Some(P)
    && k0 == Nonce(c, tagged, msg, EvenScalar(c, d0, P), aux, P)
    && Times(CurveGroup(c), k0, Some(c.g)) == Some(R)
  }

  /** Every signature made with a nonzero nonce verifies: the self-check never fails. */
  method SchnorrSign(c: Curve, tagged: TaggedHash, msg: bytes, seckey: bytes, aux: bytes) returns (result: SignResult)
    requires CurveLaws(c)
    ensures result.BadSecretKey? <==> !(1 <= IntFromBytes(seckey) <= c.n - 1)
    ensures result.BadAux? <==> !result.BadSecretKey? && |aux| != 32
    ensures result.ZeroNonce? ==> exists P: Point ::
              OnCurve(c, P) && Times(CurveGroup(c), IntFromBytes(seckey), Some(c.g)) == Some(P) &&
              Nonce(c, tagged, msg, EvenScalar(c, IntFromBytes(seckey), P), aux, P) == 0
    ensures !result.SelfCheckFailed?
    ensures result.Signed? ==> exists k0, P, R ::
              SigningPoints(c, tagged, msg, IntFromBytes(seckey), aux, k0, P, R) &&
              result.sig == SignatureOf(c, tagged, msg, IntFromBytes(seckey), k0, P, R) &&
              Verifies(c, tagged, msg, BytesFromInt(P.x, 32), result.sig)
  {
    hide PointAdd, LiftX, Verifies, Power256, IntFromBytes, BytesFromInt, Pow;
    var d0 := IntFromBytes(seckey);
    if !(1 <= d0 <= c.n - 1) { return BadSecretKey; }
    if |aux| != 32 { return BadAux; }
    var P := PointMul(c, Some(c.g), d0);
    var d := if HasEvenY(P.value) then d0 else c.n - d0;
    var t := XorBytes(BytesFromInt(d, 32), tagged("BIP0340/aux", aux));
    var k0 := IntFromBytes(tagged("BIP0340/nonce", t + BytesFromInt(P.value.x, 32) + msg)) % c.n;
    assert k0 == Nonce(c, tagged, msg, EvenScalar(c, d0, P.value), aux, P.value);
    if k0 == 0 { return ZeroNonce; }
    var R := PointMul(c, Some(c.g), k0);
    var sig := MakeSignature(c, tagged, msg, d0, k0, P.value, R.value);
    SignatureVerifies(c, tagged, msg, d0, k0, P.value, R.value);
    var v := SchnorrVerify(c, tagged, msg, BytesFromInt(P.value.x, 32), sig);
    if v != Verdict(true) { return SelfCheckFailed; }
    assert SigningPoints(c, tagged, msg, d0, aux, k0, P.value, R.value);
    return Signed(sig);
  }

  /** The arithmetic of the signer once both points are known. */
  method MakeSignature(c: Curve, tagged: TaggedHash, msg: bytes, d0: nat, k0: nat, P: Point,
      R: Point) returns (sig: bytes)
    requires 0 < d0 < c.n && 0 < k0 < c.n < Power256(32)
    requires 0 <= P.x < Power256(32) && 0 <= R.x < Power256(32)
    ensures sig == SignatureOf(c, tagged, msg, d0, k0, P, R)
  {
    hide Power256, IntFromBytes, BytesFromInt;
    var d := if HasEvenY(P) then d0 else c.n - d0;
    var k := if !HasEvenY(R) then c.n - k0 else k0;
    var rBytes, pubkey := BytesFromInt(R.x, 32), BytesFromInt(P.x, 32);
    var e := IntFromBytes(tagged("BIP0340/challenge", rBytes + pubkey + msg)) % c.n;
    return rBytes + BytesFromInt(Response(k, e, d, c.n), 32);
  }

  /** The response of the signer satisfies the verifier's equation, for every challenge. */
  lemma {:induction false} SignedEquation(c: Curve, d0: nat, k0: nat, P: Point, R: Point, e: nat)
    requires CurveLaws(c) && 0 < d0 < c.n && 0 < k0 < c.n && OnCurve(c, P) && OnCurve(c, R) && e < c.n
    requires Times(CurveGroup(c), d0, Some(c.g)) == Some(P) && Times(CurveGroup(c), k0, Some(c.g)) == Some(R)
    ensures LiftX(c, P.x) == Some(EvenPoint(c, P))
    ensures Equation(c, LiftX(c, P.x), e, R.x, Response(EvenScalar(c, k0, R), e, EvenScalar(c, d0, P), c.n))
  {
    hide PointAdd, LiftX, Power256, IntFromBytes, Pow;
    EvenMultiple(c, d0, P);
    EvenMultiple(c, k0, R);
    LiftXRecovers(c, P);
    EvenPointOnCurve(c, R);
    ResponseSolves(CurveGroup(c), c.n, Some(c.g), EvenScalar(c, k0, R), e, EvenScalar(c, d0, P));
  }

  /** Round trip: for all secrets and all nonzero nonces, the signature verifies. */
  lemma {:induction false} SignatureVerifies(c: Curve, tagged: TaggedHash, msg: bytes, d0: nat, k0: nat, P: Point,
      R: Point)
    requires CurveLaws(c) && 0 < d0 < c.n && 0 < k0 < c.n && OnCurve(c, P) && OnCurve(c, R)
    requires Times(CurveGroup(c), d0, Some(c.g)) == Some(P) && Times(CurveGroup(c), k0, Some(c.g)) == Some(R)
    ensures Verifies(c, tagged, msg, BytesFromInt(P.x, 32), SignatureOf(c, tagged, msg, d0, k0, P, R))
  {
    hide Power256, IntFromBytes, BytesFromInt, PointAdd, LiftX, Pow;
    var rBytes, pubkey := BytesFromInt(R.x, 32), BytesFromInt(P.x, 32);
    var e := Challenge(c, tagged, rBytes, pubkey, msg);
    var s := Response(EvenScalar(c, k0, R), e, EvenScalar(c, d0, P), c.n);
    var sig := SignatureOf(c, tagged, msg, d0, k0, P, R);
    assert sig[0..32] == rBytes && sig[32..64] == BytesFromInt(s, 32);
    BytesRoundTrip(P.x, 32);
    BytesRoundTrip(R.x, 32);
    BytesRoundTrip(s, 32);
    SignedEquation(c, d0, k0, P, R, e);
  }
}
