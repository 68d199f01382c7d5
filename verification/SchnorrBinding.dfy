/** What a signature is bound to: its key and its message, through the challenge and the nonce. */
module SchnorrBinding {
  import opened Common
  import opened NumberTheory
  import opened Bytes
  import opened Groups
  import opened Schnorr

  // ------------------------------------------------------------------ the verification equation

  /** The even point that verification reads from a public key, and its scalar. */
  lemma {:induction false} KeyPoint(c: Curve, d0: nat, pubkey: bytes) returns (P: Point, d: nat)
    requires CurveLaws(c) && 0 < d0 < c.n && PublicKey(c, d0, pubkey)
    ensures LiftX(c, IntFromBytes(pubkey)) == Some(P) && P.x == IntFromBytes(pubkey)
    ensures OnCurve(c, P) && P.y % 2 == 0 && 0 < d < c.n && Times(CurveGroup(c), d, Some(c.g)) == Some(P)
  {
    hide PointAdd, LiftX, Power256, IntFromBytes, BytesFromInt, Pow, PowMod;
    var Q: Point :| OnCurve(c, Q) && Times(CurveGroup(c), d0, Some(c.g)) == Some(Q) && pubkey == BytesFromInt(Q.x, 32);
    BytesRoundTrip(Q.x, 32);
    LiftXRecovers(c, Q);
    EvenPointOnCurve(c, Q);
    EvenMultiple(c, d0, Q);
    P, d := EvenPoint(c, Q), if HasEvenY(Q) then d0 else c.n - d0;
  }

  /** Two even points with one x-coordinate are the same. */
  lemma {:induction false} SameEven(c: Curve, Q: Point, R: Point)
    requires Prime(c.p) && c.p % 4 == 3 && OnCurve(c, Q) && OnCurve(c, R)
    requires Q.x == R.x && Q.y % 2 == 0 && R.y % 2 == 0
    ensures Q == R
  {
    hide Pow;
    RootsAgree(c.p, Q.y, R.y);
  }

  /** A multiple of the base point has an order that divides n. */
  lemma {:induction false} OrderOfKey(c: Curve, d: nat, P: Point)
    requires CurveLaws(c) && Times(CurveGroup(c), d, Some(c.g)) == Some(P)
    ensures OnCurve(c, P) && Times(CurveGroup(c), c.n, Some(P)) == None
  {
    hide PointAdd, OnCurve, Power256;
    var g := CurveGroup(c);
    BasePoint(c);
    TimesMember(g, d, Some(c.g));
    TimesTimes(g, c.n, d, Some(c.g));
    TimesTimes(g, d, c.n, Some(c.g));
    TimesZero(g, d);
    assert c.n * d == d * c.n;
  }

  /** A point that moved back by (n - e)*P moves forward again by e*P, and the reverse. */
  lemma {:induction false} BackAndForth(c: Curve, A: MaybePoint, B: MaybePoint, P: Point, e: nat)
    requires CurveLaws(c) && OnCurve(c, P) && Times(CurveGroup(c), c.n, Some(P)) == None && e <= c.n
    requires CurveGroup(c).member(A) && CurveGroup(c).member(B)
    ensures B == PointAdd(c, A, Times(CurveGroup(c), c.n - e, Some(P))) <==>
            A == PointAdd(c, B, Times(CurveGroup(c), e, Some(P)))
  {
    hide PointAdd, OnCurve, Power256;
    var g := CurveGroup(c);
    var u, v := Times(g, c.n - e, Some(P)), Times(g, e, Some(P));
    TimesMember(g, c.n - e, Some(P));
    TimesMember(g, e, Some(P));
    TimesAdd(g, c.n - e, e, Some(P));
    TimesAdd(g, e, c.n - e, Some(P));
    assert Associates(g, A, u, v) && Associates(g, B, v, u);
    assert Commutes(g, A, None) && Unital(g, A) && Commutes(g, B, None) && Unital(g, B);
  }

  ghost predicate Solves(c: Curve, P: Point, e: nat, r: nat, s: nat, R: Point)
    requires c.p >= 2
  {
    && OnCurve(c, R) && R.x == r && R.y % 2 == 0
    && Times(CurveGroup(c), s, Some(c.g)) == PointAdd(c, Some(R), Times(CurveGroup(c), e, Some(P)))
  }

  /** The equation that is checked by subtraction is s*G = R + e*P for an even point R with the given
      x-coordinate. */
  lemma {:induction false} EquationSolved(c: Curve, P: Point, d: nat, e: nat, r: nat, s: nat)
    requires CurveLaws(c) && Times(CurveGroup(c), d, Some(c.g)) == Some(P) && e <= c.n
    ensures Equation(c, Some(P), e, r, s) <==> exists R :: Solves(c, P, e, r, s, R)
  {
    hide PointAdd, OnCurve, Power256;
    var g := CurveGroup(c);
    OrderOfKey(c, d, P);
    BasePoint(c);
    TimesMember(g, s, Some(c.g));
    TimesMember(g, c.n - e, Some(P));
    var A, u := Times(g, s, Some(c.g)), Times(g, c.n - e, Some(P));
    assert Closed(g, A, u);
    if Equation(c, Some(P), e, r, s) {
      var B := PointAdd(c, A, u);
      BackAndForth(c, A, B, P, e);
      assert Solves(c, P, e, r, s, B.value);
    }
    if R :| Solves(c, P, e, r, s, R) {
      BackAndForth(c, A, Some(R), P, e);
    }
  }

  /** s*G = R + e*P for even points P and R of the given x-coordinates. */
  ghost predicate Signs(c: Curve, key: nat, e: nat, r: nat, s: nat, P: Point, R: Point)
    requires c.p >= 2
  {
    P.x == key && P.y % 2 == 0 && OnCurve(c, P) && Solves(c, P, e, r, s, R)
  }

  ghost predicate Signed(c: Curve, key: nat, e: nat, r: nat, s: nat)
    requires c.p >= 2
  {
    exists P, R :: Signs(c, key, e, r, s, P, R)
  }

  /** A signature verifies if and only if both halves are in range and s*G = R + e*P, where e is the hash
      of the first half, the public key and the message. */
  lemma {:induction false} VerifiesExactly(c: Curve, tagged: TaggedHash, msg: bytes, d0: nat, pubkey: bytes, sig: bytes)
    requires CurveLaws(c) && 0 < d0 < c.n && PublicKey(c, d0, pubkey) && |pubkey| == 32 && |sig| == 64
    ensures var r, s := IntFromBytes(sig[0..32]), IntFromBytes(sig[32..64]);
            var e := IntFromBytes(tagged("BIP0340/challenge", sig[0..32] + pubkey + msg)) % c.n;
            Verifies(c, tagged, msg, pubkey, sig) <==>
            r < c.p && s < c.n && Signed(c, IntFromBytes(pubkey), e, r, s)
  {
    hide PointAdd, LiftX, Power256, IntFromBytes, PowMod, Equation, Solves, Signs, PublicKey, OnCurve, Signed;
    var P, d := KeyPoint(c, d0, pubkey);
    var r, s := IntFromBytes(sig[0..32]), IntFromBytes(sig[32..64]);
    var e := IntFromBytes(tagged("BIP0340/challenge", sig[0..32] + pubkey + msg)) % c.n;
    SignedByKey(c, IntFromBytes(pubkey), P, d, e, r, s);
  }

  lemma {:induction false} SignedByKey(c: Curve, key: nat, P: Point, d: nat, e: nat, r: nat, s: nat)
    requires CurveLaws(c) && Times(CurveGroup(c), d, Some(c.g)) == Some(P) && e <= c.n
    requires P.x == key && P.y % 2 == 0 && OnCurve(c, P)
    ensures Equation(c, Some(P), e, r, s) <==> Signed(c, key, e, r, s)
  {
    hide PointAdd, Power256, PowMod, Equation, Solves;
    EquationSolved(c, P, d, e, r, s);
    if R :| Solves(c, P, e, r, s, R) {
      assert Signs(c, key, e, r, s, P, R);
    }
    if Q, R :| Signs(c, key, e, r, s, Q, R) {
      SameEven(c, Q, P);
    }
  }

  // ------------------------------------------------------------------ one signature, one challenge

  /** Two multiples of a key that agree below n have the same factor. */
  lemma {:induction false} FactorsAgree(c: Curve, P: Point, d: nat, e: nat, f: nat)
    requires CurveLaws(c) && Prime(c.n) && Times(CurveGroup(c), d, Some(c.g)) == Some(P) && e <= f <= c.n && f - e < c.n
    requires Times(CurveGroup(c), e, Some(P)) == Times(CurveGroup(c), f, Some(P))
    ensures e == f
  {
    hide PointAdd, OnCurve, Power256;
    var g := CurveGroup(c);
    OrderOfKey(c, d, P);
    if e < f {
      var k := f - e;
      TimesMember(g, e, Some(P));
      TimesMember(g, k, Some(P));
      TimesMember(g, c.n - e, Some(P));
      TimesAdd(g, e, k, Some(P));
      TimesAdd(g, c.n - e, e, Some(P));
      var u, v, w := Times(g, c.n - e, Some(P)), Times(g, e, Some(P)), Times(g, k, Some(P));
      assert Associates(g, u, v, w) && Unital(g, w);
      PrimeOrder(g, c.n, k, Some(P));
    }
  }

  /** A signature that passes for two messages under one key has one challenge for both: it passes for
      another message only where the hashes of the two agree. */
  lemma {:induction false} SignatureBindsMessage(c: Curve, tagged: TaggedHash, d0: nat, pubkey: bytes, sig: bytes,
      m1: bytes, m2: bytes)
    requires CurveLaws(c) && Prime(c.n) && 0 < d0 < c.n && PublicKey(c, d0, pubkey) && |pubkey| == 32 && |sig| == 64
    requires Verifies(c, tagged, m1, pubkey, sig)
    ensures Verifies(c, tagged, m2, pubkey, sig) <==>
            IntFromBytes(tagged("BIP0340/challenge", sig[0..32] + pubkey + m1)) % c.n ==
            IntFromBytes(tagged("BIP0340/challenge", sig[0..32] + pubkey + m2)) % c.n
  {
    hide PointAdd, LiftX, Power256, IntFromBytes, Pow, PowMod, Verifies, Solves;
    var e1 := IntFromBytes(tagged("BIP0340/challenge", sig[0..32] + pubkey + m1)) % c.n;
    var e2 := IntFromBytes(tagged("BIP0340/challenge", sig[0..32] + pubkey + m2)) % c.n;
    VerifiesExactly(c, tagged, m1, d0, pubkey, sig);
    VerifiesExactly(c, tagged, m2, d0, pubkey, sig);
    if Verifies(c, tagged, m2, pubkey, sig) {
      var P, d := KeyPoint(c, d0, pubkey);
      var r, s := IntFromBytes(sig[0..32]), IntFromBytes(sig[32..64]);
      var P1, R1 :| Signs(c, P.x, e1, r, s, P1, R1);
      var P2, R2 :| Signs(c, P.x, e2, r, s, P2, R2);
      SameEven(c, P1, P);
      SameEven(c, P2, P);
      ChallengesAgree(c, P, d, e1, e2, r, s, R1, R2);
    }
  }

  lemma {:induction false} ChallengesAgree(c: Curve, P: Point, d: nat, e1: nat, e2: nat, r: nat, s: nat, R1: Point,
      R2: Point)
    requires CurveLaws(c) && Prime(c.n) && Times(CurveGroup(c), d, Some(c.g)) == Some(P)
    requires e1 < c.n && e2 < c.n && s < c.n
    requires Solves(c, P, e1, r, s, R1) && Solves(c, P, e2, r, s, R2)
    ensures e1 == e2
  {
    hide PointAdd, Power256, PowMod;
    SameEven(c, R1, R2);
    OrderOfKey(c, d, P);
    BasePoint(c);
    hide OnCurve;
    var g := CurveGroup(c);
    var A := Times(g, s, Some(c.g));
    TimesMember(g, s, Some(c.g));
    TimesMember(g, c.n - e1, Some(P));
    TimesMember(g, c.n - e2, Some(P));
    BackAndForth(c, A, Some(R1), P, e1);
    BackAndForth(c, A, Some(R1), P, e2);
    SameAddend(c, s, Times(g, c.n - e1, Some(P)), Times(g, c.n - e2, Some(P)));
    if e1 <= e2 {
      FactorsAgree(c, P, d, c.n - e2, c.n - e1);
    } else {
      FactorsAgree(c, P, d, c.n - e1, c.n - e2);
    }
  }

  lemma {:induction false} SameAddend(c: Curve, s: nat, A: MaybePoint, B: MaybePoint)
    requires CurveLaws(c) && s <= c.n && CurveGroup(c).member(A) && CurveGroup(c).member(B)
    requires PointAdd(c, Times(CurveGroup(c), s, Some(c.g)), A) == PointAdd(c, Times(CurveGroup(c), s, Some(c.g)), B)
    ensures A == B
  {
    hide PointAdd, Power256, OnCurve;
    BasePoint(c);
    var g := CurveGroup(c);
    var u, v := Times(g, c.n - s, Some(c.g)), Times(g, s, Some(c.g));
    TimesMember(g, c.n - s, Some(c.g));
    TimesMember(g, s, Some(c.g));
    TimesAdd(g, c.n - s, s, Some(c.g));
    assert Associates(g, u, v, A) && Associates(g, u, v, B) && Unital(g, A) && Unital(g, B);
  }

  // ------------------------------------------------------------------ the nonce

  /** The i-th binary digit, from the lowest. */
  function Digit(a: nat, i: nat): int { if i == 0 then a % 2 else Digit(a / 2, i - 1) }

  /** A binary digit of the result is one where exactly one of the two digits is. */
  lemma {:induction false} XorDigit(a: nat, b: nat, i: nat)
    ensures Digit(Xor(a, b), i) == if Digit(a, i) == Digit(b, i) then 0 else 1
  {
    XorHalves(a, b);
    hide Xor;
    if i > 0 {
      XorDigit(a / 2, b / 2, i - 1);
    }
  }

  lemma XorHalves(a: nat, b: nat)
    ensures Xor(a, b) / 2 == Xor(a / 2, b / 2)
    ensures Xor(a, b) % 2 == if a % 2 == b % 2 then 0 else 1
  {
  }

  lemma {:induction false} XorCancelsLeft(a: nat, b: nat, t: nat)
    ensures Xor(a, t) == Xor(t, a)
    ensures Xor(a, t) == Xor(b, t) ==> a == b
    decreases a + b + t
  {
    XorHalves(a, t);
    XorHalves(t, a);
    XorHalves(b, t);
    if a != 0 || b != 0 || t != 0 {
      XorCancelsLeft(a / 2, b / 2, t / 2);
      hide Xor;
    }
  }

  lemma {:induction false} XorByteCancels(x: byte, y: byte, t: byte)
    ensures XorByte(x, t) == XorByte(y, t) ==> x == y
    ensures XorByte(t, x) == XorByte(t, y) ==> x == y
  {
    hide Xor;
    XorCancelsLeft(x as int, y as int, t as int);
    XorCancelsLeft(y as int, x as int, t as int);
  }

  lemma {:induction false} XorAt(a: bytes, b: bytes, k: nat)
    requires |a| == |b| && k < |a|
    ensures |XorBytes(a, b)| == |a| && XorBytes(a, b)[k] == XorByte(a[k], b[k])
  {
    hide XorByte;
    if |a| > 1 {
      XorAt(a[1..], b[1..], if k == 0 then 0 else k - 1);
    }
  }

  lemma {:induction false} XorSize(a: bytes, b: bytes)
    requires |a| == |b|
    ensures |XorBytes(a, b)| == |a|
  {
    if a != [] {
      XorAt(a, b, 0);
    }
  }

  /** Either side of a bytewise exclusive or is fixed by the other and the result. */
  lemma {:induction false} XorCancels(a: bytes, b: bytes, t: bytes)
    requires |a| == |b| == |t|
    ensures |XorBytes(a, t)| == |XorBytes(t, a)| == |a|
    ensures XorBytes(a, t) == XorBytes(b, t) || XorBytes(t, a) == XorBytes(t, b) ==> a == b
  {
    hide XorBytes, XorByte;
    XorSize(a, t);
    XorSize(t, a);
    if XorBytes(a, t) == XorBytes(b, t) || XorBytes(t, a) == XorBytes(t, b) {
      forall k | 0 <= k < |a| ensures a[k] == b[k] {
        XorAt(a, t, k);
        XorAt(b, t, k);
        XorAt(t, a, k);
        XorAt(t, b, k);
        XorByteCancels(a[k], b[k], t[k]);
      }
    }
  }

  /** Parts of fixed length can be read off their concatenation. */
  lemma ThreeParts(a: bytes, b: bytes, m: bytes, a': bytes, b': bytes, m': bytes)
    requires |a| == |a'| && |b| == |b'|
    ensures a + b + m == a' + b' + m' ==> a == a' && b == b' && m == m'
  {
    var s, s' := a + b + m, a' + b' + m';
    assert s[..|a|] == a && s'[..|a|] == a';
    assert s[|a|..|a| + |b|] == b && s'[|a|..|a| + |b|] == b';
    assert s[|a| + |b|..] == m && s'[|a| + |b|..] == m';
  }

  lemma {:induction false} PowerAtLeast(n: nat)
    requires n >= 1
    ensures Power256(n) >= 256
  {
    if n > 1 {
      PowerAtLeast(n - 1);
    }
  }

  lemma {:induction false} BytesDiffer(x: int, y: int)
    requires 0 <= x < Power256(32) && 0 <= y < Power256(32) && x != y
    ensures BytesFromInt(x, 32) != BytesFromInt(y, 32)
  {
    BytesRoundTrip(x, 32);
    BytesRoundTrip(y, 32);
  }

  /** A hash that answers a1 or a2 for the auxiliary randomness, one for a given nonce input, else zero. */
  function Chosen(aux: bytes, a1: bytes, a2: bytes, input: bytes, one: bytes, zero: bytes): TaggedHash {
    (t: string, x: bytes) =>
      if t == "BIP0340/aux" then (if x == aux then a1 else a2)
      else if t == "BIP0340/nonce" && x == input then one
      else zero
  }

  lemma ChosenAnswers(aux: bytes, a1: bytes, a2: bytes, input: bytes, one: bytes, zero: bytes, x: bytes)
    ensures Chosen(aux, a1, a2, input, one, zero)("BIP0340/aux", x) == if x == aux then a1 else a2
    ensures Chosen(aux, a1, a2, input, one, zero)("BIP0340/nonce", x) == if x == input then one else zero
  {
    assert "BIP0340/aux"[8] != "BIP0340/nonce"[8];
  }

  /** The nonce depends on all it is made from: for two different secrets, pieces of auxiliary
      randomness, keys or messages some hash function gives different nonces. */
  lemma {:induction false} NonceDepends(c: Curve, d1: nat, aux1: bytes, P1: Point, m1: bytes, d2: nat, aux2: bytes,
      P2: Point, m2: bytes)
    returns (tagged: TaggedHash)
    requires 2 <= c.n < Power256(32) && d1 < Power256(32) && d2 < Power256(32)
    requires 0 <= P1.x < Power256(32) && 0 <= P2.x < Power256(32)
    requires d1 != d2 || aux1 != aux2 || P1.x != P2.x || m1 != m2
    ensures Nonce(c, tagged, m1, d1, aux1, P1) != Nonce(c, tagged, m2, d2, aux2, P2)
  {
    hide Power256, IntFromBytes, BytesFromInt, XorBytes, Chosen;
    PowerAtLeast(32);
    var one, zero := BytesFromInt(1, 32), BytesFromInt(0, 32);
    BytesRoundTrip(1, 32);
    BytesRoundTrip(0, 32);
    var b1, b2, x1, x2 := BytesFromInt(d1, 32), BytesFromInt(d2, 32), BytesFromInt(P1.x, 32), BytesFromInt(P2.x, 32);
    var a1 := if d1 == d2 && aux1 != aux2 then one else zero;
    var i1 := XorBytes(b1, a1) + x1 + m1;
    tagged := Chosen(aux1, a1, zero, i1, one, zero);
    var a2 := tagged("BIP0340/aux", aux2);
    ChosenAnswers(aux1, a1, zero, i1, one, zero, aux1);
    ChosenAnswers(aux1, a1, zero, i1, one, zero, aux2);
    var i2 := XorBytes(b2, a2) + x2 + m2;
    ChosenAnswers(aux1, a1, zero, i1, one, zero, i1);
    ChosenAnswers(aux1, a1, zero, i1, one, zero, i2);
    InputsDiffer(b1, a1, x1, m1, b2, a2, x2, m2) by {
      if d1 != d2 { BytesDiffer(d1, d2); }
      if P1.x != P2.x { BytesDiffer(P1.x, P2.x); }
      BytesDiffer(1, 0);
    }
    ModUnique(1, 0, 1, c.n);
    ModUnique(0, 0, 0, c.n);
  }

  lemma {:induction false} InputsDiffer(b1: bytes, a1: bytes, x1: bytes, m1: bytes, b2: bytes, a2: bytes, x2: bytes,
      m2: bytes)
    requires |b1| == |a1| == |x1| == |b2| == |a2| == |x2|
    requires (b1 != b2 && a1 == a2) || (b1 == b2 && a1 != a2) || x1 != x2 || m1 != m2
    ensures XorBytes(b1, a1) + x1 + m1 != XorBytes(b2, a2) + x2 + m2
  {
    hide XorBytes;
    XorCancels(b1, b2, a1);
    XorCancels(a1, a2, b1);
    XorCancels(b2, b1, a2);
    ThreeParts(XorBytes(b1, a1), x1, m1, XorBytes(b2, a2), x2, m2);
  }
}
