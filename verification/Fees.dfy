/** Fee markets: which transactions a block takes, what each pays, and the EIP-1559 base fee. */
module Fees {
  import opened Common

  datatype FeePolicy = HighestFirst | Eip1559(minBaseFee: int) | MedianFee

  datatype BlockContext = BlockContext(maxTransactions: int, baseFee: int, target: Option<int>, parentCount: int,
    denominator: int)

  /** The limits a configuration is checked against. */
  ghost predicate SoundContext(c: BlockContext) {
    && c.maxTransactions >= 1 && c.baseFee >= 0 && c.parentCount >= 0 && c.denominator >= 1
    && (c.target.Some? ==> 1 <= c.target.value)
  }

  ghost predicate SoundFeePolicy(y: FeePolicy) { y.Eip1559? ==> y.minBaseFee >= 0 }

  function Max(a: int, b: int): int { if a >= b then a else b }

  function Min(a: int, b: int): int { if a <= b then a else b }

  // ------------------------------------------------------------------ the base fee

  function Target(c: BlockContext): int {
    if c.target.Some? then c.target.value else Max(1, c.maxTransactions / 2)
  }

  /** The share of the base fee by which it moves. */
  function Share(base: int, gap: int, t: int, d: int): int
    requires t >= 1 && d >= 1
  {
    base * gap / t / d
  }

  function NextBaseFee(y: FeePolicy, c: BlockContext): int
    requires SoundContext(c)
  {
    match y
    case Eip1559(minBaseFee) =>
      var t, base, d := Target(c), c.baseFee, c.denominator;
      var next :=
        if c.parentCount == t then base
        else if c.parentCount > t then base + Max(1, Share(base, c.parentCount - t, t, d))
        else base - Share(base, t - c.parentCount, t, d);
      Max(minBaseFee, next)
    case _ => c.baseFee
  }

  /** Two floor divisions in a row are one by the product. */
  lemma {:induction false} NestedFloor(x: int, a: int, b: int)
    requires x >= 0 && a >= 1 && b >= 1
    ensures a * b >= 1 && x / a / b == x / (a * b)
  {
    var q, r := x / a, x % a;
    var u, v := q / b, q % b;
    assert x == a * (b * u + v) + r;
    assert a * v + r < a * b by {
      assert a * v <= a * (b - 1);
      assert a * (b - 1) == a * b - a;
    }
    assert a * b >= 1;
    assert a * v >= 0;
    assert a * (b * u + v) == (a * b) * u + a * v;
    QuotientIs(x, a * b, u, a * v + r);
  }

  lemma {:induction false} QuotientIs(x: int, m: int, q: int, r: int)
    requires m >= 1 && x == m * q + r && 0 <= r < m
    ensures x / m == q
  {
    var e := x / m - q;
    assert m * e == r - x % m;
    assert e >= 1 ==> m * e >= m;
    assert e <= -1 ==> m * e <= -m;
  }

  lemma {:induction false} FloorMonotone(x: int, y: int, m: int)
    requires m >= 1 && x <= y
    ensures x / m <= y / m
  {
    var p, q := x / m, y / m;
    assert p > q ==> m * p >= m * (q + 1);
  }

  lemma {:induction false} ShareMonotone(b: int, b': int, g: int, g': int, t: int, d: int)
    requires 0 <= b <= b' && 0 <= g <= g' && t >= 1 && d >= 1
    ensures 0 <= Share(b, g, t, d) <= Share(b', g', t, d)
  {
    assert 0 <= b * g <= b' * g' by {
      assert b * g <= b' * g by { assert (b' - b) * g >= 0; }
      assert b' * g <= b' * g' by { assert b' * (g' - g) >= 0; }
      assert b * g >= 0;
    }
    FloorMonotone(0, b * g, t);
    FloorMonotone(b * g, b' * g', t);
    FloorMonotone(0, b * g / t, d);
    FloorMonotone(b * g / t, b' * g' / t, d);
  }

  /** A gap of at most the target moves the fee by at most one part in d. */
  lemma {:induction false} ShareBounded(b: int, g: int, t: int, d: int)
    requires 0 <= b && 0 <= g <= t && t >= 1 && d >= 1
    ensures 0 <= Share(b, g, t, d) <= b / d
  {
    ShareMonotone(b, b, g, t, t, d);
    ShareMonotone(b, b, 0, g, t, d);
    QuotientIs(b * t, t, b, 0);
  }

  /** A higher base fee loses at most its excess more. */
  lemma {:induction false} ShareSlow(b: int, b': int, g: int, t: int, d: int)
    requires 0 <= b <= b' && 0 <= g <= t && t >= 1 && d >= 1
    ensures Share(b', g, t, d) <= Share(b, g, t, d) + (b' - b)
  {
    var m := t * d;
    assert b * g >= 0 && b' * g >= 0;
    NestedFloor(b * g, t, d);
    NestedFloor(b' * g, t, d);
    GapSmall(b' - b, g, t, d);
    assert b' * g == b * g + (b' - b) * g;
    FloorMonotone(b' * g, b * g + (b' - b) * m, m);
    FloorShift(b * g, b' - b, m);
  }

  lemma {:induction false} GapSmall(e: int, g: int, t: int, d: int)
    requires e >= 0 && 0 <= g <= t && d >= 1
    ensures e * g <= e * (t * d)
  {
    assert t * (d - 1) >= 0;
    assert t * d == t + t * (d - 1);
    var gap := t * d - g;
    assert e * gap >= 0;
    assert e * (t * d) == e * g + e * gap;
  }

  lemma {:induction false} FloorShift(x: int, k: int, m: int)
    requires m >= 1
    ensures (x + k * m) / m == x / m + k
  {
    var q, r := x / m, x % m;
    assert m * (q + k) == m * q + k * m;
    QuotientIs(x + k * m, m, q + k, r);
  }

  function WithCount(c: BlockContext, n: int): BlockContext { c.(parentCount := n) }

  function WithBase(c: BlockContext, b: int): BlockContext { c.(baseFee := b) }

  /** A fuller parent block never means a lower base fee. */
  lemma {:induction false} BaseFeeMonotoneInCount(minBase: int, c: BlockContext, n: int, n': int)
    requires SoundContext(c) && 0 <= n <= n'
    ensures NextBaseFee(Eip1559(minBase), WithCount(c, n)) <= NextBaseFee(Eip1559(minBase), WithCount(c, n'))
  {
    var t, b, d := Target(c), c.baseFee, c.denominator;
    if n' < t {
      ShareMonotone(b, b, t - n', t - n, t, d);
    } else if n > t {
      ShareMonotone(b, b, n - t, n' - t, t, d);
    } else if n < t {
      ShareMonotone(b, b, 0, t - n, t, d);
    }
  }

  /** A higher base fee never means a lower next one. */
  lemma {:induction false} BaseFeeMonotoneInBase(minBase: int, c: BlockContext, b: int, b': int)
    requires SoundContext(c) && 0 <= b <= b'
    ensures NextBaseFee(Eip1559(minBase), WithBase(c, b)) <= NextBaseFee(Eip1559(minBase), WithBase(c, b'))
  {
    var t, n, d := Target(c), c.parentCount, c.denominator;
    if n > t {
      ShareMonotone(b, b', n - t, n - t, t, d);
    } else if n < t {
      ShareSlow(b, b', t - n, t, d);
    }
  }

  /** How far one block moves the base fee: never below the floor, down by at most a part in d,
      and, when the block held at most twice the target, up by at most that or one. */
  lemma {:induction false} BaseFeeStep(minBase: int, c: BlockContext)
    requires SoundContext(c)
    ensures var next := NextBaseFee(Eip1559(minBase), c);
            && next >= minBase
            && next >= c.baseFee - c.baseFee / c.denominator
            && (c.parentCount >= Target(c) ==> next >= c.baseFee)
            && (c.parentCount > Target(c) ==> next > c.baseFee)
            && (c.baseFee >= minBase && c.parentCount <= Target(c) ==> next <= c.baseFee)
            && (c.baseFee >= minBase && c.parentCount <= 2 * Target(c) ==>
                 next <= c.baseFee + Max(1, c.baseFee / c.denominator))
  {
    var t, b, d, n := Target(c), c.baseFee, c.denominator, c.parentCount;
    ShareBounded(b, 0, t, d);
    if n < t {
      ShareBounded(b, t - n, t, d);
    } else if t < n <= 2 * t {
      ShareBounded(b, n - t, t, d);
    }
  }

  // ------------------------------------------------------------------ empty blocks

  /** The base fee after k empty blocks. */
  function Idle(minBase: int, c: BlockContext, k: nat): int
    requires SoundContext(c) && minBase >= 0
    ensures k > 0 ==> Idle(minBase, c, k) >= minBase
    ensures Idle(minBase, c, k) >= 0
  {
    if k == 0 then c.baseFee
    else NextBaseFee(Eip1559(minBase), WithCount(WithBase(c, Idle(minBase, c, k - 1)), 0))
  }

  /** Where empty blocks lead: the floor, or just below the denominator if the floor is lower. */
  function Resting(minBase: int, c: BlockContext): int {
    Max(minBase, Min(c.baseFee, c.denominator - 1))
  }

  lemma {:induction false} EmptyStep(minBase: int, c: BlockContext, b: int)
    requires SoundContext(c) && minBase >= 0 && b >= 0
    ensures NextBaseFee(Eip1559(minBase), WithCount(WithBase(c, b), 0)) == Max(minBase, b - b / c.denominator)
    ensures b < c.denominator ==> b / c.denominator == 0
    ensures b >= c.denominator ==> b / c.denominator >= 1 && b - b / c.denominator >= c.denominator - 1
  {
    ShareAll(b, Target(c), c.denominator);
    hide Share;
    PartOf(b, c.denominator);
  }

  lemma {:induction false} ShareAll(b: int, t: int, d: int)
    requires t >= 1 && d >= 1
    ensures Share(b, t, t, d) == b / d
  {
    QuotientIs(b * t, t, b, 0);
  }

  lemma {:induction false} PartOf(b: int, d: int)
    requires b >= 0 && d >= 1
    ensures b < d ==> b / d == 0
    ensures b >= d ==> b / d >= 1 && b - b / d >= d - 1
  {
    if b >= d {
      var q, r := b / d, b % d;
      QuotientIs(d, d, 1, 0);
      FloorMonotone(d, b, d);
      PartMul(d, q);
    } else {
      QuotientIs(b, d, 0, b);
    }
  }

  lemma {:induction false} PartMul(d: int, q: int)
    requires d >= 1 && q >= 1
    ensures d * q - q >= d - 1
  {
    var z := (d - 1) * (q - 1);
    assert z >= 0;
    assert z == d * q - d - q + 1;
  }

  /** Empty blocks bring the base fee to its resting value, and keep it there. */
  lemma {:induction false} EmptyBlocksRest(minBase: int, c: BlockContext, k: nat)
    requires SoundContext(c) && minBase >= 0
    ensures k > 0 || c.baseFee >= minBase ==>
              Resting(minBase, c) <= Idle(minBase, c, k) <= Max(Resting(minBase, c), c.baseFee - k)
    ensures k > c.baseFee ==> Idle(minBase, c, k) == Resting(minBase, c)
  {
    if k > 0 {
      EmptyBlocksRest(minBase, c, k - 1);
      EmptyStep(minBase, c, Idle(minBase, c, k - 1));
    }
  }

  // ------------------------------------------------------------------ selection

  datatype Bid<T> = Bid(tx: T, fee: int)

  /** is_valid_fee, with no payload pricing. */
  predicate IsValidFee(y: FeePolicy, c: BlockContext, fee: int) {
    fee >= if y.Eip1559? then c.baseFee else 0
  }

  function Eligible<T>(y: FeePolicy, c: BlockContext, s: seq<Bid<T>>): seq<Bid<T>> {
    if s == [] then []
    else
      var front, b := Eligible(y, c, s[..|s| - 1]), s[|s| - 1];
      if IsValidFee(y, c, b.fee) then front + [b] else front
  }

  /** Sorting by falling fee; among equals, whoever came first stays first. */
  function Ranked<T>(s: seq<Bid<T>>): (r: seq<Bid<T>>)
    ensures |r| == |s|
  {
    if s == [] then [] else Place(Ranked(s[..|s| - 1]), s[|s| - 1])
  }

  function Place<T>(s: seq<Bid<T>>, b: Bid<T>): (r: seq<Bid<T>>)
    ensures |r| == |s| + 1
  {
    if s == [] || s[|s| - 1].fee >= b.fee then s + [b]
    else Place(s[..|s| - 1], b) + [s[|s| - 1]]
  }

  function Select<T>(y: FeePolicy, c: BlockContext, s: seq<Bid<T>>): seq<Bid<T>>
    requires c.maxTransactions >= 1
  {
    var ranked := Ranked(Eligible(y, c, s));
    if |ranked| <= c.maxTransactions then ranked else ranked[..c.maxTransactions]
  }

  ghost predicate Falling<T>(s: seq<Bid<T>>) {
    forall i, j :: 0 <= i < j < |s| ==> s[i].fee >= s[j].fee
  }

  lemma {:induction false} PlaceKeeps<T>(s: seq<Bid<T>>, b: Bid<T>)
    ensures multiset(Place(s, b)) == multiset(s) + multiset{b}
  {
    if s != [] && s[|s| - 1].fee < b.fee {
      assert s == s[..|s| - 1] + [s[|s| - 1]];
      PlaceKeeps(s[..|s| - 1], b);
    }
  }

  lemma {:induction false} PlaceRanks<T>(s: seq<Bid<T>>, b: Bid<T>)
    requires Falling(s)
    ensures Falling(Place(s, b))
  {
    if s != [] && s[|s| - 1].fee < b.fee {
      var front, z := s[..|s| - 1], s[|s| - 1];
      PlaceRanks(front, b);
      PlaceKeeps(front, b);
      forall i | 0 <= i < |Place(front, b)| ensures Place(front, b)[i].fee >= z.fee {
        var x := Place(front, b)[i];
        assert x in multiset(Place(front, b));
        assert x in front || x == b;
      }
    }
  }

  lemma {:induction false} RankedRanks<T>(s: seq<Bid<T>>)
    ensures Falling(Ranked(s)) && multiset(Ranked(s)) == multiset(s)
  {
    if s != [] {
      assert s == s[..|s| - 1] + [s[|s| - 1]];
      RankedRanks(s[..|s| - 1]);
      PlaceRanks(Ranked(s[..|s| - 1]), s[|s| - 1]);
      PlaceKeeps(Ranked(s[..|s| - 1]), s[|s| - 1]);
    }
  }

  /** The bids of one fee, in order. */
  function OfFee<T>(s: seq<Bid<T>>, fee: int): seq<Bid<T>> {
    if s == [] then []
    else OfFee(s[..|s| - 1], fee) + if s[|s| - 1].fee == fee then [s[|s| - 1]] else []
  }

  lemma {:induction false} OfFeeNone<T>(s: seq<Bid<T>>, fee: int)
    requires forall b :: b in s ==> b.fee != fee
    ensures OfFee(s, fee) == []
  {
    if s != [] {
      OfFeeNone(s[..|s| - 1], fee);
    }
  }

  lemma {:induction false} PlaceStable<T>(s: seq<Bid<T>>, b: Bid<T>, fee: int)
    requires Falling(s)
    ensures OfFee(Place(s, b), fee) == OfFee(s, fee) + if b.fee == fee then [b] else []
  {
    var r := Place(s, b);
    if s == [] || s[|s| - 1].fee >= b.fee {
      assert r[..|r| - 1] == s;
    } else {
      PlaceStable(s[..|s| - 1], b, fee);
      assert r[..|r| - 1] == Place(s[..|s| - 1], b);
    }
  }

  /** Equal bids keep their order of arrival. */
  lemma {:induction false} RankedStable<T>(s: seq<Bid<T>>, fee: int)
    ensures OfFee(Ranked(s), fee) == OfFee(s, fee)
  {
    if s != [] {
      RankedStable(s[..|s| - 1], fee);
      RankedRanks(s[..|s| - 1]);
      PlaceStable(Ranked(s[..|s| - 1]), s[|s| - 1], fee);
    }
  }

  lemma {:induction false} EligibleExact<T>(y: FeePolicy, c: BlockContext, s: seq<Bid<T>>)
    ensures forall b :: multiset(Eligible(y, c, s))[b] == if IsValidFee(y, c, b.fee) then multiset(s)[b] else 0
  {
    if s != [] {
      assert s == s[..|s| - 1] + [s[|s| - 1]];
      EligibleExact(y, c, s[..|s| - 1]);
    }
  }

  /** A block takes the best eligible bids, as many as fit, in falling order. */
  lemma {:induction false} SelectionIsBest<T>(y: FeePolicy, c: BlockContext, s: seq<Bid<T>>)
    requires c.maxTransactions >= 1
    ensures var r, e := Select(y, c, s), Eligible(y, c, s);
            && |r| == Min(c.maxTransactions, |e|) && Falling(r)
            && multiset(r) <= multiset(e)
            && (forall b :: b in r ==> b in s && IsValidFee(y, c, b.fee))
            && (forall b, o :: b in r && o in multiset(e) - multiset(r) ==> o.fee <= b.fee)
  {
    var r, e := Select(y, c, s), Eligible(y, c, s);
    var ranked := Ranked(e);
    RankedRanks(e);
    EligibleExact(y, c, s);
    assert multiset(e) == multiset(ranked) && |ranked| == |e|;
    SelectedFrom(y, c, s, e);
    hide Ranked, Eligible;
    FallingHead(ranked, |r|);
  }

  lemma {:induction false} SelectedFrom<T>(y: FeePolicy, c: BlockContext, s: seq<Bid<T>>, e: seq<Bid<T>>)
    requires c.maxTransactions >= 1 && e == Eligible(y, c, s)
    ensures forall b :: b in Select(y, c, s) ==> b in s && IsValidFee(y, c, b.fee)
  {
    RankedRanks(e);
    EligibleExact(y, c, s);
    forall b | b in Select(y, c, s) ensures b in s && IsValidFee(y, c, b.fee) {
      assert b in Ranked(e);
      assert multiset(Ranked(e))[b] > 0;
      assert multiset(e)[b] > 0;
      assert multiset(s)[b] > 0;
    }
  }

  lemma {:induction false} FallingHead<T>(s: seq<Bid<T>>, n: nat)
    requires Falling(s) && n <= |s|
    ensures Falling(s[..n]) && multiset(s[..n]) <= multiset(s)
    ensures forall b, o :: b in s[..n] && o in multiset(s) - multiset(s[..n]) ==> o.fee <= b.fee
  {
    assert s == s[..n] + s[n..];
    assert multiset(s) - multiset(s[..n]) == multiset(s[n..]);
    forall b, o | b in s[..n] && o in s[n..] ensures o.fee <= b.fee {
      var i :| 0 <= i < n && s[i] == b;
      FallingAt(s, n, i, o);
    }
  }

  lemma {:induction false} FallingAt<T>(s: seq<Bid<T>>, n: nat, i: nat, o: Bid<T>)
    requires Falling(s) && i < n <= |s| && o in s[n..]
    ensures o.fee <= s[i].fee
  {
    var j :| 0 <= j < |s| - n && s[n..][j] == o;
    assert s[n + j] == o;
  }

  // ------------------------------------------------------------------ settlement

  datatype Parts = Parts(charged: int, burned: int, tip: int)

  /** The check every charge passes when it is made. */
  predicate Balanced(p: Parts) {
    p.charged >= 0 && p.burned >= 0 && p.tip >= 0 && p.charged == p.burned + p.tip
  }

  type FeeCharge = p: Parts | Balanced(p) witness Parts(0, 0, 0)

  /** The median of a falling list of bids; the i-th smallest is the i-th from its end. */
  function Median<T>(s: seq<Bid<T>>): int {
    if s == [] then 0
    else if |s| % 2 == 1 then s[|s| / 2].fee
    else (s[|s| / 2].fee + s[|s| / 2 - 1].fee) / 2
  }

  /** effective_charge for one of the selected bids; none when the bid does not cover the base fee. */
  function Charge<T>(y: FeePolicy, c: BlockContext, selected: seq<Bid<T>>, fee: int): Option<FeeCharge> {
    match y
    case HighestFirst => Made(Parts(fee, 0, fee))
    case Eip1559(_) => if fee < c.baseFee then None else Made(Parts(fee, c.baseFee, fee - c.baseFee))
    case MedianFee => var m := Median(selected); Made(Parts(m, 0, m))
  }

  function Made(p: Parts): Option<FeeCharge> { if Balanced(p) then Some(p) else None }

  /** Every selected bid can be charged. Only the clearing price ever differs from the bid: it lies
      between the lowest and the highest selected bid. */
  lemma {:induction false} SelectedCharge<T>(y: FeePolicy, c: BlockContext, s: seq<Bid<T>>, i: nat)
    requires SoundContext(c) && i < |Select(y, c, s)|
    ensures var r := Select(y, c, s);
            var f := Charge(y, c, r, r[i].fee);
            && f.Some?
            && (!y.MedianFee? ==> f.value.charged == r[i].fee)
            && f.value.burned == (if y.Eip1559? then c.baseFee else 0)
            && r[|r| - 1].fee <= f.value.charged <= r[0].fee
  {
    hide Select, Eligible;
    var r := Select(y, c, s);
    SelectionIsBest(y, c, s);
    assert r[i] in r && r[|r| - 1] in r;
    MedianBetween(r);
    assert r[0].fee >= r[i].fee >= r[|r| - 1].fee >= 0;
    hide Falling, Median, Charge;
    ChargeMade(y, c, r, r[i].fee);
  }

  lemma {:induction false} ChargeMade<T>(y: FeePolicy, c: BlockContext, r: seq<Bid<T>>, fee: int)
    requires c.baseFee >= 0 && fee >= 0 && IsValidFee(y, c, fee) && Median(r) >= 0
    ensures var f := Charge(y, c, r, fee);
            && f.Some?
            && f.value.charged == (if y.MedianFee? then Median(r) else fee)
            && f.value.burned == (if y.Eip1559? then c.baseFee else 0)
  {
    hide Median;
  }

  lemma {:induction false} MedianBetween<T>(r: seq<Bid<T>>)
    requires Falling(r) && r != []
    ensures r[|r| - 1].fee <= Median(r) <= r[0].fee
  {
    var h := |r| / 2;
    assert r[0].fee >= r[h].fee >= r[|r| - 1].fee;
    if |r| % 2 == 0 {
      assert r[0].fee >= r[h - 1].fee >= r[h].fee;
    }
  }

  /** What a block's charges burn; a missing charge burns nothing. */
  function Burned(charges: seq<Option<FeeCharge>>): int {
    if charges == [] then 0
    else
      var n := |charges| - 1;
      Burned(charges[..n]) + if charges[n].Some? then charges[n].value.burned else 0
  }
}
