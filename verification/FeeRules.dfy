/** The fee rules in numbers: how far the base fee moves, which bids are taken, and what the median is. */
module FeeRules {
  import opened Common
  import opened Fees

  // ------------------------------------------------------------------ the base fee

  /** u is the rise above the target: the excess over it, in parts of d of the fee, but at least one. */
  ghost predicate Rise(base: int, excess: int, t: int, d: int, u: int) {
    u >= 1 && base * excess < t * d * (u + 1) && (u == 1 || t * d * u <= base * excess)
  }

  /** w is the fall below the target: the shortfall, in parts of d of the fee. */
  ghost predicate Fall(base: int, shortfall: int, t: int, d: int, w: int) {
    w >= 0 && t * d * w <= base * shortfall < t * d * (w + 1)
  }

  ghost predicate RisesTo(floor: int, base: int, excess: int, t: int, d: int, next: int, u: int) {
    Rise(base, excess, t, d, u) && next == AtLeast(floor, base + u)
  }

  ghost predicate FallsTo(floor: int, base: int, shortfall: int, t: int, d: int, next: int, w: int) {
    Fall(base, shortfall, t, d, w) && next == AtLeast(floor, base - w)
  }

  ghost predicate Rises(floor: int, base: int, excess: int, t: int, d: int, next: int) {
    exists u :: RisesTo(floor, base, excess, t, d, next, u)
  }

  ghost predicate Falls(floor: int, base: int, shortfall: int, t: int, d: int, next: int) {
    exists w :: FallsTo(floor, base, shortfall, t, d, next, w)
  }

  function AtLeast(floor: int, x: int): int { if x < floor then floor else x }

  /** The base fee after a block of n transactions where t were wanted: what it was, plus a rise or minus a
      fall, and never below the floor. Other policies keep it. */
  lemma {:induction false} NextBaseFeeExactly(minBase: int, c: BlockContext)
    requires SoundContext(c)
    ensures var t := if c.target.Some? then c.target.value
                     else if c.maxTransactions < 2 then 1 else c.maxTransactions / 2;
            var n, base, d, next := c.parentCount, c.baseFee, c.denominator, NextBaseFee(Eip1559(minBase), c);
            && (n == t ==> next == AtLeast(minBase, base))
            && (n > t ==> Rises(minBase, base, n - t, t, d, next))
            && (n < t ==> Falls(minBase, base, t - n, t, d, next))
    ensures NextBaseFee(HighestFirst, c) == NextBaseFee(MedianFee, c) == c.baseFee
  {
    hide Share, Rise, Fall;
    var t, n, base, d := Target(c), c.parentCount, c.baseFee, c.denominator;
    var next := NextBaseFee(Eip1559(minBase), c);
    if n > t {
      var u := Max(1, Share(base, n - t, t, d));
      ShareRises(base, n - t, t, d);
      assert RisesTo(minBase, base, n - t, t, d, next, u);
    }
    if n < t {
      var w := Share(base, t - n, t, d);
      ShareExactly(base, t - n, t, d);
      assert FallsTo(minBase, base, t - n, t, d, next, w);
    }
  }

  lemma {:induction false} ShareRises(base: int, gap: int, t: int, d: int)
    requires base >= 0 && gap >= 0 && t >= 1 && d >= 1
    ensures Rise(base, gap, t, d, Max(1, Share(base, gap, t, d)))
  {
    ShareExactly(base, gap, t, d);
    var share, m := Share(base, gap, t, d), t * d;
    hide Share;
    if share == 0 {
      assert m >= 1;
    }
  }

  lemma {:induction false} ShareExactly(base: int, gap: int, t: int, d: int)
    requires base >= 0 && gap >= 0 && t >= 1 && d >= 1
    ensures Fall(base, gap, t, d, Share(base, gap, t, d))
  {
    var x, m := base * gap, t * d;
    assert x >= 0;
    NestedFloor(x, t, d);
    FloorBounds(x, m);
  }

  lemma {:induction false} FloorBounds(x: int, m: int)
    requires x >= 0 && m >= 1
    ensures x / m >= 0 && m * (x / m) <= x < m * (x / m + 1)
  {
    assert x == m * (x / m) + x % m;
    assert m * (x / m + 1) == m * (x / m) + m;
    FloorMonotone(0, x, m);
  }

  /** Rise and fall are single numbers. */
  lemma {:induction false} MovesOnce(base: int, gap: int, t: int, d: int, u: int, v: int)
    requires t >= 1 && d >= 1
    ensures Rise(base, gap, t, d, u) && Rise(base, gap, t, d, v) ==> u == v
    ensures Fall(base, gap, t, d, u) && Fall(base, gap, t, d, v) ==> u == v
  {
    var m := t * d;
    assert m >= 1;
    hide Rise, Fall;
    if Rise(base, gap, t, d, u) && Rise(base, gap, t, d, v) {
      Ordered(base * gap, m, u, v);
      Ordered(base * gap, m, v, u);
    }
    if Fall(base, gap, t, d, u) && Fall(base, gap, t, d, v) {
      Ordered(base * gap, m, u, v);
      Ordered(base * gap, m, v, u);
    }
  }

  lemma {:induction false} Ordered(x: int, m: int, u: int, v: int)
    requires m >= 1 && x < m * (u + 1)
    ensures m * v <= x ==> v <= u
  {
    if v >= u + 1 {
      FurtherUp(m, u + 1, v - (u + 1));
    }
  }

  lemma FurtherUp(m: int, a: int, z: nat)
    requires m >= 1
    ensures m * a <= m * (a + z)
  {
    assert m * (a + z) == m * a + m * z;
  }

  // ------------------------------------------------------------------ selection

  /** What a bid has to reach. */
  function Price(y: FeePolicy, c: BlockContext): int { if y.Eip1559? then c.baseFee else 0 }

  ghost function Reaching<T>(s: seq<Bid<T>>, price: int): set<int> {
    set i | 0 <= i < |s| && s[i].fee >= price
  }

  lemma {:induction false} EligibleCount<T>(y: FeePolicy, c: BlockContext, s: seq<Bid<T>>)
    ensures |Eligible(y, c, s)| == |Reaching(s, Price(y, c))|
  {
    if s != [] {
      var n, price := |s| - 1, Price(y, c);
      EligibleCount(y, c, s[..n]);
      ReachingMore(s, price);
      hide Reaching;
    } else {
      assert Reaching(s, Price(y, c)) == {};
    }
  }

  lemma {:induction false} ReachingMore<T>(s: seq<Bid<T>>, price: int)
    requires s != []
    ensures var n := |s| - 1;
            |Reaching(s, price)| == |Reaching(s[..n], price)| + if s[n].fee >= price then 1 else 0
  {
    var n := |s| - 1;
    assert Reaching(s, price) == Reaching(s[..n], price) + if s[n].fee >= price then {n} else {};
  }

  lemma {:induction false} EligibleReach<T>(y: FeePolicy, c: BlockContext, s: seq<Bid<T>>)
    ensures forall b :: multiset(Eligible(y, c, s))[b] == if b.fee >= Price(y, c) then multiset(s)[b] else 0
  {
    hide Eligible;
    EligibleExact(y, c, s);
  }

  /** A block takes bids that reach the price, falling, all of them if they fit and else as many as fit;
      none that reaches the price and is left out is higher than one taken. */
  lemma {:induction false} SelectionExactly<T>(y: FeePolicy, c: BlockContext, s: seq<Bid<T>>)
    requires c.maxTransactions >= 1
    ensures var r, n := Select(y, c, s), |Reaching(s, Price(y, c))|;
            && |r| == (if n < c.maxTransactions then n else c.maxTransactions) && Falling(r)
            && (forall b :: multiset(r)[b] <= if b.fee >= Price(y, c) then multiset(s)[b] else 0)
            && (forall b: Bid<T>, o: Bid<T> :: b in r && o.fee >= Price(y, c) && multiset(s)[o] > multiset(r)[o] ==>
                 o.fee <= b.fee)
  {
    var r, e := Select(y, c, s), Eligible(y, c, s);
    SelectionIsBest(y, c, s);
    EligibleCount(y, c, s);
    EligibleReach(y, c, s);
    hide Select, Eligible, Reaching;
    forall b: Bid<T>, o: Bid<T> | b in r && o.fee >= Price(y, c)
      && multiset(s)[o] > multiset(r)[o] ensures o.fee <= b.fee {
      assert o in multiset(e) - multiset(r);
    }
  }

  // ------------------------------------------------------------------ the median

  ghost function AtMost<T>(s: seq<Bid<T>>, fee: int): set<int> { set i | 0 <= i < |s| && s[i].fee <= fee }

  /** Half of the bids are at least the median and half at most; of an odd number it is the one in the
      middle, of an even number the mean of the two in the middle, rounded down. */
  lemma {:induction false} MedianExactly<T>(r: seq<Bid<T>>)
    requires Falling(r) && r != []
    ensures var m, k := Median(r), |r|;
            && 2 * |Reaching(r, m)| >= k && 2 * |AtMost(r, m)| >= k
            && (k % 2 == 1 ==> m == r[(k - 1) / 2].fee)
            && (k % 2 == 0 ==> 2 * m <= r[k / 2 - 1].fee + r[k / 2].fee < 2 * m + 2)
  {
    var m, k := Median(r), |r|;
    var h := (k + 1) / 2;
    if k % 2 == 0 {
      assert r[h - 1].fee >= m >= r[k - h].fee;
    }
    Halves(r, m, h);
  }

  lemma {:induction false} Halves<T>(r: seq<Bid<T>>, m: int, h: nat)
    requires Falling(r) && 0 < h <= |r| && r[h - 1].fee >= m >= r[|r| - h].fee
    ensures |Reaching(r, m)| >= h && |AtMost(r, m)| >= h
  {
    hide Falling, Reaching, AtMost;
    UpperHalf(r, m, h);
    LowerHalf(r, m, h);
  }

  lemma {:induction false} UpperHalf<T>(r: seq<Bid<T>>, m: int, h: nat)
    requires Falling(r) && 0 < h <= |r| && r[h - 1].fee >= m
    ensures |Reaching(r, m)| >= h
  {
    forall i | i in Between(0, h) ensures i in Reaching(r, m) {
      FallsBetween(r, i, h - 1);
    }
    hide Falling, Reaching, Between;
    Interval(0, h);
    SubsetSize(Between(0, h), Reaching(r, m));
  }

  lemma {:induction false} LowerHalf<T>(r: seq<Bid<T>>, m: int, h: nat)
    requires Falling(r) && 0 < h <= |r| && m >= r[|r| - h].fee
    ensures |AtMost(r, m)| >= h
  {
    var k := |r|;
    forall i | i in Between(k - h, k) ensures i in AtMost(r, m) {
      FallsBetween(r, k - h, i);
    }
    hide Falling, AtMost, Between;
    Interval(k - h, k);
    SubsetSize(Between(k - h, k), AtMost(r, m));
  }

  lemma FallsBetween<T>(r: seq<Bid<T>>, i: int, j: int)
    requires Falling(r) && 0 <= i <= j < |r|
    ensures r[i].fee >= r[j].fee
  {
  }

  ghost function Between(a: int, b: int): (r: set<int>)
    ensures forall i :: i in r <==> a <= i < b
    decreases b - a
  {
    if b <= a then {} else Between(a, b - 1) + {b - 1}
  }

  lemma {:induction false} Interval(a: int, b: int)
    requires a <= b
    ensures |Between(a, b)| == b - a
    decreases b - a
  {
    if a < b {
      Interval(a, b - 1);
    }
  }
}
