/** What becomes of a bid: each outcome of an admission by its own condition, on the entries still alive. */
module MempoolOutcomes {
  import opened Common
  import opened Mempool

  /** The entries that have not outlived their time at `now`. */
  ghost function Alive<T(!new)>(y: Policy, entries: map<T, Entry>, now: real): map<T, Entry> {
    map z | z in entries && !(y.ttl.Some? && entries[z].receivedAt + y.ttl.value < now) :: entries[z]
  }

  /** z is by the same sender at the same nonce. */
  ghost predicate SameSlot<T>(w: map<T, Entry>, z: T, e: Entry) {
    z in w && e.sender.Some? && e.nonce.Some? && w[z].sender == e.sender && w[z].nonce == e.nonce
  }

  ghost function SentBy<T(!new)>(w: map<T, Entry>, sender: string): set<T> {
    set z | z in w && w[z].sender == Some(sender)
  }

  ghost predicate AtCap<T(!new)>(y: Policy, w: map<T, Entry>, e: Entry) {
    y.maxPerSender.Some? && e.sender.Some? && |SentBy(w, e.sender.value)| >= y.maxPerSender.value
  }

  lemma {:induction false} ExpireLeaves<T(!new)>(y: Policy, pool: Pool<T>, now: real)
    requires Sound(y, pool)
    ensures var p := Expire(y, now, pool); p.entries == Alive(y, pool.entries, now) && Sound(y, p)
  {
    hide Expire, Sound;
    ExpireExact(y, now, pool);
    var p, w := Expire(y, now, pool), Alive(y, pool.entries, now);
    MapEquality(p.entries, w);
  }

  /** The slot index finds the holder of the bid's slot, if there is one. */
  lemma {:induction false} SlotFound<T(!new)>(y: Policy, p: Pool<T>, e: Entry)
    requires Sound(y, p)
    ensures forall z :: SameSlot(p.entries, z, e) <==>
              && SlotOf(e).Some? && SlotOf(e).value in p.bySlot && p.bySlot[SlotOf(e).value] == z && z in p.entries
  {
    hide WithinLimits;
    forall z | SameSlot(p.entries, z, e) ensures HasSlot(p, SlotOf(e).value, z) {
    }
    if SlotOf(e).Some? && SlotOf(e).value in p.bySlot {
      assert SlotOf(p.entries[p.bySlot[SlotOf(e).value]]) == SlotOf(e);
    }
  }

  /** A bid already waiting is a duplicate; one below the floor is refused; nothing else is decided here. */
  lemma {:induction false} EarlyOutcomes<T(!new)>(y: Policy, pool: Pool<T>, x: T, e: Entry)
    requires Sound(y, pool)
    ensures var w, r := Alive(y, pool.entries, e.receivedAt), Add(y, pool, x, e).1;
            && (r == Duplicate <==> x in w) && (r == BelowMinFee <==> x !in w && e.fee < y.minFee)
            && (!r.Accepted? ==> Add(y, pool, x, e).0.entries == w)
  {
    hide Expire, Discard, SenderCount, Lowest, Sound;
    ExpireLeaves(y, pool, e.receivedAt);
    var p := Expire(y, e.receivedAt, pool);
    if SlotOf(e).Some? && SlotOf(e).value in p.bySlot && p.bySlot[SlotOf(e).value] in p.entries {
      assert |p.entries| <= y.maxSize by { SizeOf(y, p); }
      SettleRoom(y, p, p.bySlot[SlotOf(e).value], x, e);
    }
    hide Insert;
  }

  lemma SizeOf<T(!new)>(y: Policy, p: Pool<T>)
    requires Sound(y, p)
    ensures |p.entries| <= y.maxSize
  {
  }

  /** Where a slot has been vacated there is room. */
  lemma {:induction false} SettleRoom<T(!new)>(y: Policy, p: Pool<T>, z: T, x: T, e: Entry)
    requires Sound(y, p) && z in p.entries
    ensures Settle(y, Discard(p, z), x, e, Some(z)) == (Insert(Discard(p, z), x, e), Accepted(Some(z), None))
    ensures Discard(p, z).entries == p.entries - {z}
  {
    hide Sound, Insert;
    SizeOf(y, p);
    DiscardSound(y, p, z);
  }

  /** A bid for a slot that is held is taken if and only if replacement is enabled and it pays the increase;
      then the holder alone gives way. */
  lemma {:induction false} ReplacementExactly<T(!new)>(y: Policy, pool: Pool<T>, x: T, e: Entry, z: T)
    requires SoundPolicy(y) && Sound(y, pool)
    requires var w := Alive(y, pool.entries, e.receivedAt); x !in w && e.fee >= y.minFee && SameSlot(w, z, e)
    ensures var w, q, r := Alive(y, pool.entries, e.receivedAt), Add(y, pool, x, e).0, Add(y, pool, x, e).1;
            && (r == RbfDisabled <==> !y.enableRbf)
            && (r == RbfFeeTooLow <==> y.enableRbf && e.fee < w[z].fee + y.rbfMinIncrease)
            && (r == Accepted(Some(z), None) <==> y.enableRbf && e.fee >= w[z].fee + y.rbfMinIncrease)
            && (r.Accepted? ==> q.entries == (w - {z})[x := e])
  {
    hide Expire, Discard, SenderCount, Lowest, Sound, Settle;
    ExpireLeaves(y, pool, e.receivedAt);
    var p := Expire(y, e.receivedAt, pool);
    SlotFound(y, p, e);
    SettleRoom(y, p, z, x, e);
  }

  /** The lowest of the waiting bids, and of those the first to have come. */
  ghost predicate FirstLowest<T(!new)>(w: map<T, Entry>, order: seq<T>, v: T) {
    && v in w && (forall z :: z in w ==> w[v].fee <= w[z].fee)
    && forall i, j :: 0 <= i < j < |order| && order[i] in w && order[j] == v ==> w[order[i]].fee > w[v].fee
  }

  lemma {:induction false} LowestExactly<T(!new)>(p: Pool<T>, order: seq<T>)
    requires Distinct(order) && forall z :: z in order ==> z in p.entries
    ensures var r := Lowest(p, order);
            && (r.None? <==> order == [])
            && (r.Some? ==> r.value in order
                            && (forall z :: z in order ==> p.entries[r.value].fee <= p.entries[z].fee)
                            && forall i, j :: 0 <= i < j < |order| && order[j] == r.value ==>
                                 p.entries[order[i]].fee > p.entries[r.value].fee)
  {
    if order != [] {
      var n := |order| - 1;
      var front, x := order[..n], order[n];
      assert order == front + [x];
      LowestExactly(p, front);
    }
  }

  /** A bid for a free slot is refused at the sender's cap; else it is taken while there is room; in a full
      pool it is taken if and only if it is higher than the lowest bid, and the first of the lowest goes. */
  lemma {:induction false} AdmissionExactly<T(!new)>(y: Policy, pool: Pool<T>, x: T, e: Entry)
    requires SoundPolicy(y) && Sound(y, pool)
    requires var w := Alive(y, pool.entries, e.receivedAt);
             x !in w && e.fee >= y.minFee && forall z :: !SameSlot(w, z, e)
    ensures var w, q, r := Alive(y, pool.entries, e.receivedAt), Add(y, pool, x, e).0, Add(y, pool, x, e).1;
            && (r == SenderLimit <==> AtCap(y, w, e))
            && (r == PoolFull <==> !AtCap(y, w, e) && |w| >= y.maxSize && forall z :: z in w ==> w[z].fee >= e.fee)
            && (r == Accepted(None, None) <==> !AtCap(y, w, e) && |w| < y.maxSize)
            && (r == Accepted(None, None) ==> q.entries == w[x := e])
            && (!AtCap(y, w, e) && |w| >= y.maxSize && (exists z :: z in w && w[z].fee < e.fee) ==>
                  exists v :: FirstLowest(w, Expire(y, e.receivedAt, pool).order, v)
                              && r == Accepted(None, Some(v)) && q.entries == (w - {v})[x := e])
  {
    hide Expire, Discard, Lowest, Sound;
    ExpireLeaves(y, pool, e.receivedAt);
    var p, w := Expire(y, e.receivedAt, pool), Alive(y, pool.entries, e.receivedAt);
    SlotFound(y, p, e);
    NotHeld(y, p, e);
    assert e.sender.Some? ==> SentBy(w, e.sender.value) == (set z | z in p.entries && p.entries[z].sender == e.sender);
    SettledExactly(y, p, x, e);
    hide Settle, SameSlot;
  }

  lemma {:induction false} NotHeld<T(!new)>(y: Policy, p: Pool<T>, e: Entry)
    requires Sound(y, p) && forall z :: !SameSlot(p.entries, z, e)
    ensures SlotOf(e).Some? ==> SlotOf(e).value !in p.bySlot
  {
    SlotFound(y, p, e);
  }

  lemma {:induction false} SettledExactly<T(!new)>(y: Policy, p: Pool<T>, x: T, e: Entry)
    requires SoundPolicy(y) && Sound(y, p)
    ensures var w, q, r := p.entries, Settle(y, p, x, e, None).0, Settle(y, p, x, e, None).1;
            && (r == PoolFull <==> |w| >= y.maxSize && forall z :: z in w ==> w[z].fee >= e.fee)
            && (r == Accepted(None, None) <==> |w| < y.maxSize)
            && (r == Accepted(None, None) ==> q.entries == w[x := e])
            && (|w| >= y.maxSize && (exists z :: z in w && w[z].fee < e.fee) ==>
                  exists v :: FirstLowest(w, p.order, v) && r == Accepted(None, Some(v))
                    && q.entries == (w - {v})[x := e])
            && (r.PoolFull? || r.Accepted?)
  {
    assert Listed(p.order, p.entries);
    LowestExactly(p, p.order);
    if |p.entries| >= y.maxSize {
      assert p.order != [] by { NotEmpty(p); }
      var v := Lowest(p, p.order).value;
      assert FirstLowest(p.entries, p.order, v);
      DiscardSound(y, p, v);
    }
  }

  lemma NotEmpty<T(!new)>(p: Pool<T>)
    requires Listed(p.order, p.entries) && |p.entries| >= 1
    ensures p.order != []
  {
    assert p.entries.Keys != {};
    var z :| z in p.entries;
    assert z in p.order;
  }

  // ------------------------------------------------------------------ the order of arrival

  lemma {:induction false} WithoutInOrder<T(!new)>(s: seq<T>, x: T)
    ensures InOrder(Without(s, x), s)
  {
    if s != [] {
      var front, z := s[..|s| - 1], s[|s| - 1];
      assert s == front + [z];
      WithoutInOrder(front, x);
      OneBehind(Without(front, x), front, z);
      Behind(front, z);
    }
  }

  lemma {:induction false} DiscardInOrder<T(!new)>(p: Pool<T>, x: T)
    ensures InOrder(Discard(p, x).order, p.order)
  {
    WithoutInOrder(p.order, x);
    hide InOrder;
    SameOrder(p.order);
  }

  lemma {:induction false} DiscardAllInOrder<T(!new)>(p: Pool<T>, xs: seq<T>)
    ensures InOrder(DiscardAll(p, xs).order, p.order)
  {
    hide InOrder, Discard;
    if xs == [] {
      SameOrder(p.order);
    } else {
      var q := DiscardAll(p, xs[..|xs| - 1]);
      DiscardAllInOrder(p, xs[..|xs| - 1]);
      DiscardInOrder(q, xs[|xs| - 1]);
      InOrderTransitive(Discard(q, xs[|xs| - 1]).order, q.order, p.order);
    }
  }

  /** What an admission leaves stands in the order of arrival, and a bid that is taken comes last. */
  lemma {:induction false} AddInOrder<T(!new)>(y: Policy, pool: Pool<T>, x: T, e: Entry)
    ensures var q, r := Add(y, pool, x, e).0, Add(y, pool, x, e).1;
            && (!r.Accepted? ==> InOrder(q.order, pool.order))
            && (r.Accepted? ==> exists s :: InOrder(s, pool.order) && q.order == s + [x])
  {
    hide InOrder, Discard, DiscardAll, SenderCount, Lowest, ExpiredIn;
    var p := Expire(y, e.receivedAt, pool);
    DiscardAllInOrder(pool, ExpiredIn(y, e.receivedAt, pool, pool.order));
    assert InOrder(p.order, pool.order);
    SettleInOrder(y, p, x, e, None, pool.order);
    var slot := SlotOf(e);
    if slot.Some? && slot.value in p.bySlot && p.bySlot[slot.value] in p.entries {
      var former := p.bySlot[slot.value];
      DiscardInOrder(p, former);
      InOrderTransitive(Discard(p, former).order, p.order, pool.order);
      SettleInOrder(y, Discard(p, former), x, e, Some(former), pool.order);
    }
    hide Settle;
  }

  lemma {:induction false} SettleInOrder<T(!new)>(y: Policy, p: Pool<T>, x: T, e: Entry, former: Option<T>, all: seq<T>)
    requires InOrder(p.order, all)
    ensures var q, r := Settle(y, p, x, e, former).0, Settle(y, p, x, e, former).1;
            && (!r.Accepted? ==> q == p)
            && (r.Accepted? ==> exists s :: InOrder(s, all) && q.order == s + [x])
  {
    hide InOrder, Discard, Lowest;
    var victim := Lowest(p, p.order);
    if victim.Some? {
      DiscardInOrder(p, victim.value);
      InOrderTransitive(Discard(p, victim.value).order, p.order, all);
    }
  }
}
