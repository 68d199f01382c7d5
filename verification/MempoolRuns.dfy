/** The pool as the code keeps it, and which bids a long run of offers leaves in it. */
module MempoolRuns {
  import opened Common
  import opened Mempool

  /** What happens to a pool. */
  datatype Event<T> =
    | Offer(x: T, e: Entry)
    | Removal(x: T)
    | Inclusion(xs: seq<T>)
    | Expiry(now: real)

  function EmptyPool<T>(): Pool<T> { Pool(map[], [], map[]) }

  ghost function Step<T(!new)>(y: Policy, p: Pool<T>, v: Event<T>): Pool<T> {
    match v
    case Offer(x, e) => Add(y, p, x, e).0
    case Removal(x) => Discard(p, x)
    case Inclusion(xs) => DiscardAll(p, xs)
    case Expiry(now) => Expire(y, now, p)
  }

  ghost function Run<T(!new)>(y: Policy, events: seq<Event<T>>): Pool<T> {
    if events == [] then EmptyPool()
    else Step(y, Run(y, events[..|events| - 1]), events[|events| - 1])
  }

  /** After any run of offers, removals, inclusions and expiries the pool is within its limits and its
      index is exact. */
  lemma {:induction false} RunSound<T(!new)>(y: Policy, events: seq<Event<T>>)
    requires SoundPolicy(y)
    ensures Sound(y, Run(y, events))
  {
    if events != [] {
      hide Sound, Step;
      RunSound(y, events[..|events| - 1]);
      StepSound(y, Run(y, events[..|events| - 1]), events[|events| - 1]);
    } else {
      forall s ensures SenderCount(EmptyPool<T>(), s) == 0 {
        CountWithin(EmptyPool<T>(), s);
      }
    }
  }

  lemma {:induction false} StepSound<T(!new)>(y: Policy, p: Pool<T>, v: Event<T>)
    requires SoundPolicy(y) && Sound(y, p)
    ensures Sound(y, Step(y, p, v))
  {
    hide Sound, Add, Discard, DiscardAll, Expire;
    match v
    case Offer(x, e) => AddSound(y, p, x, e);
    case Removal(x) => DiscardSound(y, p, x);
    case Inclusion(xs) => DiscardAllSound(y, p, xs);
    case Expiry(now) => ExpireExact(y, now, p);
  }

  // ------------------------------------------------------------------ fees held

  ghost function Fees<T(!new)>(entries: map<T, Entry>, order: seq<T>): multiset<int> {
    if order == [] then multiset{}
    else
      var x := order[|order| - 1];
      Fees(entries, order[..|order| - 1]) + if x in entries then multiset{entries[x].fee} else multiset{}
  }

  ghost function Held<T(!new)>(p: Pool<T>): multiset<int> { Fees(p.entries, p.order) }

  lemma {:induction false} FeesSame<T(!new)>(a: map<T, Entry>, b: map<T, Entry>, order: seq<T>)
    requires forall x :: x in order && x in a ==> x in b && a[x] == b[x]
    requires forall x :: x in order && x in b ==> x in a
    ensures Fees(a, order) == Fees(b, order)
  {
    if order != [] {
      assert order == order[..|order| - 1] + [order[|order| - 1]];
      FeesSame(a, b, order[..|order| - 1]);
    }
  }

  lemma {:induction false} FeesWithout<T(!new)>(entries: map<T, Entry>, order: seq<T>, x: T)
    requires Distinct(order) && x in entries
    ensures Fees(entries, order) ==
            Fees(entries - {x}, Without(order, x)) + if x in order then multiset{entries[x].fee} else multiset{}
  {
    if order != [] {
      var front, z := order[..|order| - 1], order[|order| - 1];
      assert order == front + [z];
      FeesWithout(entries, front, x);
      if z != x {
        assert Without(order, x) == Without(front, x) + [z];
        assert Without(order, x)[..|Without(order, x)| - 1] == Without(front, x);
      }
    }
  }

  lemma {:induction false} FeesMember<T(!new)>(entries: map<T, Entry>, order: seq<T>, f: int)
    requires f in Fees(entries, order)
    ensures exists x :: x in order && x in entries && entries[x].fee == f
  {
    var front, z := order[..|order| - 1], order[|order| - 1];
    assert order == front + [z];
    if !(z in entries && entries[z].fee == f) {
      FeesMember(entries, front, f);
    }
  }

  lemma {:induction false} FeesSize<T(!new)>(entries: map<T, Entry>, order: seq<T>)
    requires forall x :: x in order ==> x in entries
    ensures |Fees(entries, order)| == |order|
  {
    if order != [] {
      var front, z := order[..|order| - 1], order[|order| - 1];
      assert order == front + [z];
      FeesSize(entries, front);
    }
  }

  lemma {:induction false} HeldSize<T(!new)>(p: Pool<T>)
    requires Listed(p.order, p.entries)
    ensures |Held(p)| == |p.entries|
  {
    FeesSize(p.entries, p.order);
    DistinctSize(p.order);
    assert Elements(p.order) == p.entries.Keys;
  }

  lemma {:induction false} HeldInsert<T(!new)>(p: Pool<T>, x: T, e: Entry)
    requires Listed(p.order, p.entries) && x !in p.entries
    ensures Held(Insert(p, x, e)) == Held(p) + multiset{e.fee}
  {
    assert (p.order + [x])[..|p.order|] == p.order;
    FeesSame(p.entries[x := e], p.entries, p.order);
  }

  lemma {:induction false} HeldDiscard<T(!new)>(p: Pool<T>, x: T)
    requires Listed(p.order, p.entries) && x in p.entries
    ensures Held(p) == Held(Discard(p, x)) + multiset{p.entries[x].fee}
  {
    FeesWithout(p.entries, p.order, x);
    assert x in p.order;
  }

  /** The victim of a full pool holds the lowest fee there. */
  lemma {:induction false} LowestIsLeast<T(!new)>(p: Pool<T>)
    requires Listed(p.order, p.entries) && |p.entries| > 0
    ensures Lowest(p, p.order).Some? && Lowest(p, p.order).value in p.entries
    ensures forall f :: f in Held(p) ==> p.entries[Lowest(p, p.order).value].fee <= f
  {
    var x :| x in p.entries;
    assert x in p.order;
    forall f | f in Held(p) ensures p.entries[Lowest(p, p.order).value].fee <= f {
      FeesMember(p.entries, p.order, f);
    }
  }

  /** Taking in one more bid keeps the pool the k best. */
  lemma {:induction false} SettleKeepsTop<T(!new)>(y: Policy, p: Pool<T>, x: T, e: Entry, offered: multiset<int>)
    requires SoundPolicy(y) && Sound(y, p) && x !in p.entries && IsTop(Held(p), offered, y.maxSize)
    ensures IsTop(Held(Settle(y, p, x, e, None).0), offered + multiset{e.fee}, y.maxSize)
  {
    HeldSize(p);
    assert |p.entries| <= y.maxSize;
    if |p.entries| < y.maxSize {
      HeldInsert(p, x, e);
      hide IsTop, Held, Sound, Insert;
      TopTake(Held(p), offered, y.maxSize, e.fee);
    } else {
      hide IsTop, Held, Sound, Insert, Discard, Lowest;
      FullKeepsTop(y, p, x, e, offered);
    }
  }

  lemma {:induction false} FullKeepsTop<T(!new)>(y: Policy, p: Pool<T>, x: T, e: Entry, offered: multiset<int>)
    requires SoundPolicy(y) && Sound(y, p) && x !in p.entries && IsTop(Held(p), offered, y.maxSize)
    requires |p.entries| >= y.maxSize
    ensures IsTop(Held(Settle(y, p, x, e, None).0), offered + multiset{e.fee}, y.maxSize)
  {
    hide IsTop, Held, Insert, Discard, Lowest;
    HeldSize(p);
    LowestIsLeast(p);
    var victim := Lowest(p, p.order).value;
    var v := p.entries[victim].fee;
    HeldWithout(y, p, victim, x, e);
    hide Sound;
    if v >= e.fee {
      TopReject(Held(p), offered, y.maxSize, e.fee);
    } else {
      TopReplace(Held(p), offered, y.maxSize, e.fee, v);
    }
  }

  lemma SoundListed<T(!new)>(y: Policy, p: Pool<T>)
    requires Sound(y, p)
    ensures Listed(p.order, p.entries)
  {
  }

  /** The fees held when one entry makes room for another. */
  lemma {:induction false} HeldWithout<T(!new)>(y: Policy, p: Pool<T>, victim: T, x: T, e: Entry)
    requires Sound(y, p) && victim in p.entries && x !in p.entries
    ensures p.entries[victim].fee in Held(p)
    ensures Held(Insert(Discard(p, victim), x, e)) == Held(p) - multiset{p.entries[victim].fee} + multiset{e.fee}
  {
    hide Held, Insert, Sound, Discard, Listed;
    SoundListed(y, p);
    DiscardSound(y, p, victim);
    SoundListed(y, Discard(p, victim));
    HeldDiscard(p, victim);
    HeldInsert(Discard(p, victim), x, e);
    assert Held(p) - multiset{p.entries[victim].fee} == Held(Discard(p, victim));
  }

  // ------------------------------------------------------------------ the theorem

  ghost predicate OnlyOffers<T(!new)>(events: seq<Event<T>>) { forall v :: v in events ==> v.Offer? }

  /** No two offers share an id or a slot. */
  ghost predicate Unrelated<T(!new)>(offers: seq<Event<T>>) {
    OnlyOffers(offers) && forall i, j :: 0 <= i < j < |offers| ==>
      && offers[i].x != offers[j].x
      && (SlotOf(offers[i].e).None? || SlotOf(offers[i].e) != SlotOf(offers[j].e))
  }

  /** The fees offered that reach the floor. */
  ghost function Eligible<T(!new)>(y: Policy, offers: seq<Event<T>>): multiset<int> {
    if offers == [] then multiset{}
    else
      var o := offers[|offers| - 1];
      Eligible(y, offers[..|offers| - 1]) + if o.Offer? && o.e.fee >= y.minFee then multiset{o.e.fee} else multiset{}
  }

  ghost predicate WasOffered<T(!new)>(offers: seq<Event<T>>, x: T, e: Entry) {
    exists i :: 0 <= i < |offers| && offers[i] == Event.Offer(x, e)
  }

  lemma {:induction false} NothingExpires<T(!new)>(y: Policy, now: real, p: Pool<T>)
    requires y.ttl.None?
    ensures Expire(y, now, p) == p
  {
    NoneExpired(y, now, p, p.order);
  }

  lemma {:induction false} NoneExpired<T(!new)>(y: Policy, now: real, p: Pool<T>, order: seq<T>)
    requires y.ttl.None?
    ensures ExpiredIn(y, now, p, order) == []
  {
    if order != [] {
      NoneExpired(y, now, p, order[..|order| - 1]);
    }
  }

  /** Whatever is held was offered. */
  lemma {:induction false} HeldWasOffered<T(!new)>(y: Policy, events: seq<Event<T>>)
    requires SoundPolicy(y)
    ensures forall x :: x in Run(y, events).entries ==> WasOffered(events, x, Run(y, events).entries[x])
  {
    if events != [] {
      hide Step;
      var front, v := events[..|events| - 1], events[|events| - 1];
      var p, q := Run(y, front), Run(y, events);
      RunSound(y, front);
      HeldWasOffered(y, front);
      StepOnly(y, p, v);
      forall x | x in q.entries ensures WasOffered(events, x, q.entries[x]) {
        if v == Event.Offer(x, q.entries[x]) {
          assert events[|events| - 1] == v;
        } else {
          assert WasOffered(front, x, q.entries[x]);
          var i :| 0 <= i < |front| && front[i] == Event.Offer(x, q.entries[x]);
          assert events[i] == Event.Offer(x, q.entries[x]);
        }
      }
    }
  }

  lemma {:induction false} StepOnly<T(!new)>(y: Policy, p: Pool<T>, v: Event<T>)
    requires SoundPolicy(y) && Sound(y, p)
    ensures var q := Step(y, p, v);
            forall z :: z in q.entries ==>
              v == Event.Offer(z, q.entries[z]) || (z in p.entries && q.entries[z] == p.entries[z])
  {
    hide Sound, Add, Discard, DiscardAll, Expire;
    match v
    case Offer(x, e) => AddOnly(y, p, x, e);
    case Removal(x) => DiscardSound(y, p, x);
    case Inclusion(xs) => DiscardAllSound(y, p, xs);
    case Expiry(now) => ExpireExact(y, now, p);
  }

  lemma {:induction false} AddOnly<T(!new)>(y: Policy, p: Pool<T>, x: T, e: Entry)
    requires SoundPolicy(y) && Sound(y, p)
    ensures var q := Add(y, p, x, e).0;
            forall z :: z in q.entries ==>
              (z == x && q.entries[z] == e) || (z in p.entries && q.entries[z] == p.entries[z])
  {
    ExpireExact(y, e.receivedAt, p);
    hide Expire, Sound, SenderCount;
    var q := Expire(y, e.receivedAt, p);
    SettleOnly(y, q, x, e, None);
    if SlotOf(e).Some? && SlotOf(e).value in q.bySlot {
      var former := q.bySlot[SlotOf(e).value];
      SettleOnly(y, Discard(q, former), x, e, Some(former));
    }
    hide Settle;
  }

  lemma {:induction false} SettleOnly<T(!new)>(y: Policy, p: Pool<T>, x: T, e: Entry, former: Option<T>)
    ensures var q := Settle(y, p, x, e, former).0;
            forall z :: z in q.entries ==>
              (z == x && q.entries[z] == e) || (z in p.entries && q.entries[z] == p.entries[z])
  {
  }

  /** With distinct ids and slots, no time to live and no sender cap, what a run leaves in the pool
      are the largest eligible fees ever offered, as many as fit. */
  lemma {:induction false} HighestBiddersStay<T(!new)>(y: Policy, offers: seq<Event<T>>)
    requires SoundPolicy(y) && y.ttl.None? && y.maxPerSender.None? && Unrelated(offers)
    ensures IsTop(Held(Run(y, offers)), Eligible(y, offers), y.maxSize)
  {
    if offers != [] {
      var front, o := offers[..|offers| - 1], offers[|offers| - 1];
      assert offers == front + [o] && o in offers;
      assert forall v :: v in front ==> v in offers;
      HighestBiddersStay(y, front);
      OneMoreOffer(y, front, o);
    }
  }

  lemma {:induction false} OneMoreOffer<T(!new)>(y: Policy, front: seq<Event<T>>, o: Event<T>)
    requires SoundPolicy(y) && y.ttl.None? && y.maxPerSender.None? && Unrelated(front + [o]) && o.Offer?
    requires IsTop(Held(Run(y, front)), Eligible(y, front), y.maxSize)
    ensures IsTop(Held(Add(y, Run(y, front), o.x, o.e).0),
                  Eligible(y, front) + if o.e.fee >= y.minFee then multiset{o.e.fee} else multiset{}, y.maxSize)
  {
    var p := Run(y, front);
    RunSound(y, front);
    NewcomerUnknown(y, front, o);
    NothingExpires(y, o.e.receivedAt, p);
    hide Expire, Settle, Sound, Unrelated, IsTop, Run, Held, Eligible;
    if o.e.fee >= y.minFee {
      SettleKeepsTop(y, p, o.x, o.e, Eligible(y, front));
    } else {
      assert Eligible(y, front) + multiset{} == Eligible(y, front);
    }
  }

  lemma {:induction false} NewcomerUnknown<T(!new)>(y: Policy, front: seq<Event<T>>, o: Event<T>)
    requires SoundPolicy(y) && Unrelated(front + [o]) && o.Offer?
    ensures var p := Run(y, front);
            o.x !in p.entries && (SlotOf(o.e).Some? ==> SlotOf(o.e).value !in p.bySlot)
  {
    var p := Run(y, front);
    RunSound(y, front);
    HeldWasOffered(y, front);
    forall i | 0 <= i < |front| ensures front[i].x != o.x && (SlotOf(o.e).None? || SlotOf(front[i].e) != SlotOf(o.e)) {
      assert (front + [o])[i] == front[i] && (front + [o])[|front|] == o;
    }
    forall x | x in p.entries ensures x != o.x && (SlotOf(o.e).None? || SlotOf(p.entries[x]) != SlotOf(o.e)) {
      assert WasOffered(front, x, p.entries[x]);
    }
  }
}
