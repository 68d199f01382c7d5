/** Mempool admission and retention: size, time to live, fee floor, sender cap, replace-by-fee. */
module Mempool {
  import opened Common

  type Slot = (string, int)

  datatype Policy = Policy(
    maxSize: int, minFee: int, maxPerSender: Option<int>, ttl: Option<real>, enableRbf: bool, rbfMinIncrease: int)

  /** What the policy's own checks demand. */
  ghost predicate SoundPolicy(y: Policy) {
    && y.maxSize >= 1 && y.minFee >= 0
    && (y.maxPerSender.Some? ==> y.maxPerSender.value >= 1)
    && (y.ttl.Some? ==> y.ttl.value > 0.0)
    && (y.enableRbf ==> y.rbfMinIncrease >= 1)
  }

  /** An entry; the pool finds it by the id of its transaction. */
  datatype Entry = Entry(fee: int, sender: Option<string>, nonce: Option<int>, receivedAt: real)

  /** The entries, the order in which they came in, and the index by slot. */
  datatype Pool<T> = Pool(entries: map<T, Entry>, order: seq<T>, bySlot: map<Slot, T>)

  datatype Outcome<T> =
    | Duplicate | BelowMinFee | RbfDisabled | RbfFeeTooLow | SenderLimit | PoolFull
    | Accepted(replaced: Option<T>, evicted: Option<T>)

  function SlotOf(e: Entry): Option<Slot> {
    if e.sender.Some? && e.nonce.Some? then Some((e.sender.value, e.nonce.value)) else None
  }

  function Without<T(==, !new)>(s: seq<T>, x: T): (r: seq<T>)
    ensures forall y :: y in r <==> y in s && y != x
    ensures |r| <= |s|
  {
    if s == [] then []
    else
      var front := Without(s[..|s| - 1], x);
      assert s == s[..|s| - 1] + [s[|s| - 1]];
      if s[|s| - 1] == x then front else front + [s[|s| - 1]]
  }

  function Discard<T(==, !new)>(p: Pool<T>, x: T): Pool<T> {
    if x !in p.entries then p
    else
      var slot := SlotOf(p.entries[x]);
      Pool(p.entries - {x}, Without(p.order, x), if slot.Some? then p.bySlot - {slot.value} else p.bySlot)
  }

  predicate Expired(y: Policy, now: real, e: Entry) {
    y.ttl.Some? && e.receivedAt < now - y.ttl.value
  }

  /** The ids of the expired entries, oldest first. */
  function ExpiredIn<T(==, !new)>(y: Policy, now: real, p: Pool<T>, order: seq<T>): seq<T> {
    if order == [] then []
    else
      var x := order[|order| - 1];
      var front := ExpiredIn(y, now, p, order[..|order| - 1]);
      if x in p.entries && Expired(y, now, p.entries[x]) then front + [x] else front
  }

  function DiscardAll<T(==, !new)>(p: Pool<T>, xs: seq<T>): Pool<T> {
    if xs == [] then p else Discard(DiscardAll(p, xs[..|xs| - 1]), xs[|xs| - 1])
  }

  function Expire<T(==, !new)>(y: Policy, now: real, p: Pool<T>): Pool<T> {
    DiscardAll(p, ExpiredIn(y, now, p, p.order))
  }

  /** The first entry, in order of arrival, with the lowest fee. */
  function Lowest<T(==, !new)>(p: Pool<T>, order: seq<T>): (r: Option<T>)
    ensures r.Some? ==> r.value in order && r.value in p.entries
    ensures r.Some? ==> forall x :: x in order && x in p.entries ==> p.entries[r.value].fee <= p.entries[x].fee
    ensures r.None? ==> forall x :: x in order ==> x !in p.entries
  {
    if order == [] then None
    else
      var x := order[|order| - 1];
      assert order == order[..|order| - 1] + [x];
      var front := Lowest(p, order[..|order| - 1]);
      if x in p.entries && (front.None? || p.entries[x].fee < p.entries[front.value].fee) then Some(x) else front
  }

  function SenderCount<T(==, !new)>(p: Pool<T>, sender: string): nat {
    |set x | x in p.entries && p.entries[x].sender == Some(sender)|
  }

  function Insert<T(==, !new)>(p: Pool<T>, x: T, e: Entry): Pool<T> {
    Pool(p.entries[x := e], p.order + [x], if SlotOf(e).Some? then p.bySlot[SlotOf(e).value := x] else p.bySlot)
  }

  /** Making room, then inserting. */
  function Settle<T(==, !new)>(y: Policy, p: Pool<T>, x: T, e: Entry, replaced: Option<T>): (Pool<T>, Outcome<T>) {
    if |p.entries| >= y.maxSize then
      var victim := Lowest(p, p.order);
      if victim.None? || p.entries[victim.value].fee >= e.fee then (p, PoolFull)
      else (Insert(Discard(p, victim.value), x, e), Accepted(replaced, victim))
    else (Insert(p, x, e), Accepted(replaced, None))
  }

  /** add */
  function Add<T(==, !new)>(y: Policy, pool: Pool<T>, x: T, e: Entry): (Pool<T>, Outcome<T>) {
    var p := Expire(y, e.receivedAt, pool);
    if x in p.entries then (p, Duplicate)
    else if e.fee < y.minFee then (p, BelowMinFee)
    else
      var slot := SlotOf(e);
      if slot.Some? && slot.value in p.bySlot && p.bySlot[slot.value] in p.entries then
        var old_ := p.bySlot[slot.value];
        if !y.enableRbf then (p, RbfDisabled)
        else if e.fee < p.entries[old_].fee + y.rbfMinIncrease then (p, RbfFeeTooLow)
        else Settle(y, Discard(p, old_), x, e, Some(old_))
      else if y.maxPerSender.Some? && e.sender.Some? && SenderCount(p, e.sender.value) >= y.maxPerSender.value then
        (p, SenderLimit)
      else Settle(y, p, x, e, None)
  }

  // ------------------------------------------------------------------ what every state keeps

  /** The index is exactly the inverse of the entries' slots, and no id is listed twice. */
  ghost predicate Indexed<T(!new)>(p: Pool<T>) {
    Listed(p.order, p.entries) && Points(p) && Found(p)
  }

  ghost predicate Listed<T(!new)>(order: seq<T>, entries: map<T, Entry>) {
    Distinct(order) && forall x :: x in order <==> x in entries
  }

  ghost predicate Points<T(!new)>(p: Pool<T>) {
    forall k :: k in p.bySlot ==> p.bySlot[k] in p.entries && SlotOf(p.entries[p.bySlot[k]]) == Some(k)
  }

  ghost predicate Found<T(!new)>(p: Pool<T>) {
    forall x :: x in p.entries && SlotOf(p.entries[x]).Some? ==> HasSlot(p, SlotOf(p.entries[x]).value, x)
  }

  ghost predicate HasSlot<T>(p: Pool<T>, k: Slot, x: T) {
    k in p.bySlot && p.bySlot[k] == x
  }

  ghost predicate WithinLimits<T(!new)>(y: Policy, p: Pool<T>) {
    && |p.entries| <= y.maxSize
    && (forall x :: x in p.entries ==> p.entries[x].fee >= y.minFee)
    && (y.maxPerSender.Some? ==> forall s :: SenderCount(p, s) <= y.maxPerSender.value)
  }

  ghost predicate Sound<T(!new)>(y: Policy, p: Pool<T>) {
    Indexed(p) && WithinLimits(y, p)
  }

  lemma {:induction false} WithoutDistinct<T(!new)>(s: seq<T>, x: T)
    requires Distinct(s)
    ensures Distinct(Without(s, x))
  {
    if s != [] {
      var front, z := s[..|s| - 1], s[|s| - 1];
      WithoutDistinct(front, x);
      forall i | 0 <= i < |Without(front, x)| ensures Without(front, x)[i] != z {
        assert Without(front, x)[i] in Without(front, x);
        assert Without(front, x)[i] in front;
      }
    }
  }

  lemma {:induction false} DiscardIndexed<T(!new)>(p: Pool<T>, x: T)
    requires Indexed(p)
    ensures Indexed(Discard(p, x))
  {
    WithoutDistinct(p.order, x);
    var q := Discard(p, x);
    forall k | k in q.bySlot ensures q.bySlot[k] in q.entries {
      assert SlotOf(p.entries[p.bySlot[k]]) == Some(k);
    }
    forall z | z in q.entries && SlotOf(q.entries[z]).Some? ensures HasSlot(q, SlotOf(q.entries[z]).value, z) {
      assert HasSlot(p, SlotOf(p.entries[z]).value, z);
      if x in p.entries && SlotOf(p.entries[x]).Some? {
        assert HasSlot(p, SlotOf(p.entries[x]).value, x);
      }
    }
  }

  lemma {:induction false} FewerEntries<T(!new)>(p: Pool<T>, q: Pool<T>, s: string)
    requires q.entries.Keys <= p.entries.Keys && forall x :: x in q.entries ==> q.entries[x] == p.entries[x]
    ensures |q.entries| <= |p.entries| && SenderCount(q, s) <= SenderCount(p, s)
  {
    var a := set x | x in q.entries && q.entries[x].sender == Some(s);
    var b := set x | x in p.entries && p.entries[x].sender == Some(s);
    assert a <= b;
    SubsetSize(a, b);
    SubsetSize(q.entries.Keys, p.entries.Keys);
    assert |q.entries| == |q.entries.Keys| && |p.entries| == |p.entries.Keys|;
  }

  lemma {:induction false} CountWithin<T(!new)>(p: Pool<T>, s: string)
    ensures SenderCount(p, s) <= |p.entries|
  {
    SubsetSize((set x | x in p.entries && p.entries[x].sender == Some(s)), p.entries.Keys);
    assert |p.entries| == |p.entries.Keys|;
  }

  lemma {:induction false} DiscardSound<T(!new)>(y: Policy, p: Pool<T>, x: T)
    requires Sound(y, p)
    ensures Sound(y, Discard(p, x)) && (x in p.entries ==> |Discard(p, x).entries| == |p.entries| - 1)
    ensures Discard(p, x).entries == p.entries - {x} && Discard(p, x).bySlot.Keys <= p.bySlot.Keys
  {
    DiscardIndexed(p, x);
    forall s ensures SenderCount(Discard(p, x), s) <= SenderCount(p, s) {
      FewerEntries(p, Discard(p, x), s);
    }
    FewerEntries(p, Discard(p, x), "");
    if x in p.entries {
      RemoveKeySize(p.entries, x);
    }
  }

  lemma {:induction false} DiscardAllSound<T(!new)>(y: Policy, p: Pool<T>, xs: seq<T>)
    requires Sound(y, p)
    ensures Sound(y, DiscardAll(p, xs))
    ensures forall x :: x in DiscardAll(p, xs).entries <==> x in p.entries && x !in xs
    ensures forall x :: x in DiscardAll(p, xs).entries ==> DiscardAll(p, xs).entries[x] == p.entries[x]
  {
    if xs != [] {
      var front, z := xs[..|xs| - 1], xs[|xs| - 1];
      assert xs == front + [z];
      DiscardAllSound(y, p, front);
      DiscardSound(y, DiscardAll(p, front), z);
    }
  }

  lemma {:induction false} ExpiredExactly<T(!new)>(y: Policy, now: real, p: Pool<T>, order: seq<T>)
    ensures forall x :: x in ExpiredIn(y, now, p, order) <==>
              x in order && x in p.entries && Expired(y, now, p.entries[x])
  {
    if order != [] {
      assert order == order[..|order| - 1] + [order[|order| - 1]];
      ExpiredExactly(y, now, p, order[..|order| - 1]);
    }
  }

  /** Expiry removes exactly the entries older than the time to live. */
  lemma {:induction false} ExpireExact<T(!new)>(y: Policy, now: real, p: Pool<T>)
    requires Sound(y, p)
    ensures var q := Expire(y, now, p);
            && Sound(y, q)
            && (forall x :: x in q.entries <==> x in p.entries && !Expired(y, now, p.entries[x]))
            && (forall x :: x in q.entries ==> q.entries[x] == p.entries[x])
  {
    ExpiredExactly(y, now, p, p.order);
    DiscardAllSound(y, p, ExpiredIn(y, now, p, p.order));
  }

  lemma {:induction false} InsertIndexed<T(!new)>(p: Pool<T>, x: T, e: Entry)
    requires Indexed(p) && x !in p.entries && (SlotOf(e).Some? ==> SlotOf(e).value !in p.bySlot)
    ensures Indexed(Insert(p, x, e)) && |Insert(p, x, e).entries| == |p.entries| + 1
  {
    assert Listed(p.order, p.entries) && Points(p) && Found(p);
    hide Listed, Found, Points, Distinct, HasSlot;
    var q := Insert(p, x, e);
    InsertListed(p.order, p.entries, x, e);
    InsertFound(p, x, e);
    InsertPoints(p, x, e);
    assert q.entries.Keys == p.entries.Keys + {x};
  }

  lemma {:induction false} InsertListed<T(!new)>(order: seq<T>, entries: map<T, Entry>, x: T, e: Entry)
    requires Listed(order, entries) && x !in entries
    ensures Listed(order + [x], entries[x := e])
  {
    assert (order + [x])[|order|] == x;
    assert forall z :: z in order + [x] <==> z in order || z == x;
  }

  lemma InsertPoints<T(!new)>(p: Pool<T>, x: T, e: Entry)
    requires Points(p) && x !in p.entries
    ensures Points(Insert(p, x, e))
  {
  }

  lemma {:induction false} InsertFound<T(!new)>(p: Pool<T>, x: T, e: Entry)
    requires Found(p) && Points(p) && x !in p.entries && (SlotOf(e).Some? ==> SlotOf(e).value !in p.bySlot)
    ensures Found(Insert(p, x, e))
  {
    var q := Insert(p, x, e);
    forall z | z in q.entries && SlotOf(q.entries[z]).Some? ensures HasSlot(q, SlotOf(q.entries[z]).value, z) {
      assert z != x ==> HasSlot(p, SlotOf(p.entries[z]).value, z);
    }
  }

  lemma {:induction false} InsertCount<T(!new)>(p: Pool<T>, x: T, e: Entry, s: string)
    requires x !in p.entries
    ensures SenderCount(Insert(p, x, e), s) == SenderCount(p, s) + if e.sender == Some(s) then 1 else 0
  {
    var q := Insert(p, x, e);
    var a := set z | z in p.entries && p.entries[z].sender == Some(s);
    var b := set z | z in q.entries && q.entries[z].sender == Some(s);
    if e.sender == Some(s) {
      assert b == a + {x};
    } else {
      assert b == a;
    }
  }

  lemma {:induction false} LowestFits<T(!new)>(p: Pool<T>)
    requires Indexed(p)
    ensures |p.entries| > 0 ==> Lowest(p, p.order).Some?
  {
    if |p.entries| > 0 {
      var x :| x in p.entries;
      assert x in p.order;
    }
  }

  lemma {:induction false} InsertSound<T(!new)>(y: Policy, p: Pool<T>, x: T, e: Entry)
    requires Sound(y, p) && x !in p.entries && e.fee >= y.minFee && |p.entries| < y.maxSize
    requires SlotOf(e).Some? ==> SlotOf(e).value !in p.bySlot
    requires y.maxPerSender.Some? && e.sender.Some? ==> SenderCount(p, e.sender.value) < y.maxPerSender.value
    ensures Sound(y, Insert(p, x, e)) && Insert(p, x, e).entries == p.entries[x := e]
  {
    InsertIndexed(p, x, e);
    hide Indexed, SenderCount;
    forall s ensures SenderCount(Insert(p, x, e), s) == SenderCount(p, s) + if e.sender == Some(s) then 1 else 0 {
      InsertCount(p, x, e, s);
    }
  }

  /** Room can be made and the entry put in: the limits hold again. */
  lemma {:induction false} SettleSound<T(!new)>(y: Policy, p: Pool<T>, x: T, e: Entry, replaced: Option<T>)
    requires SoundPolicy(y) && Sound(y, p) && x !in p.entries && e.fee >= y.minFee
    requires SlotOf(e).Some? ==> SlotOf(e).value !in p.bySlot
    requires y.maxPerSender.Some? && e.sender.Some? ==> SenderCount(p, e.sender.value) < y.maxPerSender.value
    ensures Sound(y, Settle(y, p, x, e, replaced).0)
    ensures |p.entries| < y.maxSize ==> Settle(y, p, x, e, replaced).1.Accepted?
    ensures !Settle(y, p, x, e, replaced).1.Accepted? ==> Settle(y, p, x, e, replaced).0 == p
    ensures forall z :: z in Settle(y, p, x, e, replaced).0.entries && z != x ==> z in p.entries
    ensures Settle(y, p, x, e, replaced).1.Accepted? ==> Settle(y, p, x, e, replaced).1.replaced == replaced
    ensures |p.entries| < y.maxSize ==> Settle(y, p, x, e, replaced).1 == Accepted(replaced, None)
  {
    hide Indexed, SenderCount, Discard, Insert, Lowest;
    if |p.entries| < y.maxSize {
      hide WithinLimits, Sound;
      InsertSound(y, p, x, e);
    } else {
      Evicts(y, p, x, e);
    }
  }

  /** A full pool gives up its lowest bid. */
  lemma {:induction false} Evicts<T(!new)>(y: Policy, p: Pool<T>, x: T, e: Entry)
    requires SoundPolicy(y) && Sound(y, p) && x !in p.entries && e.fee >= y.minFee && |p.entries| >= y.maxSize
    requires SlotOf(e).Some? ==> SlotOf(e).value !in p.bySlot
    requires y.maxPerSender.Some? && e.sender.Some? ==> SenderCount(p, e.sender.value) < y.maxPerSender.value
    ensures Lowest(p, p.order).Some? && Lowest(p, p.order).value in p.entries
    ensures var q := Insert(Discard(p, Lowest(p, p.order).value), x, e);
            Sound(y, q) && forall z :: z in q.entries && z != x ==> z in p.entries
  {
    LowestFits(p);
    assert |p.entries| == y.maxSize;
    hide Indexed, SenderCount, Discard, WithinLimits, Sound, Insert;
    var victim := Lowest(p, p.order).value;
    hide Lowest;
    var q := Discard(p, victim);
    DiscardSound(y, p, victim);
    if e.sender.Some? {
      FewerEntries(p, q, e.sender.value);
    }
    InsertSound(y, q, x, e);
  }

  // ------------------------------------------------------------------ admission

  /** Every add keeps the pool within its limits and its index exact. */
  lemma {:induction false} AddSound<T(!new)>(y: Policy, pool: Pool<T>, x: T, e: Entry)
    requires SoundPolicy(y) && Sound(y, pool)
    ensures Sound(y, Add(y, pool, x, e).0)
    ensures !Add(y, pool, x, e).1.Accepted? ==> Add(y, pool, x, e).0 == Expire(y, e.receivedAt, pool)
    ensures forall z :: z in Add(y, pool, x, e).0.entries && z != x ==> z in Expire(y, e.receivedAt, pool).entries
  {
    hide Expire, Settle, Discard, SenderCount;
    ExpireExact(y, e.receivedAt, pool);
    var p := Expire(y, e.receivedAt, pool);
    var slot := SlotOf(e);
    assert |p.entries| <= y.maxSize && Indexed(p) && Sound(y, p);
    hide Sound, Indexed, WithinLimits;
    if x !in p.entries && e.fee >= y.minFee {
      if slot.Some? && slot.value in p.bySlot {
        Vacate(p, slot.value);
        var old_ := p.bySlot[slot.value];
        DiscardSound(y, p, old_);
        SenderWithin(y, p, e.sender.value);
        SettleSound(y, Discard(p, old_), x, e, Some(old_));
      } else if y.maxPerSender.Some? && e.sender.Some? && SenderCount(p, e.sender.value) >= y.maxPerSender.value {
      } else {
        SettleSound(y, p, x, e, None);
      }
    }
  }

  lemma SenderWithin<T(!new)>(y: Policy, p: Pool<T>, s: string)
    requires Sound(y, p)
    ensures y.maxPerSender.Some? ==> SenderCount(p, s) <= y.maxPerSender.value
  {
  }

  /** Discarding the holder of a slot frees the slot and lowers its sender's count. */
  lemma {:induction false} Vacate<T(!new)>(p: Pool<T>, k: Slot)
    requires Indexed(p) && k in p.bySlot
    ensures var x := p.bySlot[k];
            && x in p.entries && SlotOf(p.entries[x]) == Some(k)
            && k !in Discard(p, x).bySlot && Discard(p, x).entries == p.entries - {x}
            && SenderCount(Discard(p, x), k.0) == SenderCount(p, k.0) - 1
  {
    var x := p.bySlot[k];
    var s, q := p.entries[x].sender.value, Discard(p, x);
    var a := set z | z in q.entries && q.entries[z].sender == Some(s);
    var b := set z | z in p.entries && p.entries[z].sender == Some(s);
    assert b == a + {x};
  }

  /** A slot is taken over only by a higher bid, by at least the required increase, and its former
      holder leaves. */
  lemma {:induction false} ReplacedPaysMore<T(!new)>(y: Policy, pool: Pool<T>, x: T, e: Entry)
    requires SoundPolicy(y) && Sound(y, pool) && Add(y, pool, x, e).1.Accepted? && Add(y, pool, x, e).1.replaced.Some?
    ensures var p, former := Expire(y, e.receivedAt, pool), Add(y, pool, x, e).1.replaced.value;
            && former in p.entries && SlotOf(p.entries[former]) == SlotOf(e)
            && e.fee >= p.entries[former].fee + y.rbfMinIncrease
            && former !in Add(y, pool, x, e).0.entries
            && Add(y, pool, x, e).1.evicted == None
  {
    ExpireExact(y, e.receivedAt, pool);
    var p := Expire(y, e.receivedAt, pool);
    assert |p.entries| <= y.maxSize;
    hide Expire, Settle, Discard, Indexed, WithinLimits, SenderCount;
    var former := Add(y, pool, x, e).1.replaced.value;
    var slot := SlotOf(e);
    if slot.Some? && slot.value in p.bySlot {
      Vacate(p, slot.value);
      DiscardSound(y, p, p.bySlot[slot.value]);
      SenderWithin(y, p, e.sender.value);
      SettleSound(y, Discard(p, p.bySlot[slot.value]), x, e, Some(p.bySlot[slot.value]));
    } else {
      SettleSound(y, p, x, e, None);
    }
  }

  // ------------------------------------------------------------------ the highest bidders stay

  /** `held` are the k largest of `offered`. */
  ghost predicate IsTop(held: multiset<int>, offered: multiset<int>, k: nat) {
    && held <= offered
    && |held| == (if |offered| < k then |offered| else k)
    && forall x, z :: x in held && z in offered - held ==> z <= x
  }

  lemma {:induction false} TopTake(held: multiset<int>, offered: multiset<int>, k: nat, f: int)
    requires IsTop(held, offered, k) && |held| < k
    ensures IsTop(held + multiset{f}, offered + multiset{f}, k)
  {
    assert |offered - held| == |offered| - |held|;
    assert offered - held == multiset{};
    assert (offered + multiset{f}) - (held + multiset{f}) == multiset{};
  }

  lemma {:induction false} TopReject(held: multiset<int>, offered: multiset<int>, k: nat, f: int)
    requires IsTop(held, offered, k) && |held| >= k && forall x :: x in held ==> f <= x
    ensures IsTop(held, offered + multiset{f}, k)
  {
    assert (offered + multiset{f}) - held == (offered - held) + multiset{f};
  }

  lemma {:induction false} TopReplace(held: multiset<int>, offered: multiset<int>, k: nat, f: int, v: int)
    requires IsTop(held, offered, k) && |held| >= k && v in held && v < f && forall x :: x in held ==> v <= x
    ensures IsTop(held - multiset{v} + multiset{f}, offered + multiset{f}, k)
  {
    var held', offered' := held - multiset{v} + multiset{f}, offered + multiset{f};
    assert offered' - held' == (offered - held) + multiset{v};
    assert |held'| == |held|;
  }

  /** There is only one such multiset. */
  lemma {:induction false} TopUnique(a: multiset<int>, b: multiset<int>, offered: multiset<int>, k: nat)
    requires IsTop(a, offered, k) && IsTop(b, offered, k)
    ensures a == b
  {
    if a != b {
      var x := MoreOften(a, b, offered);
      var z := MoreOften(b, a, offered);
    }
  }

  lemma {:induction false} MoreOften(a: multiset<int>, b: multiset<int>, offered: multiset<int>) returns (x: int)
    requires |a| == |b| && a != b && a <= offered
    ensures a[x] > b[x] && x in a && x in offered - b
  {
    if !exists x :: x in a && a[x] > b[x] {
      SameSizeEqual(a, b);
    }
    x :| x in a && a[x] > b[x];
  }

  lemma {:induction false} SameSizeEqual(a: multiset<int>, b: multiset<int>)
    requires |a| == |b| && forall x :: x in a ==> a[x] <= b[x]
    ensures a == b
  {
    forall x ensures a[x] <= b[x] {
      assert x !in a ==> a[x] == 0;
    }
    assert a <= b;
    assert b == a + (b - a);
    assert |b - a| == 0;
    assert b - a == multiset{};
  }
}
