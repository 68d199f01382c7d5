/** The pool as the code keeps it: two dictionaries changed in place. */
module TransactionPools {
  import opened Common
  import opened Mempool
  import opened MempoolRuns

  class TransactionPool<T(==, !new)> {
    const policy: Policy
    var entries: map<T, Entry>
    var order: seq<T>
    var bySlot: map<Slot, T>

    ghost function Snapshot(): Pool<T> reads this { Pool(entries, order, bySlot) }

    ghost predicate Valid() reads this { SoundPolicy(policy) && Sound(policy, Snapshot()) }

    constructor (policy: Policy)
      requires SoundPolicy(policy)
      ensures Valid() && Snapshot() == EmptyPool() && this.policy == policy
    {
      this.policy := policy;
      entries, order, bySlot := map[], [], map[];
      new;
      RunSound<T>(policy, []);
    }

    /** _discard, which is also remove */
    method Remove(x: T) returns (found: bool)
      modifies this`entries, this`order, this`bySlot
      ensures Snapshot() == Discard(old(Snapshot()), x)
      ensures found == (x in old(entries))
    {
      if x !in entries { return false; }
      var e := entries[x];
      entries := entries - {x};
      order := Without(order, x);
      if e.sender.Some? && e.nonce.Some? {
        bySlot := bySlot - {(e.sender.value, e.nonce.value)};
      }
      return true;
    }

    method RemoveIncluded(xs: seq<T>)
      requires Valid()
      modifies this`entries, this`order, this`bySlot
      ensures Valid() && Snapshot() == DiscardAll(old(Snapshot()), xs)
    {
      hide Sound, Discard;
      for i := 0 to |xs|
        invariant Snapshot() == DiscardAll(old(Snapshot()), xs[..i])
      {
        var found := Remove(xs[i]);
        assert xs[..i + 1][..i] == xs[..i];
      }
      assert xs[..|xs|] == xs;
      DiscardAllSound(policy, old(Snapshot()), xs);
    }

    /** The entries older than the time to live leave, in order of arrival. */
    method EvictExpired(now: real) returns (expired: seq<T>)
      requires Valid()
      modifies this`entries, this`order, this`bySlot
      ensures Valid() && Snapshot() == Expire(policy, now, old(Snapshot()))
      ensures expired == ExpiredIn(policy, now, old(Snapshot()), old(order))
    {
      if policy.ttl.None? {
        NothingExpires(policy, now, Snapshot());
        NoneExpired(policy, now, Snapshot(), order);
        return [];
      }
      var cutoff := now - policy.ttl.value;
      expired := [];
      assert forall x :: x in order ==> x in entries;
      hide Sound, Discard, DiscardAll;
      for i := 0 to |order|
        invariant Snapshot() == old(Snapshot())
        invariant expired == ExpiredIn(policy, now, Snapshot(), order[..i])
      {
        assert order[..i + 1][..i] == order[..i];
        if entries[order[i]].receivedAt < cutoff { expired := expired + [order[i]]; }
      }
      assert order[..|order|] == order;
      RemoveIncluded(expired);
    }

    /** The first of the lowest bids, in order of arrival. */
    method LowestFeeEntry() returns (lowest: Option<T>)
      requires forall x :: x in order ==> x in entries
      ensures lowest == Lowest(Snapshot(), order)
    {
      lowest := None;
      for i := 0 to |order|
        invariant lowest == Lowest(Snapshot(), order[..i])
      {
        assert order[..i + 1][..i] == order[..i];
        var x := order[i];
        if lowest.None? || entries[x].fee < entries[lowest.value].fee { lowest := Some(x); }
      }
      assert order[..|order|] == order;
    }

    method Count(sender: string) returns (n: nat)
      requires Listed(order, entries)
      ensures n == SenderCount(Snapshot(), sender)
    {
      n := 0;
      ghost var seen: set<T> := {};
      for i := 0 to |order|
        invariant seen == set x | x in order[..i] && entries[x].sender == Some(sender)
        invariant n == |seen|
      {
        var x := order[i];
        assert order[..i + 1] == order[..i] + [x];
        assert x !in order[..i];
        if entries[x].sender == Some(sender) {
          n := n + 1;
          seen := seen + {x};
        }
      }
      assert order[..|order|] == order;
      assert seen == set x | x in entries && entries[x].sender == Some(sender);
    }

    /** add */
    method Offer(x: T, fee: int, sender: Option<string>, nonce: Option<int>, now: real) returns (r: Outcome<T>)
      requires Valid()
      modifies this`entries, this`order, this`bySlot
      ensures Valid()
      ensures (Snapshot(), r) == Add(policy, old(Snapshot()), x, Entry(fee, sender, nonce, now))
    {
      ghost var was := Snapshot();
      ghost var e := Entry(fee, sender, nonce, now);
      AddSound(policy, was, x, e);
      var expired := EvictExpired(now);
      ghost var p := Snapshot();
      assert Listed(order, entries) && Points(p);
      hide Expire, Discard, Sound, SenderCount, Points, Listed;
      if x in entries { return Duplicate; }
      if fee < policy.minFee { return BelowMinFee; }
      var slot := if sender.Some? && nonce.Some? then Some((sender.value, nonce.value)) else None;
      if slot.Some? && slot.value in bySlot {
        var former := bySlot[slot.value];
        PointsInto(p, slot.value);
        if !policy.enableRbf { return RbfDisabled; }
        if fee < entries[former].fee + policy.rbfMinIncrease { return RbfFeeTooLow; }
        DiscardSound(policy, p, former);
        var found := Remove(former);
        r := Admit(x, fee, sender, nonce, now, Some(former));
        return;
      }
      if policy.maxPerSender.Some? && sender.Some? {
        var n := Count(sender.value);
        if n >= policy.maxPerSender.value { return SenderLimit; }
      }
      r := Admit(x, fee, sender, nonce, now, None);
    }

    /** The second half of add: make room, then insert. */
    method Admit(x: T, fee: int, sender: Option<string>, nonce: Option<int>, now: real,
        replaced: Option<T>) returns (r: Outcome<T>)
      requires Sound(policy, Snapshot())
      modifies this`entries, this`order, this`bySlot
      ensures (Snapshot(), r) == Settle(policy, old(Snapshot()), x, Entry(fee, sender, nonce, now), replaced)
    {
      var evicted: Option<T> := None;
      if |entries| >= policy.maxSize {
        var victim := LowestFeeEntry();
        hide Sound, Discard;
        if victim.None? || entries[victim.value].fee >= fee { return PoolFull; }
        var found := Remove(victim.value);
        evicted := victim;
      }
      entries := entries[x := Entry(fee, sender, nonce, now)];
      order := order + [x];
      if sender.Some? && nonce.Some? {
        bySlot := bySlot[(sender.value, nonce.value) := x];
      }
      return Accepted(replaced, evicted);
    }
  }

  lemma PointsInto<T(!new)>(p: Pool<T>, k: Slot)
    requires Points(p) && k in p.bySlot
    ensures p.bySlot[k] in p.entries
  {
  }
}
