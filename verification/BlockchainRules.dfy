/** What a produced block holds, in terms of the bids that wait and the price: who is included, what is
    burned and tipped, and the base fee that follows. */
module BlockchainRules {
  import opened Common
  import opened Fees
  import opened FeeRules
  import opened Mempool
  import opened MempoolOutcomes
  import opened BalanceLedger
  import opened Blockchain

  /** The fee a transaction has to declare. */
  function Asked(y: FeePolicy, baseFee: int): int { if y.Eip1559? then baseFee else 0 }

  /** The waiting transactions that pay the price. */
  ghost function Paying(w: map<Transaction, Entry>, price: int): set<Transaction> {
    set tx | tx in w && tx.fee >= price
  }

  // ------------------------------------------------------------------ admission

  /** A transaction below the price changes nothing; any other is a bid of its fee, from its sender, at its
      nonce, made now. */
  lemma {:induction false} SubmitExactly(g: Config, c: Chain, tx: Transaction, now: real)
    ensures Submit(g, c, tx, now) ==
            if tx.fee < Asked(g.fees, c.baseFee) then c
            else c.(pool := Mempool.Add(g.pool, c.pool, tx, Entry(tx.fee, Some(tx.sender), Some(tx.nonce), now)).0)
  {
    hide Mempool.Add;
  }

  // ------------------------------------------------------------------ who is included

  /** Of the transactions that wait and pay the price a block takes all that fit, the highest bids first;
      what it takes stops waiting. */
  lemma {:induction false} IncludedExactly(g: Config, c: Chain, miner: Option<string>, now: real)
    requires SoundConfig(g) && Accounted(g, c) && Settlement(g, c, miner, now).Ok?
    ensures var txs, w := NewBlock(g, c, miner, now).txs, Alive(g.pool, c.pool.entries, now);
            var paying := Paying(w, Asked(g.fees, c.baseFee));
            && |txs| == (if |paying| < g.maxTransactions then |paying| else g.maxTransactions)
            && (forall i :: 0 <= i < |txs| ==> txs[i] in paying)
            && (forall i, j :: 0 <= i < j < |txs| ==> txs[i].fee >= txs[j].fee)
            && (forall tx, i :: tx in paying && tx !in txs && 0 <= i < |txs| ==> tx.fee <= txs[i].fee)
            && Produce(g, c, miner, now).pool.entries == w - Elements(txs)
  {
    hide Chosen, Charges, DiscardAll, ApplyBlock, Burned, Tips, NextBaseFee, Mempool.Sound, Alive, Expire, Context,
      Counted, Blockchain.Balanced, Covered;
    var p, chosen := Expire(g.pool, now, c.pool), Chosen(g, c, now);
    var w := Alive(g.pool, c.pool.entries, now);
    ExpireLeaves(g.pool, c.pool, now);
    OrderListed(g.pool, p);
    ChosenExactly(g, c, now, p, w);
    DiscardAllSound(g.pool, p, Txs(chosen));
    MapEquality(DiscardAll(p, Txs(chosen)).entries, w - Elements(Txs(chosen)));
  }

  lemma OrderListed<T(!new)>(y: Policy, p: Pool<T>)
    requires Mempool.Sound(y, p)
    ensures Listed(p.order, p.entries)
  {
  }

  lemma {:induction false} ChosenExactly(g: Config, c: Chain, now: real, p: Pool<Transaction>,
      w: map<Transaction, Entry>)
    requires SoundConfig(g) && p == Expire(g.pool, now, c.pool) && Listed(p.order, w)
    ensures var txs, paying := Txs(Chosen(g, c, now)), Paying(w, Asked(g.fees, c.baseFee));
            && |txs| == (if |paying| < g.maxTransactions then |paying| else g.maxTransactions)
            && (forall i :: 0 <= i < |txs| ==> txs[i] in paying)
            && (forall i, j :: 0 <= i < j < |txs| ==> txs[i].fee >= txs[j].fee)
            && (forall tx, i :: tx in paying && tx !in txs && 0 <= i < |txs| ==> tx.fee <= txs[i].fee)
  {
    hide Select, Expire, Listed;
    var x := Context(g, c.baseFee, c.lastCount);
    Among(g.fees, x, p.order, w);
    Best(g.fees, x, p.order, w);
  }

  lemma {:induction false} Among(y: FeePolicy, x: BlockContext, order: seq<Transaction>, w: map<Transaction, Entry>)
    requires x.maxTransactions >= 1 && Listed(order, w)
    ensures var txs, paying := Txs(Select(y, x, Bids(order))), Paying(w, Asked(y, x.baseFee));
            && |txs| == (if |paying| < x.maxTransactions then |paying| else x.maxTransactions)
            && (forall i :: 0 <= i < |txs| ==> txs[i] in paying)
            && (forall i, j :: 0 <= i < j < |txs| ==> txs[i].fee >= txs[j].fee)
  {
    var bids, price := Bids(order), Asked(y, x.baseFee);
    var chosen := Select(y, x, bids);
    SelectionExactly(y, x, bids);
    hide Select, Reaching;
    PayingCount(order, w, price);
    forall i | 0 <= i < |chosen| ensures chosen[i].tx in Paying(w, price) && chosen[i].fee == chosen[i].tx.fee {
      BidOf(order, w, chosen, price, i);
    }
    hide Paying, Listed;
  }

  lemma {:induction false} BidOf(order: seq<Transaction>, w: map<Transaction, Entry>, chosen: seq<Bid<Transaction>>,
      price: int, i: nat)
    requires Listed(order, w) && i < |chosen|
    requires forall b :: multiset(chosen)[b] <= if b.fee >= price then multiset(Bids(order))[b] else 0
    ensures chosen[i].tx in Paying(w, price) && chosen[i].fee == chosen[i].tx.fee
  {
    assert chosen[i] in multiset(chosen);
    assert chosen[i] in Bids(order);
    assert chosen[i].tx in order;
  }

  lemma {:induction false} Best(y: FeePolicy, x: BlockContext, order: seq<Transaction>, w: map<Transaction, Entry>)
    requires x.maxTransactions >= 1 && Listed(order, w)
    ensures var txs, paying := Txs(Select(y, x, Bids(order))), Paying(w, Asked(y, x.baseFee));
            forall tx, i :: tx in paying && tx !in txs && 0 <= i < |txs| ==> tx.fee <= txs[i].fee
  {
    var bids, price := Bids(order), Asked(y, x.baseFee);
    var chosen := Select(y, x, bids);
    SelectionExactly(y, x, bids);
    hide Select, Reaching;
    forall tx, i | tx in Paying(w, price) && tx !in Txs(chosen)
      && 0 <= i < |chosen| ensures tx.fee <= chosen[i].tx.fee {
      LeftOut(order, chosen, tx);
      BidOf(order, w, chosen, price, i);
      assert chosen[i] in chosen;
    }
  }

  lemma {:induction false} LeftOut(order: seq<Transaction>, chosen: seq<Bid<Transaction>>, tx: Transaction)
    requires tx in order && tx !in Txs(chosen)
    ensures multiset(Bids(order))[Bid(tx, tx.fee)] > multiset(chosen)[Bid(tx, tx.fee)]
  {
    var b := Bid(tx, tx.fee);
    var i :| 0 <= i < |order| && order[i] == tx;
    assert Bids(order)[i] == b;
    assert b in multiset(Bids(order));
    if b in chosen {
      var k :| 0 <= k < |chosen| && chosen[k] == b;
      assert Txs(chosen)[k] == tx;
    }
  }

  lemma {:induction false} PayingCount(order: seq<Transaction>, w: map<Transaction, Entry>, price: int)
    requires Listed(order, w)
    ensures |Reaching(Bids(order), price)| == |Paying(w, price)|
  {
    ListedCount(order, price);
    assert Paying(w, price) == (set tx | tx in order && tx.fee >= price);
  }

  lemma {:induction false} ListedCount(order: seq<Transaction>, price: int)
    requires Distinct(order)
    ensures |Reaching(Bids(order), price)| == |set tx | tx in order && tx.fee >= price|
  {
    if order == [] {
      assert Reaching(Bids(order), price) == {};
    } else {
      var n := |order| - 1;
      ListedCount(order[..n], price);
      assert Bids(order)[..n] == Bids(order[..n]);
      ReachingMore(Bids(order), price);
      hide Reaching;
      PayingMore(order, price);
    }
  }

  lemma {:induction false} PayingMore(order: seq<Transaction>, price: int)
    requires Distinct(order) && order != []
    ensures var n := |order| - 1;
            |set tx | tx in order && tx.fee >= price| ==
            |set tx | tx in order[..n] && tx.fee >= price| + if order[n].fee >= price then 1 else 0
  {
    var n := |order| - 1;
    var front := set tx | tx in order[..n] && tx.fee >= price;
    assert order == order[..n] + [order[n]] && order[n] !in order[..n];
    assert (set tx | tx in order && tx.fee >= price) == front + if order[n].fee >= price then {order[n]} else {};
  }

  // ------------------------------------------------------------------ what is burned and tipped

  function DeclaredFees(txs: seq<Transaction>): int {
    if txs == [] then 0 else DeclaredFees(txs[..|txs| - 1]) + txs[|txs| - 1].fee
  }

  /** Every included transaction burns the base fee under that policy and nothing under any other; what it pays
      besides is the tip: its declared fee is charged, or the median of all. */
  lemma {:induction false} TotalsExactly(g: Config, c: Chain, miner: Option<string>, now: real)
    requires SoundConfig(g) && Accounted(g, c) && Settlement(g, c, miner, now).Ok?
    ensures var b := NewBlock(g, c, miner, now);
            && b.totalBurned == (if g.fees.Eip1559? then c.baseFee else 0) * |b.txs|
            && b.totalTips + b.totalBurned == if g.fees.MedianFee? then Median(Chosen(g, c, now)) * |b.txs|
                                              else DeclaredFees(b.txs)
  {
    hide Charges, ApplyBlock, Burned, Tips, Chosen, Mempool.Sound, Counted, Blockchain.Balanced, Covered;
    var chosen := Chosen(g, c, now);
    var charges := Charges(g.fees, Context(g, c.baseFee, c.lastCount), chosen);
    ChargesExactly(g, c, now);
    TotalsOf(Txs(chosen), charges, if g.fees.Eip1559? then c.baseFee else 0,
      if g.fees.MedianFee? then Some(Median(chosen)) else None);
  }

  ghost predicate ChargedAt(txs: seq<Transaction>, charges: seq<Option<FeeCharge>>, burned: int, clearing: Option<int>,
      i: int)
    requires 0 <= i < |txs| == |charges|
  {
    charges[i].Some? && charges[i].value.burned == burned
    && charges[i].value.tip + burned == if clearing.Some? then clearing.value else txs[i].fee
  }

  ghost predicate AllCharged(txs: seq<Transaction>, charges: seq<Option<FeeCharge>>, burned: int,
      clearing: Option<int>)
    requires |txs| == |charges|
  {
    forall i :: 0 <= i < |charges| ==> ChargedAt(txs, charges, burned, clearing, i)
  }

  lemma {:induction false} ChargesExactly(g: Config, c: Chain, now: real)
    requires SoundConfig(g) && Priced(g, c)
    ensures var chosen := Chosen(g, c, now);
            var charges := Charges(g.fees, Context(g, c.baseFee, c.lastCount), chosen);
            AllCharged(Txs(chosen), charges, if g.fees.Eip1559? then c.baseFee else 0,
              if g.fees.MedianFee? then Some(Median(chosen)) else None)
  {
    var x, bids := Context(g, c.baseFee, c.lastCount), Bids(Expire(g.pool, now, c.pool).order);
    hide Select, Expire, Median;
    ChosenCharges(g, c, now);
  }

  lemma {:induction false} TotalsOf(txs: seq<Transaction>, charges: seq<Option<FeeCharge>>, burned: int,
      clearing: Option<int>)
    requires |txs| == |charges| && AllCharged(txs, charges, burned, clearing)
    ensures Burned(charges) == burned * |txs|
    ensures Tips(charges) + Burned(charges) == if clearing.Some? then clearing.value * |txs| else DeclaredFees(txs)
  {
    if txs != [] {
      var n := |txs| - 1;
      forall i | 0 <= i < n ensures ChargedAt(txs[..n], charges[..n], burned, clearing, i) {
        assert ChargedAt(txs, charges, burned, clearing, i);
      }
      TotalsOf(txs[..n], charges[..n], burned, clearing);
      assert ChargedAt(txs, charges, burned, clearing, n);
      OneMore(burned, n);
      if clearing.Some? {
        OneMore(clearing.value, n);
      }
    }
  }

  lemma OneMore(x: int, n: nat)
    ensures x * (n + 1) == x * n + x
  {
  }

  // ------------------------------------------------------------------ what follows

  /** The block records where and when it was made; the base fee moves with the number of its transactions, in
      eighths, and only under the policy that has one. */
  lemma {:induction false} FollowsExactly(g: Config, c: Chain, miner: Option<string>, now: real)
    requires SoundConfig(g) && Accounted(g, c) && Settlement(g, c, miner, now).Ok?
    ensures var b, u := NewBlock(g, c, miner, now), Produce(g, c, miner, now);
            && b.index == |c.blocks| && b.miner == miner && b.baseFee == c.baseFee && b.snapshot == u.state
            && u.blocks == c.blocks + [b] && u.lastCount == |b.txs|
            && (!g.fees.Eip1559? ==> u.baseFee == c.baseFee)
            && (g.fees.Eip1559? ==>
                 var n, t := |b.txs|, if g.target.Some? then g.target.value
                                      else if g.maxTransactions < 2 then 1 else g.maxTransactions / 2;
                 && (n == t ==> u.baseFee == c.baseFee)
                 && (n > t ==> Rises(g.fees.minBaseFee, c.baseFee, n - t, t, 8, u.baseFee))
                 && (n < t ==> Falls(g.fees.minBaseFee, c.baseFee, t - n, t, 8, u.baseFee)))
  {
    hide Chosen, Charges, Expire, DiscardAll, ApplyBlock, Burned, Tips, Rises, Falls, NextBaseFee, Mempool.Sound,
      Counted, Blockchain.Balanced, Covered;
    var x := Context(g, c.baseFee, |Chosen(g, c, now)|);
    NextBaseFeeExactly(if g.fees.Eip1559? then g.fees.minBaseFee else 0, x);
  }
}
