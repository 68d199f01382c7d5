/** The chain engine over the account ledger: mempool, fee market and ledger tied together. */
module Blockchain {
  import opened Common
  import opened Fees
  import opened Mempool
  import MempoolRuns
  import Ledger = BalanceLedger
  import opened BalanceLedger

  datatype Config = Config(
    ledger: Ledger.Settings, fees: FeePolicy, pool: Policy, maxTransactions: int, target: Option<int>, reward: int,
    initialBaseFee: int, genesis: map<string, int>)

  const MAX_CHANGE_DENOMINATOR := 8

  /** What a configuration is checked for before it is built. */
  ghost predicate SoundConfig(g: Config) {
    && SoundPolicy(g.pool) && SoundFeePolicy(g.fees)
    && g.maxTransactions >= 1 && (g.target.Some? ==> 1 <= g.target.value <= g.maxTransactions)
    && g.reward >= 0 && g.initialBaseFee >= 0
    && (g.fees.Eip1559? ==> g.initialBaseFee >= g.fees.minBaseFee)
    && NonNegative(g.genesis)
  }

  datatype Block = Block(
    index: nat, miner: Option<string>, txs: seq<Transaction>, baseFee: int, totalBurned: int, totalTips: int,
    snapshot: BalanceState)

  datatype Chain = Chain(state: BalanceState, baseFee: int, blocks: seq<Block>, pool: Pool<Transaction>, lastCount: int)

  function Start(g: Config): Chain {
    Chain(BalanceState(g.genesis, map[], 0), g.initialBaseFee, [], MempoolRuns.EmptyPool(), 0)
  }

  function Context(g: Config, baseFee: int, parentCount: int): BlockContext {
    BlockContext(g.maxTransactions, baseFee, g.target, parentCount, MAX_CHANGE_DENOMINATOR)
  }

  function EntryOf(tx: Transaction, now: real): Entry { Entry(tx.fee, Some(tx.sender), Some(tx.nonce), now) }

  // ------------------------------------------------------------------ steps

  function Submit(g: Config, c: Chain, tx: Transaction, now: real): Chain {
    if IsValidFee(g.fees, Context(g, c.baseFee, c.lastCount), tx.fee) then Reinject(g, c, tx, now) else c
  }

  /** A reverted transaction goes back through the mempool's own admission. */
  function Reinject(g: Config, c: Chain, tx: Transaction, now: real): Chain {
    c.(pool := Mempool.Add(g.pool, c.pool, tx, EntryOf(tx, now)).0)
  }

  function Bids(txs: seq<Transaction>): (r: seq<Bid<Transaction>>)
    ensures |r| == |txs|
  {
    seq(|txs|, i requires 0 <= i < |txs| => Bid(txs[i], txs[i].fee))
  }

  function Txs(bids: seq<Bid<Transaction>>): (r: seq<Transaction>)
    ensures |r| == |bids|
  {
    seq(|bids|, i requires 0 <= i < |bids| => bids[i].tx)
  }

  function Charges(y: FeePolicy, x: BlockContext, selected: seq<Bid<Transaction>>): (r: seq<Option<FeeCharge>>)
    ensures |r| == |selected|
  {
    seq(|selected|, i requires 0 <= i < |selected| => Charge(y, x, selected, selected[i].fee))
  }

  function Tips(charges: seq<Option<FeeCharge>>): int {
    if charges == [] then 0
    else
      var n := |charges| - 1;
      Tips(charges[..n]) + if charges[n].Some? then charges[n].value.tip else 0
  }

  /** What a block takes from the pool once expired entries are gone. */
  function Chosen(g: Config, c: Chain, now: real): seq<Bid<Transaction>>
    requires g.maxTransactions >= 1
  {
    Select(g.fees, Context(g, c.baseFee, c.lastCount), Bids(Expire(g.pool, now, c.pool).order))
  }

  function Settlement(g: Config, c: Chain, miner: Option<string>, now: real): Ledger.Result
    requires g.maxTransactions >= 1
  {
    var chosen := Chosen(g, c, now);
    ApplyBlock(g.ledger, Txs(chosen), c.state, Charges(g.fees, Context(g, c.baseFee, c.lastCount), chosen), miner,
      g.reward)
  }

  function NewBlock(g: Config, c: Chain, miner: Option<string>, now: real): Block
    requires g.maxTransactions >= 1 && Settlement(g, c, miner, now).Ok?
  {
    var chosen := Chosen(g, c, now);
    var charges := Charges(g.fees, Context(g, c.baseFee, c.lastCount), chosen);
    Block(|c.blocks|, miner, Txs(chosen), c.baseFee, Burned(charges), Tips(charges), Settlement(g, c, miner, now).state)
  }

  /** produce_block; a ledger error leaves everything but the expired entries as it was. */
  function Produce(g: Config, c: Chain, miner: Option<string>, now: real): Chain
    requires g.maxTransactions >= 1 && c.baseFee >= 0 && (g.target.Some? ==> g.target.value >= 1)
  {
    var p := Expire(g.pool, now, c.pool);
    var r := Settlement(g, c, miner, now);
    if r.Err? then c.(pool := p)
    else
      var b := NewBlock(g, c, miner, now);
      Chain(r.state, NextBaseFee(g.fees, Context(g, c.baseFee, |b.txs|)), c.blocks + [b], DiscardAll(p, b.txs), |b.txs|)
  }

  // ------------------------------------------------------------------ the books

  function Included(blocks: seq<Block>): seq<Transaction> {
    if blocks == [] then [] else Included(blocks[..|blocks| - 1]) + blocks[|blocks| - 1].txs
  }

  function TotalBurned(blocks: seq<Block>): int {
    if blocks == [] then 0 else TotalBurned(blocks[..|blocks| - 1]) + blocks[|blocks| - 1].totalBurned
  }

  /** Supply and burned value add up to what was issued. */
  ghost predicate Balanced(g: Config, c: Chain) {
    && Supply(c.state) + c.state.burned == Sum(g.genesis) + g.reward * |c.blocks|
    && c.state.burned == TotalBurned(c.blocks)
  }

  /** Every sender's included nonces are 0, 1, 2, ... */
  ghost predicate Counted(g: Config, c: Chain) {
    g.ledger.enforceNonce ==> forall who :: CountsUp(NoncesOf(Included(c.blocks), who), Get(c.state.nonces, who))
  }

  /** Nobody is in debt, unless overdrafts are allowed or fees clear above the bid. */
  ghost predicate Covered(g: Config, c: Chain) {
    !g.ledger.allowOverdraft && !g.fees.MedianFee? ==> Solvent(c.state)
  }

  ghost predicate Priced(g: Config, c: Chain) {
    && c.baseFee >= 0 && c.lastCount >= 0
    && (if g.fees.Eip1559? then c.baseFee >= g.fees.minBaseFee else c.baseFee == g.initialBaseFee)
  }

  ghost predicate Accounted(g: Config, c: Chain) {
    Mempool.Sound(g.pool, c.pool) && Balanced(g, c) && Counted(g, c) && Covered(g, c) && Priced(g, c)
  }

  // ------------------------------------------------------------------ one block

  lemma {:induction false} ChosenCharges(g: Config, c: Chain, now: real)
    requires SoundConfig(g) && Priced(g, c)
    ensures var chosen := Chosen(g, c, now);
            var charges := Charges(g.fees, Context(g, c.baseFee, c.lastCount), chosen);
            && (forall i :: 0 <= i < |chosen| ==> chosen[i].fee == chosen[i].tx.fee)
            && (forall i :: 0 <= i < |charges| ==> charges[i].Some?)
            && (!g.fees.MedianFee? ==> WithinBids(Txs(chosen), charges))
  {
    var x := Context(g, c.baseFee, c.lastCount);
    var bids := Bids(Expire(g.pool, now, c.pool).order);
    var chosen := Chosen(g, c, now);
    SelectionIsBest(g.fees, x, bids);
    hide Expire, Select, Eligible;
    forall i | 0 <= i < |chosen|
      ensures chosen[i].fee == chosen[i].tx.fee
      ensures var f := Charge(g.fees, x, chosen, chosen[i].fee);
              f.Some? && (!g.fees.MedianFee? ==> f.value.charged == chosen[i].tx.fee)
    {
      assert chosen[i] in chosen;
      SelectedCharge(g.fees, x, bids, i);
    }
  }

  lemma {:induction false} ProduceBalanced(g: Config, c: Chain, miner: Option<string>, now: real)
    requires SoundConfig(g) && Priced(g, c) && Balanced(g, c)
    ensures Balanced(g, Produce(g, c, miner, now))
  {
    hide Chosen, Charges, Expire, DiscardAll, NextBaseFee, ApplyBlock, Burned, Tips, Sum;
    var chosen := Chosen(g, c, now);
    var charges := Charges(g.fees, Context(g, c.baseFee, c.lastCount), chosen);
    if Settlement(g, c, miner, now).Ok? {
      BlockConserves(g.ledger, Txs(chosen), c.state, charges, miner, g.reward);
      var b := NewBlock(g, c, miner, now);
      assert (c.blocks + [b])[..|c.blocks|] == c.blocks;
      assert g.reward * (|c.blocks| + 1) == g.reward * |c.blocks| + g.reward;
    }
  }

  lemma {:induction false} ProduceCounted(g: Config, c: Chain, miner: Option<string>, now: real)
    requires SoundConfig(g) && Priced(g, c) && Counted(g, c)
    ensures Counted(g, Produce(g, c, miner, now))
  {
    hide Chosen, Charges, Expire, DiscardAll, NextBaseFee, ApplyBlock, Burned, Tips, CountsUp, NoncesOf, Get;
    var chosen := Chosen(g, c, now);
    var charges := Charges(g.fees, Context(g, c.baseFee, c.lastCount), chosen);
    if Settlement(g, c, miner, now).Ok? && g.ledger.enforceNonce {
      var b := NewBlock(g, c, miner, now);
      assert (c.blocks + [b])[..|c.blocks|] == c.blocks;
      var nonces := Settlement(g, c, miner, now).state.nonces;
      forall who ensures CountsUp(NoncesOf(Included(c.blocks + [b]), who), Get(nonces, who)) {
        BlockCounts(g.ledger, Included(c.blocks), Txs(chosen), c.state, charges, miner, g.reward, who);
      }
    }
  }

  lemma {:induction false} ProduceCovered(g: Config, c: Chain, miner: Option<string>, now: real)
    requires SoundConfig(g) && Priced(g, c) && Covered(g, c)
    ensures Covered(g, Produce(g, c, miner, now))
  {
    ChosenCharges(g, c, now);
    hide Chosen, Charges, Expire, DiscardAll, NextBaseFee, ApplyBlock, Burned, Tips, Solvent, WithinBids;
    var chosen := Chosen(g, c, now);
    var charges := Charges(g.fees, Context(g, c.baseFee, c.lastCount), chosen);
    if Settlement(g, c, miner, now).Ok? && !g.ledger.allowOverdraft && !g.fees.MedianFee? {
      BlockSolvent(g.ledger, Txs(chosen), c.state, charges, miner, g.reward);
    }
  }

  lemma {:induction false} ProducePriced(g: Config, c: Chain, miner: Option<string>, now: real)
    requires SoundConfig(g) && Priced(g, c)
    ensures Priced(g, Produce(g, c, miner, now))
  {
    hide Chosen, Charges, Expire, DiscardAll, ApplyBlock, Burned, Tips;
    if Settlement(g, c, miner, now).Ok? && g.fees.Eip1559? {
      BaseFeeStep(g.fees.minBaseFee, Context(g, c.baseFee, |Chosen(g, c, now)|));
    }
  }

  lemma {:induction false} ProducePool(g: Config, c: Chain, miner: Option<string>, now: real)
    requires SoundConfig(g) && Priced(g, c) && Mempool.Sound(g.pool, c.pool)
    ensures Mempool.Sound(g.pool, Produce(g, c, miner, now).pool)
  {
    ExpireExact(g.pool, now, c.pool);
    hide Chosen, Charges, Expire, DiscardAll, ApplyBlock, Burned, Tips, NextBaseFee, Mempool.Sound;
    var p := Expire(g.pool, now, c.pool);
    if Settlement(g, c, miner, now).Ok? {
      DiscardAllSound(g.pool, p, Txs(Chosen(g, c, now)));
    }
  }

  /** Included transactions were waiting in the pool, and are gone from it. */
  lemma {:induction false} IncludedWerePending(g: Config, c: Chain, miner: Option<string>, now: real, tx: Transaction)
    requires SoundConfig(g) && Priced(g, c) && Mempool.Sound(g.pool, c.pool)
    requires Settlement(g, c, miner, now).Ok? && tx in NewBlock(g, c, miner, now).txs
    ensures tx in c.pool.entries && tx !in Produce(g, c, miner, now).pool.entries
  {
    hide Chosen, Charges, Expire, DiscardAll, ApplyBlock, Burned, Tips, NextBaseFee, Mempool.Sound;
    var p, chosen := Expire(g.pool, now, c.pool), Chosen(g, c, now);
    ExpireExact(g.pool, now, c.pool);
    var i :| 0 <= i < |chosen| && chosen[i].tx == tx;
    ChosenPending(g, c, now, i);
    DiscardAllSound(g.pool, p, Txs(chosen));
  }

  lemma {:induction false} ChosenPending(g: Config, c: Chain, now: real, i: nat)
    requires SoundConfig(g) && Priced(g, c) && Mempool.Sound(g.pool, c.pool) && i < |Chosen(g, c, now)|
    ensures Chosen(g, c, now)[i].tx in Expire(g.pool, now, c.pool).entries
  {
    ExpireExact(g.pool, now, c.pool);
    var p, chosen := Expire(g.pool, now, c.pool), Chosen(g, c, now);
    SelectionIsBest(g.fees, Context(g, c.baseFee, c.lastCount), Bids(p.order));
    hide Expire, Select, Eligible;
    assert chosen[i] in chosen;
    assert chosen[i] in Bids(p.order);
    assert chosen[i].tx in p.order;
  }

  // ------------------------------------------------------------------ runs

  datatype Event =
    | Submitted(tx: Transaction, now: real)
    | Reinjected(tx: Transaction, now: real)
    | Produced(miner: Option<string>, now: real)

  ghost function Step(g: Config, c: Chain, e: Event): Chain
    requires SoundConfig(g) && Accounted(g, c)
  {
    match e
    case Submitted(tx, now) => Submit(g, c, tx, now)
    case Reinjected(tx, now) => Reinject(g, c, tx, now)
    case Produced(miner, now) => Produce(g, c, miner, now)
  }

  lemma {:induction false} StepAccounted(g: Config, c: Chain, e: Event)
    requires SoundConfig(g) && Accounted(g, c)
    ensures Accounted(g, Step(g, c, e))
  {
    match e
    case Submitted(tx, now) => ReinjectAccounted(g, c, tx, now);
    case Reinjected(tx, now) => ReinjectAccounted(g, c, tx, now);
    case Produced(miner, now) =>
      ProduceBalanced(g, c, miner, now);
      ProduceCounted(g, c, miner, now);
      ProduceCovered(g, c, miner, now);
      ProducePriced(g, c, miner, now);
      ProducePool(g, c, miner, now);
  }

  lemma {:induction false} ReinjectAccounted(g: Config, c: Chain, tx: Transaction, now: real)
    requires SoundConfig(g) && Accounted(g, c)
    ensures Accounted(g, Reinject(g, c, tx, now))
  {
    hide Mempool.Sound;
    AddSound(g.pool, c.pool, tx, EntryOf(tx, now));
  }

  lemma {:induction false} StartAccounted(g: Config)
    requires SoundConfig(g)
    ensures Accounted(g, Start(g))
  {
    MempoolRuns.RunSound<Transaction>(g.pool, []);
    assert g.reward * 0 == 0;
    forall who ensures CountsUp(NoncesOf([], who), 0) {
    }
  }

  /** Any sequence of submissions, reinjections and blocks, some of which may fail: supply and burned
      value equal what was issued, burned value is what the blocks say, every sender's nonces are
      used in order and once, and nobody is in debt under a policy that charges the bid. */
  ghost function Run(g: Config, events: seq<Event>): (c: Chain)
    requires SoundConfig(g)
    ensures Accounted(g, c)
  {
    if events == [] then
      StartAccounted(g);
      Start(g)
    else
      var before := Run(g, events[..|events| - 1]);
      StepAccounted(g, before, events[|events| - 1]);
      Step(g, before, events[|events| - 1])
  }

  /** No transaction is ever included twice. */
  lemma {:induction false} NeverIncludedTwice(g: Config, events: seq<Event>)
    requires SoundConfig(g) && g.ledger.enforceNonce
    ensures Distinct(Included(Run(g, events).blocks))
  {
    var c := Run(g, events);
    var txs := Included(c.blocks);
    forall who ensures CountsUp(NoncesOf(txs, who), |NoncesOf(txs, who)|) {
      assert CountsUp(NoncesOf(Included(c.blocks), who), Get(c.state.nonces, who));
    }
    NoReplay(txs);
  }
}
