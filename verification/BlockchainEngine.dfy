/** The engine object: a ledger model, a mempool and the chain they advance. */
module BlockchainEngine {
  import opened Common
  import opened Fees
  import opened Mempool
  import opened TransactionPools
  import opened BalanceLedger
  import BalanceBlocks
  import opened Blockchain

  class ChainEngine {
    const config: Config
    const ledger: BalanceLedgerModel
    const mempool: TransactionPool<Transaction>
    var state: BalanceState
    var baseFee: int
    var blocks: seq<Block>
    var lastCount: int

    ghost function Snapshot(): Chain
      reads this, mempool
    {
      Chain(state, baseFee, blocks, mempool.Snapshot(), lastCount)
    }

    ghost predicate Valid() reads this, mempool {
      && SoundConfig(config) && ledger.settings == config.ledger && mempool.policy == config.pool
      && Accounted(config, Snapshot())
    }

    constructor (config: Config)
      requires SoundConfig(config)
      ensures Valid() && fresh(mempool) && this.config == config && Snapshot() == Start(config)
    {
      this.config := config;
      ledger := new BalanceLedgerModel(config.ledger.enforceNonce, config.ledger.allowOverdraft);
      mempool := new TransactionPool<Transaction>(config.pool);
      state := BalanceState(config.genesis, map[], 0);
      baseFee, blocks, lastCount := config.initialBaseFee, [], 0;
      new;
      StartAccounted(config);
    }

    /** reinject, one transaction */
    method Readmit(tx: Transaction, now: real) returns (ok: bool)
      requires Valid()
      modifies mempool
      ensures Valid() && Snapshot() == Reinject(config, old(Snapshot()), tx, now)
      ensures ok == Mempool.Add(config.pool, old(mempool.Snapshot()), tx, EntryOf(tx, now)).1.Accepted?
    {
      ReinjectAccounted(config, Snapshot(), tx, now);
      hide Accounted;
      PoolValid();
      var r := mempool.Offer(tx, tx.fee, Some(tx.sender), Some(tx.nonce), now);
      return r.Accepted?;
    }

    lemma PoolValid()
      requires Valid()
      ensures mempool.Valid()
    {
    }

    method SubmitTx(tx: Transaction, now: real) returns (ok: bool)
      requires Valid()
      modifies mempool
      ensures Valid() && Snapshot() == Submit(config, old(Snapshot()), tx, now)
      ensures ok <==> IsValidFee(config.fees, Context(config, old(baseFee), old(lastCount)), tx.fee)
                      && Mempool.Add(config.pool, old(mempool.Snapshot()), tx, EntryOf(tx, now)).1.Accepted?
    {
      if !IsValidFee(config.fees, Context(config, baseFee, lastCount), tx.fee) { return false; }
      ok := Readmit(tx, now);
    }

    /** A block with the best pending transactions, or none when the ledger refuses one of them. */
    method ProduceBlock(miner: Option<string>, now: real) returns (block: Option<Block>)
      requires Valid()
      modifies this`state, this`baseFee, this`blocks, this`lastCount, mempool
      ensures Valid() && Snapshot() == Produce(config, old(Snapshot()), miner, now)
      ensures block == if Settlement(config, old(Snapshot()), miner, now).Ok?
                       then Some(NewBlock(config, old(Snapshot()), miner, now)) else None
    {
      StepAccounted(config, Snapshot(), Produced(miner, now));
      PoolValid();
      assert Priced(config, Snapshot());
      hide Accounted, Mempool.Sound, Expire, Select, Charges, ApplyBlock, DiscardAll, NextBaseFee, Burned, Tips;
      ghost var was := Snapshot();
      var expired := mempool.EvictExpired(now);
      var context := Context(config, baseFee, lastCount);
      var chosen := Select(config.fees, context, Bids(mempool.order));
      var charges := Charges(config.fees, context, chosen);
      var txs := Txs(chosen);
      assert chosen == Chosen(config, was, now);
      var r := ledger.Block(txs, state, charges, miner, config.reward);
      assert r == Settlement(config, was, miner, now);
      if r.Err? {
        return None;
      }
      mempool.RemoveIncluded(txs);
      var b := Block(|blocks|, miner, txs, baseFee, Burned(charges), Tips(charges), r.state);
      assert b == NewBlock(config, was, miner, now);
      state := r.state;
      blocks := blocks + [b];
      lastCount := |txs|;
      baseFee := NextBaseFee(config.fees, Context(config, baseFee, lastCount));
      return Some(b);
    }
  }

  // ------------------------------------------------------------------ the clearing price can exceed the bid

  const RICH := Transaction("rich", "shop", 0, 10, 0, "native", "")
  const POOR := Transaction("poor", "shop", 0, 0, 0, "native", "")

  lemma {:induction false} TwoBids(y: FeePolicy, x: BlockContext)
    requires y == MedianFee && x == BlockContext(2, 0, None, 0, 8)
    ensures Select(y, x, [Bid(POOR, 0), Bid(RICH, 10)]) == [Bid(RICH, 10), Bid(POOR, 0)]
    ensures Charges(y, x, [Bid(RICH, 10), Bid(POOR, 0)]) == [Some(Parts(5, 0, 5)), Some(Parts(5, 0, 5))]
  {
    var p, r := Bid(POOR, 0), Bid(RICH, 10);
    assert [p, r][..1] == [p] && [p][..0] == [];
    assert Eligible(y, x, [p]) == [p];
    assert Eligible(y, x, [p, r]) == [p, r];
    assert Ranked([p]) == [p];
    assert Place([p], r) == [r, p];
  }

  lemma {:induction false} TwoSettled(m: BalanceLedger.Settings, s: BalanceState, f: FeeCharge)
    returns (rich: BalanceState, poor: BalanceState)
    requires m == BalanceLedger.Settings(true, false) && s == BalanceState(map["rich" := 10], map[], 0)
             && f == Parts(5, 0, 5)
    ensures ApplyTx(m, RICH, s, Some(f), Some("miner")) == Ok(rich)
    ensures ApplyTx(m, POOR, rich, Some(f), Some("miner")) == Ok(poor)
    ensures Get(poor.balances, "poor") == -5
  {
    DistinctNames();
    rich, poor := BothCharged(m, RICH, POOR, s, f, Some("miner"));
  }

  lemma DistinctNames()
    ensures "poor" != "rich" && "poor" != "shop" && "poor" != "miner"
  {
    assert |"rich"| == 4 && "poor"[0] != "rich"[0];
  }

  /** A charge above the bid of an account that holds nothing and gets nothing is a debt. */
  lemma {:induction false} BothCharged(m: BalanceLedger.Settings, a: Transaction, b: Transaction, s: BalanceState,
      f: FeeCharge, miner: Option<string>)
    returns (u: BalanceState, v: BalanceState)
    requires m.enforceNonce && !m.allowOverdraft && a.sender != b.sender
    requires a.amount == b.amount == b.fee == 0 && 0 <= a.fee <= Get(s.balances, a.sender)
    requires a.nonce == Get(s.nonces, a.sender) && b.nonce == Get(s.nonces, b.sender)
    requires a.recipient != b.sender && b.recipient != b.sender && BalanceBlocks.PaidTo(miner) != b.sender
    requires Get(s.balances, b.sender) == 0
    ensures ApplyTx(m, a, s, Some(f), miner) == Ok(u) && ApplyTx(m, b, u, Some(f), miner) == Ok(v)
    ensures Get(v.balances, b.sender) == -f.charged
  {
    hide ApplyTx, Get;
    var d, e := BalanceBlocks.Entry(a, Some(f)), BalanceBlocks.Entry(b, Some(f));
    BalanceBlocks.TxTaken(m, d, s, miner);
    BalanceBlocks.TxChanges(m, d, s, miner, b.sender);
    u := ApplyTx(m, a, s, Some(f), miner).state;
    BalanceBlocks.TxTaken(m, e, u, miner);
    BalanceBlocks.TxChanges(m, e, u, miner, b.sender);
    v := ApplyTx(m, b, u, Some(f), miner).state;
  }

  /** Under the median policy a bid of 0 beside a bid of 10 is charged 5: an account that holds
      nothing ends in debt, though overdrafts are not allowed. */
  lemma {:induction false} MedianOverdraws()
    returns (x: BlockContext, offered: seq<Bid<Transaction>>, s: BalanceState, r: Result)
    ensures SoundContext(x) && offered == [Bid(POOR, 0), Bid(RICH, 10)]
    ensures var chosen := Select(MedianFee, x, offered);
            r == ApplyBlock(BalanceLedger.Settings(true, false), Txs(chosen), s, Charges(MedianFee, x, chosen),
              Some("miner"), 0)
    ensures Solvent(s) && r.Ok? && Get(r.state.balances, "poor") == -5
  {
    hide Select, Charges, ApplyTx, ApplyBlock, ApplyAll, Txs, Get, Solvent;
    var poor, rich := Bid(POOR, 0), Bid(RICH, 10);
    x, offered, s := BlockContext(2, 0, None, 0, 8), [poor, rich], BalanceState(map["rich" := 10], map[], 0);
    var m, f: FeeCharge := BalanceLedger.Settings(true, false), Parts(5, 0, 5);
    OneRich(s);
    TwoBids(MedianFee, x);
    TwoTxs();
    var u, v := TwoSettled(m, s, f);
    ApplyTwo(m, RICH, POOR, s, u, v, Some(f), Some("miner"));
    r := Ok(v);
  }

  lemma OneRich(s: BalanceState)
    requires s.balances == map["rich" := 10]
    ensures Solvent(s)
  {
  }

  lemma TwoTxs()
    ensures Txs([Bid(RICH, 10), Bid(POOR, 0)]) == [RICH, POOR]
  {
  }

  lemma {:induction false} ApplyTwo(m: BalanceLedger.Settings, a: Transaction, b: Transaction, s: BalanceState,
      u: BalanceState, v: BalanceState, f: Option<FeeCharge>, miner: Option<string>)
    requires ApplyTx(m, a, s, f, miner) == Ok(u) && ApplyTx(m, b, u, f, miner) == Ok(v)
    ensures ApplyBlock(m, [a, b], s, [f, f], miner, 0) == Ok(v)
  {
    hide ApplyTx;
    assert [a, b][..1] == [a] && [f, f][..1] == [f] && [a][..0] == [] && [f][..0] == [];
    assert ApplyAll(m, [a], [f], s, miner) == Ok(u);
  }
}
