/** The cached ledger account by account: what a block is worth to each, when it is valid, and what a
    memento lists. */
module CachedLedgerRules {
  import opened Common
  import Money = BalanceLedger
  import opened BalanceBlocks
  import opened CachedLedger
  import Engine = CachedLedgerEngine

  /** What one transaction is worth to account a, all its parts together. */
  ghost function Gain(tx: CachedLedger.Tx, miner: string, a: string): int {
    (if a == tx.recipient then tx.amount else 0) + (if a == miner then tx.fee else 0)
      - if a == tx.sender then tx.amount + tx.fee else 0
  }

  ghost function GainOf(miner: string, a: string): CachedLedger.Tx -> int { tx => Gain(tx, miner, a) }

  lemma TransferAt(bal: Balances, miner: string, tx: CachedLedger.Tx, a: string)
    ensures Get(Transfer(bal, miner, tx), a) == Get(bal, a) + Gain(tx, miner, a)
  {
  }

  /** A block gives its miner the reward and every account the sum of what its transactions are worth to it. */
  lemma {:induction false} SettleTallied(bal: Balances, miner: string, reward: int, txs: seq<CachedLedger.Tx>,
      a: string)
    ensures Get(Settle(bal, miner, reward, txs), a) ==
            Get(bal, a) + (if a == miner then reward else 0) + Tally(GainOf(miner, a), txs)
  {
    hide Transfer, Gain;
    if txs != [] {
      var n := |txs| - 1;
      SettleTallied(bal, miner, reward, txs[..n], a);
      TransferAt(Settle(bal, miner, reward, txs[..n]), miner, txs[n], a);
    }
  }

  /** The k-th transaction is well formed, and its sender covers amount and fee after all before it. */
  ghost predicate CoveredThen(bal: Balances, miner: string, reward: int, txs: seq<CachedLedger.Tx>, k: int)
    requires 0 <= k < |txs|
  {
    var tx := txs[k];
    && tx.amount > 0 && tx.fee >= 0 && tx.authentic
    && Get(Settle(bal, miner, reward, txs[..k]), tx.sender) >= tx.amount + tx.fee
  }

  /** A block message is valid exactly when its work is proven, it follows its parent at the next index, and
      each transaction in its turn is well formed and covered. */
  lemma {:induction false} ValidExactly(s: State, b: CachedLedger.Block, reward: int)
    requires s.states.Keys == s.store.Keys
    ensures IsValid(s, b, reward) <==>
            && b.proven && b.previous in s.store && b.index == s.store[b.previous].index + 1
            && forall k :: 0 <= k < |b.txs| ==> CoveredThen(s.states[b.previous], b.miner, reward, b.txs, k)
  {
    hide Affordable;
    if b.previous in s.states {
      AffordableExactly(s.states[b.previous], b.miner, reward, b.txs);
    }
  }

  lemma {:induction false} AffordableExactly(bal: Balances, miner: string, reward: int, txs: seq<CachedLedger.Tx>)
    ensures Affordable(bal, miner, reward, txs) <==>
            forall k :: 0 <= k < |txs| ==> CoveredThen(bal, miner, reward, txs, k)
  {
    hide Settle;
    if txs != [] {
      var n := |txs| - 1;
      AffordableExactly(bal, miner, reward, txs[..n]);
      forall k | 0 <= k < n
        ensures CoveredThen(bal, miner, reward, txs[..n], k) <==> CoveredThen(bal, miner, reward, txs, k)
      {
        assert txs[..n][..k] == txs[..k];
      }
      assert CoveredThen(bal, miner, reward, txs, n) <==>
             ValidTx(txs[n]) && Get(Settle(bal, miner, reward, txs[..n]), txs[n].sender) >= txs[n].amount + txs[n].fee;
    }
  }

  /** The first block holds a thousand coins, all at the zero address. */
  lemma GenesisExactly(a: string)
    ensures Get(GenesisBalances(), a) == if a == "0x0000000000000000000000000000000000000000" then 1000 else 0
  {
  }

  /** The transactions of a block, and of one list of blocks after another. */
  lemma {:induction false} CollectExactly(store: Store, h: Hash, a: seq<Hash>, b: seq<Hash>)
    ensures Engine.Collect(store, []) == []
    ensures h in store ==> Engine.Collect(store, [h]) == store[h].txs
    ensures Engine.Collect(store, a + b) == Engine.Collect(store, a) + Engine.Collect(store, b)
  {
    assert [h][..0] == [];
    Engine.CollectJoin(store, a, b);
  }
}
