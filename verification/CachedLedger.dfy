/** A block ledger that caches the balances after every block of every fork. */
module CachedLedger {
  import opened Common
  import opened Order
  import Money = BalanceLedger
  import Forks = ForkChoice

  type Hash = string

  /** `authentic`: the sender's address belongs to the key, and the signature verifies. */
  datatype Tx = Tx(id: string, sender: string, recipient: string, amount: int, fee: int, authentic: bool)

  /** `proven`: the proof of work verifies for this content and hash. */
  datatype Block = Block(index: int, txs: seq<Tx>, previous: Hash, miner: string, proven: bool)

  type Store = map<Hash, Block>
  type Balances = map<string, int>

  const GENESIS_ADDRESS := "0x0000000000000000000000000000000000000000"
  const GENESIS_COINS := 1000

  function GenesisBalances(): Balances { map[GENESIS_ADDRESS := GENESIS_COINS] }

  // ------------------------------------------------------------------ one block's balances

  function Transfer(bal: Balances, miner: string, tx: Tx): Balances {
    Money.Move(Money.Move(Money.Move(bal, tx.sender, -tx.amount - tx.fee), tx.recipient, tx.amount), miner, tx.fee)
  }

  /** The balances after the reward and the first transactions of a block. */
  function Settle(bal: Balances, miner: string, reward: int, txs: seq<Tx>): Balances {
    if txs == [] then Money.Move(bal, miner, reward)
    else Transfer(Settle(bal, miner, reward, txs[..|txs| - 1]), miner, txs[|txs| - 1])
  }

  predicate ValidTx(tx: Tx) { tx.amount > 0 && tx.fee >= 0 && tx.authentic }

  /** Every sender covers amount and fee when its turn comes. */
  predicate Affordable(bal: Balances, miner: string, reward: int, txs: seq<Tx>) {
    txs == [] ||
    (Affordable(bal, miner, reward, txs[..|txs| - 1]) && ValidTx(txs[|txs| - 1]) &&
     Get(Settle(bal, miner, reward, txs[..|txs| - 1]), txs[|txs| - 1].sender) >=
       txs[|txs| - 1].amount + txs[|txs| - 1].fee)
  }

  lemma {:induction false} SettleSum(bal: Balances, miner: string, reward: int, txs: seq<Tx>)
    ensures Sum(Settle(bal, miner, reward, txs)) == Sum(bal) + reward
  {
    hide Money.Move, Sum;
    if txs == [] {
      Money.MoveSum(bal, miner, reward);
    } else {
      var before, tx := Settle(bal, miner, reward, txs[..|txs| - 1]), txs[|txs| - 1];
      SettleSum(bal, miner, reward, txs[..|txs| - 1]);
      TransferSum(before, miner, tx);
      hide Transfer;
    }
  }

  lemma {:induction false} TransferSum(bal: Balances, miner: string, tx: Tx)
    ensures Sum(Transfer(bal, miner, tx)) == Sum(bal)
  {
    hide Money.Move, Sum;
    var debited := Money.Move(bal, tx.sender, -tx.amount - tx.fee);
    var paid := Money.Move(debited, tx.recipient, tx.amount);
    Money.MoveSum(bal, tx.sender, -tx.amount - tx.fee);
    Money.MoveSum(debited, tx.recipient, tx.amount);
    Money.MoveSum(paid, miner, tx.fee);
  }

  lemma {:induction false} TransferNonNegative(bal: Balances, miner: string, tx: Tx)
    requires Money.NonNegative(bal) && tx.amount >= 0 && tx.fee >= 0 && Get(bal, tx.sender) >= tx.amount + tx.fee
    ensures Money.NonNegative(Transfer(bal, miner, tx))
  {
    hide Money.Move, Money.NonNegative, Get;
    var debited := Money.Move(bal, tx.sender, -tx.amount - tx.fee);
    var paid := Money.Move(debited, tx.recipient, tx.amount);
    Money.MoveNonNegative(bal, tx.sender, -tx.amount - tx.fee);
    Money.GetNonNegative(debited, tx.recipient);
    Money.MoveNonNegative(debited, tx.recipient, tx.amount);
    Money.GetNonNegative(paid, miner);
    Money.MoveNonNegative(paid, miner, tx.fee);
  }

  lemma {:induction false} SettleNonNegative(bal: Balances, miner: string, reward: int, txs: seq<Tx>)
    requires Money.NonNegative(bal) && reward >= 0 && Affordable(bal, miner, reward, txs)
    ensures Money.NonNegative(Settle(bal, miner, reward, txs))
  {
    hide Money.Move, Money.NonNegative, Transfer;
    if txs == [] {
      Money.GetNonNegative(bal, miner);
      Money.MoveNonNegative(bal, miner, reward);
    } else {
      SettleNonNegative(bal, miner, reward, txs[..|txs| - 1]);
      TransferNonNegative(Settle(bal, miner, reward, txs[..|txs| - 1]), miner, txs[|txs| - 1]);
    }
  }

  // ------------------------------------------------------------------ the tree of blocks

  /** The blocks as a tree in which each block weighs one. */
  function View(store: Store, g: Hash): Forks.Tree {
    map h | h in store ::
      Forks.Block(if h == g then None else Some(store[h].previous), store[h].index,
                  if h == g then 0 else 1, store[h].index, "")
  }

  ghost predicate Rooted(store: Store, g: Hash) {
    && g in store && store[g].index == 0
    && forall h :: h in store && h != g ==> LinkedUp(store, h)
  }

  ghost predicate LinkedUp(store: Store, h: Hash)
    requires h in store
  {
    store[h].index >= 1 && store[h].previous in store && store[h].index == store[store[h].previous].index + 1
  }

  lemma {:induction false} RootedView(store: Store, g: Hash)
    requires Rooted(store, g)
    ensures Forks.WellFormed(View(store, g), g)
  {
    forall h | h in store && h != g ensures Forks.Attached(View(store, g), View(store, g)[h]) {
      assert LinkedUp(store, h);
    }
  }

  /** The blocks from genesis to h. */
  ghost function PathTo(store: Store, g: Hash, h: Hash): (path: seq<Hash>)
    requires Rooted(store, g) && h in store
    ensures path != [] && path[|path| - 1] == h && path[0] == g
    ensures path == if h == g then [g] else PathTo(store, g, store[h].previous) + [h]
    decreases store[h].index
  {
    RootedView(store, g);
    assert h != g ==> LinkedUp(store, h);
    Forks.PathTo(View(store, g), g, h)
  }

  /** Replaying a path from the genesis balances. */
  ghost function Replay(store: Store, path: seq<Hash>, reward: int): Balances {
    if |path| <= 1 then GenesisBalances()
    else
      var h := path[|path| - 1];
      var before := Replay(store, path[..|path| - 1], reward);
      if h in store then Settle(before, store[h].miner, reward, store[h].txs) else before
  }

  // ------------------------------------------------------------------ the state and what it keeps

  datatype State = State(store: Store, states: map<Hash, Balances>, tips: set<Hash>, chain: seq<Hash>,
    balances: Balances)

  function Start(g: Hash, genesis: Block): State {
    State(map[g := genesis], map[g := GenesisBalances()], {g}, [g], GenesisBalances())
  }

  /** Each cached state follows from the one before it. */
  ghost predicate Cached(s: State, g: Hash, reward: int) {
    && s.states.Keys == s.store.Keys && g in s.states && s.states[g] == GenesisBalances()
    && forall h :: h in s.store && h != g ==> FollowsParent(s, h, reward)
  }

  ghost predicate FollowsParent(s: State, h: Hash, reward: int)
    requires h in s.store
  {
    && h in s.states && s.store[h].previous in s.states
    && s.states[h] == Settle(s.states[s.store[h].previous], s.store[h].miner, reward, s.store[h].txs)
  }

  /** No cached balance is negative, and each state holds the genesis coins plus its rewards. */
  ghost predicate Backed(s: State, reward: int) {
    forall h :: h in s.states && h in s.store ==> BackedAt(s, h, reward)
  }

  ghost predicate BackedAt(s: State, h: Hash, reward: int)
    requires h in s.states && h in s.store
  {
    Money.NonNegative(s.states[h]) && Sum(s.states[h]) == GENESIS_COINS + reward * s.store[h].index
  }

  /** The chain leads to the best known block: highest index, then smallest hash. */
  ghost predicate Selected(s: State, g: Hash) {
    && Rooted(s.store, g) && s.tips == Forks.Tips(View(s.store, g))
    && s.chain != [] && s.chain[|s.chain| - 1] in s.states && s.states.Keys == s.store.Keys
    && s.chain == PathTo(s.store, g, s.chain[|s.chain| - 1])
    && IsBest(s.store, s.chain[|s.chain| - 1])
    && s.balances == s.states[s.chain[|s.chain| - 1]]
  }

  predicate BetterTip(store: Store, a: Hash, b: Hash)
    requires a in store && b in store
  {
    store[a].index > store[b].index || (store[a].index == store[b].index && Less(a, b))
  }

  ghost predicate IsBest(store: Store, h: Hash) {
    h in store && forall c :: c in store && c != h ==> BetterTip(store, h, c)
  }

  /** Everything cached is what recomputing from the blocks would give. */
  ghost predicate Exact(s: State, g: Hash, reward: int) { Selected(s, g) && Cached(s, g, reward) }

  ghost predicate Consistent(s: State, g: Hash, reward: int) { Exact(s, g, reward) && Backed(s, reward) }

  // ------------------------------------------------------------------ steps

  /** The block follows a known one. */
  predicate InPlace(s: State, b: Block) {
    b.previous in s.store && b.index == s.store[b.previous].index + 1 && b.previous in s.states
  }

  /** is_valid for a block message */
  predicate IsValid(s: State, b: Block, reward: int) {
    b.proven && InPlace(s, b) && Affordable(s.states[b.previous], b.miner, reward, b.txs)
  }

  /** The block and its state are stored; the chain is not yet reconsidered. */
  function Put(s: State, h: Hash, b: Block, reward: int): State
    requires b.previous in s.states
  {
    s.(store := s.store[h := b], states := s.states[h := Settle(s.states[b.previous], b.miner, reward, b.txs)],
       tips := s.tips + {h} - {b.previous})
  }

  ghost function AddBlock(s: State, g: Hash, h: Hash, b: Block, reward: int): State
    requires Exact(s, g, reward) && InPlace(s, b)
  {
    if h in s.store then s
    else
      var u := Put(s, h, b, reward);
      PutReady(s, g, h, b, reward);
      if BetterTip(u.store, h, s.chain[|s.chain| - 1]) then
        u.(chain := PathTo(u.store, g, h), balances := u.states[h])
      else u
  }

  lemma {:induction false} PutReady(s: State, g: Hash, h: Hash, b: Block, reward: int)
    requires Exact(s, g, reward) && InPlace(s, b) && h !in s.store
    ensures var u := Put(s, h, b, reward);
            && s.chain != [] && s.chain[|s.chain| - 1] in u.store
            && Rooted(u.store, g) && h in u.store && h in u.states
  {
    hide View, PathTo, Settle, Cached, IsBest, Forks.Tips;
    PutRooted(s.store, g, h, b);
  }

  lemma {:induction false} PutRooted(store: Store, g: Hash, h: Hash, b: Block)
    requires Rooted(store, g) && h !in store && b.previous in store && b.index == store[b.previous].index + 1
    ensures Rooted(store[h := b], g)
    ensures View(store[h := b], g) == View(store, g)[h := Forks.Child(View(store, g), b.previous, 1, "")]
    ensures forall c :: c in store ==> PathTo(store[h := b], g, c) == PathTo(store, g, c)
  {
    var u, n := store[h := b], Forks.Child(View(store, g), b.previous, 1, "");
    PutLinked(store, g, h, b);
    PutView(store, g, h, b);
    RootedView(store, g);
    RootedView(u, g);
    hide View, Rooted;
    forall c | c in store ensures PathTo(u, g, c) == PathTo(store, g, c) {
      Forks.ExtendPath(View(store, g), g, h, n, c);
      PathView(store, g, c);
      PathView(u, g, c);
    }
  }

  lemma {:induction false} PutLinked(store: Store, g: Hash, h: Hash, b: Block)
    requires Rooted(store, g) && h !in store && b.previous in store && b.index == store[b.previous].index + 1
    ensures Rooted(store[h := b], g)
  {
    var u := store[h := b];
    forall c | c in u && c != g ensures LinkedUp(u, c) {
      if c != h {
        assert LinkedUp(store, c);
      } else {
        assert b.previous != g ==> LinkedUp(store, b.previous);
      }
    }
  }

  lemma PutView(store: Store, g: Hash, h: Hash, b: Block)
    requires g in store && h !in store && b.previous in store && b.index == store[b.previous].index + 1
    ensures b.previous in View(store, g)
    ensures View(store[h := b], g) == View(store, g)[h := Forks.Child(View(store, g), b.previous, 1, "")]
  {
  }

  lemma {:induction false} PathView(store: Store, g: Hash, h: Hash)
    requires Rooted(store, g) && h in store
    ensures Forks.WellFormed(View(store, g), g) && h in View(store, g)
    ensures PathTo(store, g, h) == Forks.PathTo(View(store, g), g, h)
  {
    RootedView(store, g);
    hide Forks.PathTo, Forks.WellFormed, Rooted;
  }

  lemma {:induction false} AddStores(s: State, g: Hash, h: Hash, b: Block, reward: int)
    requires Exact(s, g, reward) && InPlace(s, b) && h !in s.store
    ensures var u, v := Put(s, h, b, reward), AddBlock(s, g, h, b, reward);
            v.store == u.store == s.store[h := b] && v.states == u.states
  {
    hide View, Rooted, PathTo, Settle, Cached, IsBest, Forks.Tips, BetterTip;
    PutRooted(s.store, g, h, b);
  }

  lemma {:induction false} PutCached(s: State, g: Hash, h: Hash, b: Block, reward: int)
    requires Exact(s, g, reward) && h !in s.store && b.previous in s.states
    ensures Cached(Put(s, h, b, reward), g, reward)
  {
    hide Settle, IsBest, PathTo;
    var u := Put(s, h, b, reward);
    forall c | c in u.store && c != g ensures FollowsParent(u, c, reward) {
      assert c != h ==> FollowsParent(s, c, reward) && LinkedUp(s.store, c);
    }
  }

  lemma {:induction false} SettleWorth(bal: Balances, miner: string, reward: int, txs: seq<Tx>, k: int)
    requires Sum(bal) == GENESIS_COINS + reward * k
    ensures Sum(Settle(bal, miner, reward, txs)) == GENESIS_COINS + reward * (k + 1)
  {
    hide Settle, Sum;
    SettleSum(bal, miner, reward, txs);
    assert reward * (k + 1) == reward * k + reward;
  }

  /** A new block keeps the states backed exactly when its own state is nowhere negative. */
  lemma {:induction false} PutBacked(s: State, h: Hash, b: Block, reward: int)
    requires Backed(s, reward) && h !in s.store && InPlace(s, b) && s.states.Keys == s.store.Keys
    ensures Backed(Put(s, h, b, reward), reward) <==>
            Money.NonNegative(Settle(s.states[b.previous], b.miner, reward, b.txs))
  {
    hide Settle, Sum, Money.NonNegative;
    var u := Put(s, h, b, reward);
    assert BackedAt(s, b.previous, reward);
    SettleWorth(s.states[b.previous], b.miner, reward, b.txs, s.store[b.previous].index);
    assert h in u.states && h in u.store;
    forall c | c in u.states && c in u.store && c != h ensures BackedAt(u, c, reward) {
      assert BackedAt(s, c, reward);
    }
    assert BackedAt(u, h, reward) <==> Money.NonNegative(u.states[h]);
  }

  lemma {:induction false} BetterTransitive(store: Store, a: Hash, b: Hash, c: Hash)
    requires a in store && b in store && c in store && BetterTip(store, a, b) && BetterTip(store, b, c)
    ensures BetterTip(store, a, c)
  {
    if store[a].index == store[c].index {
      LessTransitive(a, b, c);
    }
  }

  /** Comparing the new block with the tip is enough to know the best of all. */
  lemma {:induction false} NewBest(store: Store, tip: Hash, h: Hash, b: Block)
    requires IsBest(store, tip) && h !in store
    ensures var u := store[h := b]; IsBest(u, if BetterTip(u, h, tip) then h else tip)
  {
    var u := store[h := b];
    LessTotal(h, tip);
    if BetterTip(u, h, tip) {
      forall c | c in u && c != h ensures BetterTip(u, h, c) {
        if c != tip {
          assert BetterTip(store, tip, c);
          BetterTransitive(u, h, tip, c);
        }
      }
    } else {
      forall c | c in u && c != tip ensures BetterTip(u, tip, c) {
        assert c != h ==> BetterTip(store, tip, c);
      }
    }
  }

  /** The best block, on indices and hashes alone: every other has a lower index, or the same and a larger
      hash. */
  lemma {:induction false} BestExactly(store: Store, h: Hash)
    ensures IsBest(store, h) <==>
            h in store && forall c :: c in store && c != h ==>
              store[c].index < store[h].index || (store[c].index == store[h].index && Less(h, c))
  {
    if IsBest(store, h) {
      forall c | c in store && c != h
        ensures store[c].index < store[h].index || (store[c].index == store[h].index && Less(h, c))
      {
        assert BetterTip(store, h, c);
      }
    }
  }

  /** Adding any block that follows a known one, checked or not, keeps every cached state exact, and the
      chain and balances those of the best block. */
  lemma {:induction false} AddExact(s: State, g: Hash, h: Hash, b: Block, reward: int)
    requires Exact(s, g, reward) && InPlace(s, b)
    ensures Exact(AddBlock(s, g, h, b, reward), g, reward)
  {
    hide Settle, Cached, Selected;
    if h !in s.store {
      PutCached(s, g, h, b, reward);
      PutSelected(s, g, h, b, reward);
      SameCache(Put(s, h, b, reward), AddBlock(s, g, h, b, reward), g, reward);
    }
  }

  /** And it keeps every state backed and nowhere negative exactly when the new block's own state is
      nowhere negative. */
  lemma {:induction false} AddBacked(s: State, g: Hash, h: Hash, b: Block, reward: int)
    requires Consistent(s, g, reward) && InPlace(s, b)
    ensures Consistent(AddBlock(s, g, h, b, reward), g, reward) <==>
            h in s.store || Money.NonNegative(Settle(s.states[b.previous], b.miner, reward, b.txs))
  {
    hide Settle, Exact, Backed, Money.NonNegative, Put;
    AddExact(s, g, h, b, reward);
    ExactKeys(s, g, reward);
    if h !in s.store {
      hide AddBlock;
      PutBacked(s, h, b, reward);
      AddStores(s, g, h, b, reward);
      SameBacked(Put(s, h, b, reward), AddBlock(s, g, h, b, reward), reward);
    }
  }

  /** A valid block keeps all of it. */
  lemma {:induction false} AddConsistent(s: State, g: Hash, h: Hash, b: Block, reward: int)
    requires Consistent(s, g, reward) && IsValid(s, b, reward) && reward >= 0
    ensures Consistent(AddBlock(s, g, h, b, reward), g, reward)
  {
    hide Settle, Affordable, Exact, Money.NonNegative, AddBlock, Sum;
    AddBacked(s, g, h, b, reward);
    if h !in s.store {
      ExactKeys(s, g, reward);
      assert BackedAt(s, b.previous, reward);
      SettleNonNegative(s.states[b.previous], b.miner, reward, b.txs);
    }
  }

  lemma ExactKeys(s: State, g: Hash, reward: int)
    requires Exact(s, g, reward)
    ensures s.states.Keys == s.store.Keys
  {
  }

  lemma {:induction false} SameCache(u: State, v: State, g: Hash, reward: int)
    requires Cached(u, g, reward) && v.store == u.store && v.states == u.states
    ensures Cached(v, g, reward)
  {
    hide Settle;
    forall c | c in v.store && c != g ensures FollowsParent(v, c, reward) {
      assert FollowsParent(u, c, reward);
    }
  }

  lemma {:induction false} SameBacked(u: State, v: State, reward: int)
    requires v.store == u.store && v.states == u.states
    ensures Backed(v, reward) <==> Backed(u, reward)
  {
    hide Sum, Money.NonNegative;
    forall c | c in v.states && c in v.store ensures BackedAt(v, c, reward) <==> BackedAt(u, c, reward) {
    }
  }

  lemma {:induction false} PutFacts(s: State, g: Hash, h: Hash, b: Block, reward: int)
    requires Selected(s, g) && InPlace(s, b) && h !in s.store
    ensures var u, tip := Put(s, h, b, reward), s.chain[|s.chain| - 1];
            && Rooted(u.store, g) && u.tips == Forks.Tips(View(u.store, g)) && u.states.Keys == u.store.Keys
            && h in u.store && tip in s.store && tip in u.store && s.chain == PathTo(u.store, g, tip)
                 && s.balances == u.states[tip]
            && IsBest(u.store, if BetterTip(u.store, h, tip) then h else tip)
  {
    hide Settle, PathTo, Rooted, IsBest, BetterTip, View, Forks.Tips, Transfer;
    PutRooted(s.store, g, h, b);
    PutTips(s.store, g, h, b);
    NewBest(s.store, s.chain[|s.chain| - 1], h, b);
  }

  lemma {:induction false} PutSelected(s: State, g: Hash, h: Hash, b: Block, reward: int)
    requires Exact(s, g, reward) && InPlace(s, b) && h !in s.store
    ensures Selected(AddBlock(s, g, h, b, reward), g)
  {
    hide Put, Cached, PathTo, Rooted, IsBest, BetterTip, View, Forks.Tips;
    PutFacts(s, g, h, b, reward);
    var u, v, tip := Put(s, h, b, reward), AddBlock(s, g, h, b, reward), s.chain[|s.chain| - 1];
    hide Selected;
    assert u.chain == s.chain && u.balances == s.balances by { PutLeaves(s, h, b, reward); }
    if BetterTip(u.store, h, tip) {
      SelectedAt(v, g, h);
    } else {
      SelectedAt(v, g, tip);
    }
  }

  lemma PutLeaves(s: State, h: Hash, b: Block, reward: int)
    requires b.previous in s.states
    ensures Put(s, h, b, reward).chain == s.chain && Put(s, h, b, reward).balances == s.balances
  {
  }

  lemma {:induction false} SelectedAt(v: State, g: Hash, tip: Hash)
    requires Rooted(v.store, g) && v.tips == Forks.Tips(View(v.store, g)) && v.states.Keys == v.store.Keys
    requires IsBest(v.store, tip) && v.chain == PathTo(v.store, g, tip) && v.balances == v.states[tip]
    ensures Selected(v, g)
  {
    hide View, Rooted, PathTo;
  }

  lemma {:induction false} PutTips(store: Store, g: Hash, h: Hash, b: Block)
    requires Rooted(store, g) && h !in store && b.previous in store && b.index == store[b.previous].index + 1
    ensures Forks.Tips(View(store[h := b], g)) == Forks.Tips(View(store, g)) + {h} - {b.previous}
  {
    PutRooted(store, g, h, b);
    RootedView(store, g);
    Forks.ExtendTips(View(store, g), g, h, b.previous, 1, "");
  }

  // ------------------------------------------------------------------ what the cache is worth

  /** Every cached state, on any fork, is what replaying its block's path from genesis gives. */
  lemma {:induction false} CacheIsReplay(s: State, g: Hash, reward: int, h: Hash)
    requires Rooted(s.store, g) && Cached(s, g, reward) && h in s.store
    ensures h in s.states && s.states[h] == Replay(s.store, PathTo(s.store, g, h), reward)
    decreases s.store[h].index
  {
    hide Settle;
    if h != g {
      assert LinkedUp(s.store, h) && FollowsParent(s, h, reward);
      var p := s.store[h].previous;
      CacheIsReplay(s, g, reward, p);
      var path := PathTo(s.store, g, h);
      assert path[..|path| - 1] == PathTo(s.store, g, p);
    }
  }

  /** The whole state is determined by the set of blocks held. */
  lemma {:induction false} SameBlocksSameState(s: State, r: State, g: Hash, reward: int)
    requires Exact(s, g, reward) && Exact(r, g, reward) && s.store == r.store
    ensures s == r
  {
    forall h | h in s.states ensures h in r.states && s.states[h] == r.states[h] {
      CacheIsReplay(s, g, reward, h);
      CacheIsReplay(r, g, reward, h);
    }
    MapEquality(s.states, r.states);
    var a, b := s.chain[|s.chain| - 1], r.chain[|r.chain| - 1];
    LessAsymmetric(a, b);
  }

  // ------------------------------------------------------------------ runs

  datatype Message = Message(h: Hash, b: Block)

  /** A message is added when it is valid, and ignored otherwise. */
  ghost function Step(s: State, g: Hash, m: Message, reward: int): State
    requires Consistent(s, g, reward)
  {
    if IsValid(s, m.b, reward) then AddBlock(s, g, m.h, m.b, reward) else s
  }

  lemma {:induction false} StartConsistent(g: Hash, genesis: Block, reward: int)
    requires genesis.index == 0
    ensures Consistent(Start(g, genesis), g, reward)
  {
    var s := Start(g, genesis);
    RootedView(s.store, g);
    assert Forks.Children(View(s.store, g), g) == {};
    assert Forks.Tips(View(s.store, g)) == {g};
    assert Money.NonNegative(GenesisBalances()) && reward * 0 == 0;
    SumOne(GENESIS_ADDRESS, GENESIS_COINS);
    assert BackedAt(s, g, reward);
  }

  lemma {:induction false} SumOne(a: string, v: int)
    ensures Sum(map[a := v]) == v
  {
    var none: map<string, int> := map[];
    SumUpdate(none, a, v);
    assert none[a := v] == map[a := v];
  }

  /** Over every run of messages, valid or not, in any order. */
  ghost function Run(g: Hash, genesis: Block, messages: seq<Message>, reward: int): (s: State)
    requires genesis.index == 0 && reward >= 0
    ensures Consistent(s, g, reward)
  {
    if messages == [] then
      StartConsistent(g, genesis, reward);
      Start(g, genesis)
    else
      var before, m := Run(g, genesis, messages[..|messages| - 1], reward), messages[|messages| - 1];
      if IsValid(before, m.b, reward) then
        AddConsistent(before, g, m.h, m.b, reward);
        Step(before, g, m, reward)
      else before
  }

  /** For every block a run accepts, on any fork: the cached state is the replay of its path, nowhere
      negative, and worth the genesis coins plus one reward per block; the current balances are the
      state of the best known block. */
  lemma {:induction false} EveryStateBacked(g: Hash, genesis: Block, messages: seq<Message>, reward: int, h: Hash)
    requires genesis.index == 0 && reward >= 0 && h in Run(g, genesis, messages, reward).store
    ensures var s := Run(g, genesis, messages, reward);
            && Rooted(s.store, g) && h in s.states
            && s.states[h] == Replay(s.store, PathTo(s.store, g, h), reward)
            && Money.NonNegative(s.states[h]) && Sum(s.states[h]) == GENESIS_COINS + reward * s.store[h].index
            && (IsBest(s.store, h) ==> s.balances == s.states[h])
  {
    hide Run;
    var s := Run(g, genesis, messages, reward);
    CacheIsReplay(s, g, reward, h);
    assert BackedAt(s, h, reward);
    hide Replay, Cached, Sum, Money.NonNegative;
    if IsBest(s.store, h) {
      LessAsymmetric(h, s.chain[|s.chain| - 1]);
    }
  }

  /** Two ledgers that end up with the same blocks agree on everything, whatever the order of arrival. */
  lemma {:induction false} Convergence(g: Hash, genesis: Block, one: seq<Message>, two: seq<Message>, reward: int)
    requires genesis.index == 0 && reward >= 0
    requires Run(g, genesis, one, reward).store == Run(g, genesis, two, reward).store
    ensures Run(g, genesis, one, reward) == Run(g, genesis, two, reward)
  {
    hide Exact, Backed, Run;
    SameBlocksSameState(Run(g, genesis, one, reward), Run(g, genesis, two, reward), g, reward);
  }
}
