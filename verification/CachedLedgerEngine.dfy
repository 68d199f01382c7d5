/** The ledger object: validation and replay over local balances, and the cache updated in place. */
module CachedLedgerEngine {
  import opened Common
  import opened Order
  import Money = BalanceLedger
  import Forks = ForkChoice
  import opened CachedLedger

  /** What an addition reports to the mempool. */
  datatype Memento = Memento(reorg: bool, reverted: seq<Tx>, applied: seq<Tx>)

  /** NoParent stands for the lookup of an unknown parent's state, which fails. */
  datatype Outcome = NoParent | Emitted(memento: Memento)

  /** The transactions of some blocks, in order. */
  function Collect(store: Store, hashes: seq<Hash>): seq<Tx> {
    if hashes == [] then []
    else
      var h := hashes[|hashes| - 1];
      Collect(store, hashes[..|hashes| - 1]) + if h in store then store[h].txs else []
  }

  /** What moving from one chain to another reverts and applies: all beyond their common beginning. */
  function Change(store: Store, was: seq<Hash>, now: seq<Hash>): Memento {
    var n := Forks.CommonLength(was, now);
    Memento(n < |was|, Collect(store, was[n..]), Collect(store, now[n..]))
  }

  /** What a memento says of a move from one chain to another: beyond their longest common beginning the
      first held the reverted transactions, the second holds the applied ones, and it is a
      reorganisation if the first went on at all. */
  ghost predicate Reports(r: Memento, store: Store, was: seq<Hash>, now: seq<Hash>) {
    exists n :: LongestShared(was, now, n) && Accounts(r, store, was, now, n)
  }

  ghost predicate LongestShared(was: seq<Hash>, now: seq<Hash>, n: nat) {
    n <= |was| && n <= |now| && was[..n] == now[..n] && (n < |was| && n < |now| ==> was[n] != now[n])
  }

  ghost predicate Accounts(r: Memento, store: Store, was: seq<Hash>, now: seq<Hash>, n: nat)
    requires n <= |was| && n <= |now|
  {
    && Collect(store, was) == Collect(store, was[..n]) + r.reverted
    && Collect(store, now) == Collect(store, was[..n]) + r.applied
    && r.reorg == !(was <= now)
  }

  /** The computed memento reports the move, and no other memento does. */
  lemma {:induction false} MementoExact(r: Memento, store: Store, was: seq<Hash>, now: seq<Hash>)
    ensures Reports(r, store, was, now) <==> r == Change(store, was, now)
  {
    hide Collect;
    var k := Forks.CommonLength(was, now);
    CollectJoin(store, was[..k], was[k..]);
    CollectJoin(store, now[..k], now[k..]);
    assert was == was[..k] + was[k..] && now == now[..k] + now[k..];
    PrefixIff(was, now, k);
    assert LongestShared(was, now, k) && Accounts(Change(store, was, now), store, was, now, k);
    if Reports(r, store, was, now) {
      var n :| LongestShared(was, now, n) && Accounts(r, store, was, now, n);
      SharedOnce(was, now, n, k);
      Cancel(Collect(store, was[..k]), r.reverted, Collect(store, was[k..]));
      Cancel(Collect(store, was[..k]), r.applied, Collect(store, now[k..]));
    }
  }

  lemma PrefixIff(was: seq<Hash>, now: seq<Hash>, n: nat)
    requires LongestShared(was, now, n)
    ensures was <= now <==> n == |was|
  {
    assert was == was[..|was|];
  }

  lemma {:induction false} SharedOnce(was: seq<Hash>, now: seq<Hash>, n: nat, k: nat)
    requires LongestShared(was, now, n) && LongestShared(was, now, k)
    ensures n == k
  {
  }

  lemma Cancel<T>(a: seq<T>, b: seq<T>, c: seq<T>)
    requires a + b == a + c
    ensures b == c
  {
    assert (a + b)[|a|..] == b && (a + c)[|a|..] == c;
  }

  lemma {:induction false} NoChange(store: Store, chain: seq<Hash>)
    ensures Change(store, chain, chain) == Memento(false, [], [])
  {
    Forks.SamePath(chain);
  }

  lemma {:induction false} CollectJoin(store: Store, a: seq<Hash>, b: seq<Hash>)
    ensures Collect(store, a + b) == Collect(store, a) + Collect(store, b)
  {
    if b == [] {
      assert a + b == a;
    } else {
      assert (a + b)[..|a + b| - 1] == a + b[..|b| - 1];
      CollectJoin(store, a, b[..|b| - 1]);
    }
  }

  class Ledger {
    const genesis: Hash
    const reward: int
    var store: Store
    var states: map<Hash, Balances>
    var tips: set<Hash>
    var chain: seq<Hash>
    var balances: Balances

    ghost function Snapshot(): State reads this { State(store, states, tips, chain, balances) }

    ghost predicate Valid() reads this { Exact(Snapshot(), genesis, reward) }

    constructor (genesis: Hash, block: Block, reward: int)
      requires block.index == 0
      ensures Valid() && Consistent(Snapshot(), genesis, reward)
      ensures Snapshot() == Start(genesis, block) && this.genesis == genesis && this.reward == reward
    {
      this.genesis, this.reward := genesis, reward;
      store, states, tips := map[genesis := block], map[genesis := GenesisBalances()], {genesis};
      chain, balances := [genesis], GenesisBalances();
      new;
      StartConsistent(genesis, block, reward);
    }

    /** is_valid for a block message: the transactions are tried on a copy of the parent's balances. */
    method Accepts(b: Block) returns (ok: bool)
      requires Valid()
      ensures ok == IsValid(Snapshot(), b, reward)
    {
      hide Transfer, Exact, Money.Move;
      ExactKeys(Snapshot(), genesis, reward);
      if !b.proven { return false; }
      if b.previous !in store { return false; }
      if b.index != store[b.previous].index + 1 { return false; }
      var simulated := Money.Move(states[b.previous], b.miner, reward);
      ghost var base := states[b.previous];
      assert b.txs[..0] == [];
      hide Settle, Affordable;
      for i := 0 to |b.txs|
        invariant simulated == Settle(base, b.miner, reward, b.txs[..i])
        invariant Affordable(base, b.miner, reward, b.txs[..i])
      {
        var tx := b.txs[i];
        AffordStep(base, b.miner, reward, b.txs, i);
        var able := ValidTx(tx) && Get(simulated, tx.sender) >= tx.amount + tx.fee;
        if !able {
          UnaffordableStays(base, b.miner, reward, b.txs, i + 1);
          return false;
        }
        simulated := Transfer(simulated, b.miner, tx);
      }
      assert b.txs[..|b.txs|] == b.txs;
      return true;
    }

    /** _compute_next_state */
    method NextState(base: Balances, b: Block) returns (state: Balances)
      ensures state == Settle(base, b.miner, reward, b.txs)
    {
      hide Money.Move;
      state := Money.Move(base, b.miner, reward);
      for i := 0 to |b.txs|
        invariant state == Settle(base, b.miner, reward, b.txs[..i])
      {
        var tx := b.txs[i];
        assert b.txs[..i + 1][..i] == b.txs[..i];
        state := Money.Move(state, tx.sender, -tx.amount - tx.fee);
        state := Money.Move(state, tx.recipient, tx.amount);
        state := Money.Move(state, b.miner, tx.fee);
      }
      assert b.txs[..|b.txs|] == b.txs;
    }

    /** _build_chain_to_tip: back along the parents until index 0; nothing if that is not reached. */
    method BuildChain(tip: Hash) returns (path: seq<Hash>)
      requires Rooted(store, genesis) && tip in store
      ensures path == PathTo(store, genesis, tip)
    {
      hide View, Rooted, PathTo, Forks.Reverse;
      var reversed: seq<Hash> := [];
      var cursor := tip;
      PathBegins(store, genesis, tip);
      GenesisAtZero(store, genesis);
      while cursor in store
        invariant cursor in store
                  && PathTo(store, genesis, tip) == PathTo(store, genesis, cursor) + Forks.Reverse(reversed)
        decreases store[cursor].index
      {
        PathStep(store, genesis, tip, cursor, reversed);
        reversed := reversed + [cursor];
        if store[cursor].index == 0 { break; }
        cursor := store[cursor].previous;
      }
      path := Forks.Reverse(reversed);
      if path == [] || store[path[0]].index != 0 { return []; }
    }

    method Attach(h: Hash, b: Block)
      requires b.previous in states && b.previous != h
      modifies this`store, this`states, this`tips
      ensures Snapshot() == Put(old(Snapshot()), h, b, reward)
    {
      var state := NextState(states[b.previous], b);
      store := store[h := b];
      states := states[h := state];
      tips := tips + {h};
      tips := tips - {b.previous};
    }

    /** Store the block, then move the chain and the balances if it beats the tip. */
    method Place(h: Hash, b: Block)
      requires Valid() && InPlace(Snapshot(), b) && h !in store
      modifies this`store, this`states, this`tips, this`chain, this`balances
      ensures Snapshot() == AddBlock(old(Snapshot()), genesis, h, b, reward)
    {
      hide View, Rooted, PathTo, Exact, InPlace, AddBlock;
      PlaceReady(Snapshot(), genesis, h, b, reward);
      Attach(h, b);
      hide Put;
      var better := BetterTip(store, h, chain[|chain| - 1]);
      if better {
        chain := BuildChain(h);
        balances := states[h];
      }
    }

    /** Adds a block without checking it, as the node does once every object has found it valid: a new one
        must follow a known one at the next index, and nothing is asked of its transactions. */
    method AddMessage(h: Hash, b: Block) returns (r: Outcome)
      requires Valid() && (h !in store && b.previous in store ==> b.index == store[b.previous].index + 1)
      modifies this`store, this`states, this`tips, this`chain, this`balances
      ensures Valid()
      ensures r.NoParent? <==> h !in old(store) && b.previous !in old(store)
      ensures h in old(store) || r.NoParent? ==> Snapshot() == old(Snapshot())
      ensures r.Emitted? ==> Reports(r.memento, store, old(chain), chain)
      ensures r.Emitted? && h !in old(store) ==>
                && InPlace(old(Snapshot()), b) && Snapshot() == AddBlock(old(Snapshot()), genesis, h, b, reward)
                && (old(Consistent(Snapshot(), genesis, reward)) ==>
                      (Consistent(Snapshot(), genesis, reward) <==> Money.NonNegative(states[h])))
    {
      hide Exact, Consistent, Collect, Change, Forks.Without, Reports, Money.NonNegative, Settle;
      ExactKeys(Snapshot(), genesis, reward);
      if h in store {
        NoChange(store, chain);
        MementoExact(Memento(false, [], []), store, chain, chain);
        return Emitted(Memento(false, [], []));
      }
      if b.previous !in states { return NoParent; }
      AddKeeps(Snapshot(), genesis, h, b, reward);
      AddChanges(Snapshot(), genesis, h, b, reward);
      var oldChain := chain;
      Place(h, b);
      hide AddBlock;
      var memento := Report(oldChain);
      MementoExact(memento, store, oldChain, chain);
      return Emitted(memento);
    }

    method Report(oldChain: seq<Hash>) returns (r: Memento)
      ensures r == Memento(Forks.Without(oldChain, Elements(chain)) != [],
                           Collect(store, Forks.Without(oldChain, Elements(chain))),
                           Collect(store, Forks.Without(chain, Elements(oldChain))))
    {
      var removed := Forks.Without(oldChain, set x | x in chain);
      var added := Forks.Without(chain, set x | x in oldChain);
      assert (set x | x in chain) == Elements(chain) && (set x | x in oldChain) == Elements(oldChain);
      return Memento(removed != [], Collect(store, removed), Collect(store, added));
    }
  }

  lemma {:induction false} AddKeeps(s: State, g: Hash, h: Hash, b: Block, reward: int)
    requires Exact(s, g, reward) && InPlace(s, b) && h !in s.store
    ensures var v := AddBlock(s, g, h, b, reward);
            && Exact(v, g, reward) && h in v.states
            && (Consistent(s, g, reward) ==> (Consistent(v, g, reward) <==> Money.NonNegative(v.states[h])))
  {
    hide Exact, Backed, Settle, AddBlock, Money.NonNegative;
    AddExact(s, g, h, b, reward);
    AddStores(s, g, h, b, reward);
    if Consistent(s, g, reward) {
      AddBacked(s, g, h, b, reward);
    }
  }

  lemma {:induction false} PlaceReady(s: State, g: Hash, h: Hash, b: Block, reward: int)
    requires Exact(s, g, reward) && InPlace(s, b) && h !in s.store
    ensures b.previous in s.states && b.previous != h && s.chain != [] && s.chain[|s.chain| - 1] in s.store
    ensures Rooted(s.store[h := b], g)
    ensures var u := Put(s, h, b, reward);
            && u.store == s.store[h := b] && u.chain == s.chain && h in u.states
            && AddBlock(s, g, h, b, reward) == if BetterTip(u.store, h, s.chain[|s.chain| - 1])
                                               then u.(chain := PathTo(u.store, g, h), balances := u.states[h]) else u
  {
    hide View, Rooted, PathTo, Settle, Cached, IsBest, Forks.Tips, BetterTip;
    PutRooted(s.store, g, h, b);
  }

  lemma {:induction false} PathBegins(store: Store, g: Hash, tip: Hash)
    requires Rooted(store, g) && tip in store
    ensures PathTo(store, g, tip) == PathTo(store, g, tip) + Forks.Reverse([])
  {
  }

  lemma {:induction false} PathStep(store: Store, g: Hash, tip: Hash, cursor: Hash, reversed: seq<Hash>)
    requires Rooted(store, g) && tip in store && cursor in store
    requires PathTo(store, g, tip) == PathTo(store, g, cursor) + Forks.Reverse(reversed)
    ensures store[cursor].index == 0 ==> PathTo(store, g, tip) == Forks.Reverse(reversed + [cursor])
    ensures store[cursor].index != 0 ==>
              && store[cursor].previous in store && 0 <= store[store[cursor].previous].index < store[cursor].index
              && PathTo(store, g, tip) == PathTo(store, g, store[cursor].previous) + Forks.Reverse(reversed + [cursor])
  {
    hide View, Rooted, Forks.Reverse, PathTo;
    OnlyGenesisAtZero(store, g, cursor);
    ReverseMore(reversed, cursor);
    if cursor != g {
      OnlyGenesisAtZero(store, g, store[cursor].previous);
      PathParent(store, g, cursor);
      JoinShift(PathTo(store, g, store[cursor].previous), cursor, Forks.Reverse(reversed));
    } else {
      GenesisPath(store, g);
    }
  }

  lemma {:induction false} JoinShift(p: seq<Hash>, x: Hash, r: seq<Hash>)
    ensures p + [x] + r == p + ([x] + r)
  {
  }

  lemma {:induction false} GenesisPath(store: Store, g: Hash)
    requires Rooted(store, g)
    ensures PathTo(store, g, g) == [g]
  {
  }

  lemma {:induction false} PathParent(store: Store, g: Hash, h: Hash)
    requires Rooted(store, g) && h in store && h != g
    ensures store[h].previous in store && PathTo(store, g, h) == PathTo(store, g, store[h].previous) + [h]
  {
    OnlyGenesisAtZero(store, g, h);
  }

  lemma {:induction false} ReverseMore(s: seq<Hash>, x: Hash)
    ensures Forks.Reverse(s + [x]) == [x] + Forks.Reverse(s)
  {
    assert (s + [x])[..|s|] == s;
  }

  lemma {:induction false} AffordStep(bal: Balances, miner: string, reward: int, txs: seq<Tx>, i: nat)
    requires i < |txs|
    ensures Settle(bal, miner, reward, txs[..i + 1]) == Transfer(Settle(bal, miner, reward, txs[..i]), miner, txs[i])
    ensures Affordable(bal, miner, reward, txs[..i + 1]) <==>
            && Affordable(bal, miner, reward, txs[..i]) && ValidTx(txs[i])
            && Get(Settle(bal, miner, reward, txs[..i]), txs[i].sender) >= txs[i].amount + txs[i].fee
  {
    hide Transfer, Money.Move;
    assert txs[..i + 1][..i] == txs[..i];
  }

  lemma {:induction false} UnaffordableStays(bal: Balances, miner: string, reward: int, txs: seq<Tx>, n: nat)
    requires n <= |txs| && !Affordable(bal, miner, reward, txs[..n])
    ensures !Affordable(bal, miner, reward, txs)
  {
    hide Settle;
    if n == |txs| {
      assert txs[..n] == txs;
    } else {
      assert txs[..|txs| - 1][..n] == txs[..n];
      UnaffordableStays(bal, miner, reward, txs[..|txs| - 1], n);
    }
  }

  lemma {:induction false} OnlyGenesisAtZero(store: Store, g: Hash, h: Hash)
    requires Rooted(store, g) && h in store
    ensures store[h].index == 0 <==> h == g
    ensures store[h].index >= 0
    ensures h != g ==> store[h].previous in store && store[store[h].previous].index == store[h].index - 1
  {
    assert h != g ==> LinkedUp(store, h);
  }

  lemma {:induction false} GenesisAtZero(store: Store, g: Hash)
    requires Rooted(store, g)
    ensures g in store && store[g].index == 0
  {
  }

  lemma {:induction false} AddChanges(s: State, g: Hash, h: Hash, b: Block, reward: int)
    requires Exact(s, g, reward) && InPlace(s, b)
    ensures var v := AddBlock(s, g, h, b, reward);
            h !in s.store ==>
              Change(v.store, s.chain, v.chain) ==
              Memento(Forks.Without(s.chain, Elements(v.chain)) != [],
                Collect(v.store, Forks.Without(s.chain, Elements(v.chain))),
                      Collect(v.store, Forks.Without(v.chain, Elements(s.chain))))
  {
    hide Exact, InPlace, Forks.Without, Collect, Change;
    if h !in s.store {
      var v := AddBlock(s, g, h, b, reward);
      AddExact(s, g, h, b, reward);
      AddStores(s, g, h, b, reward);
      hide AddBlock;
      PathsIn(s, v, g, h, b, reward);
      hide PathTo, Rooted;
      ChangeIs(v.store, g, s.chain, v.chain);
    }
  }

  /** Both chains are paths in the new store. */
  lemma {:induction false} PathsIn(s: State, v: State, g: Hash, h: Hash, b: Block, reward: int)
    requires Exact(s, g, reward) && InPlace(s, b) && h !in s.store
    requires Exact(v, g, reward) && v.store == s.store[h := b]
    ensures Rooted(v.store, g)
    ensures s.chain != [] && s.chain[|s.chain| - 1] in v.store && s.chain == PathTo(v.store, g, s.chain[|s.chain| - 1])
    ensures v.chain != [] && v.chain[|v.chain| - 1] in v.store && v.chain == PathTo(v.store, g, v.chain[|v.chain| - 1])
  {
    hide View, Rooted, PathTo, Settle, Cached, IsBest, Forks.Tips;
    PutRooted(s.store, g, h, b);
  }

  /** Filtering each chain by the other gives exactly what lies beyond their common beginning. */
  lemma {:induction false} ChangeIs(store: Store, g: Hash, was: seq<Hash>, now: seq<Hash>)
    requires Rooted(store, g) && was != [] && now != [] && was[|was| - 1] in store && now[|now| - 1] in store
    requires was == PathTo(store, g, was[|was| - 1]) && now == PathTo(store, g, now[|now| - 1])
    ensures Forks.CommonLength(was, now) >= 1
    ensures Change(store, was, now) ==
            Memento(Forks.Without(was, Elements(now)) != [], Collect(store, Forks.Without(was, Elements(now))),
                    Collect(store, Forks.Without(now, Elements(was))))
  {
    hide Collect;
    RootedView(store, g);
    Forks.DiffIsSuffix(View(store, g), g, was[|was| - 1], now[|now| - 1]);
    hide View, Rooted, Forks.WellFormed;
  }
}
