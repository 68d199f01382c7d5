/** What burning does to coinbase ids: runs from genesis in which an id recurs, a spent id returns
    and a transaction is applied twice. */
module UtxoBurning {
  import opened Common
  import opened Fees
  import opened UtxoLedger
  import opened UtxoRuns

  /** A transaction that turns one output into a smaller one, and burns the rest. */
  lemma {:induction false} BurnOne(s: State, tx: Tx, spent: Id, whole: Output, kept: Output, f: FeeCharge,
      miner: Option<string>)
    requires tx.inputs == [spent] && tx.outputs == [kept] && tx.fee == whole.amount - kept.amount
    requires tx.fee >= 0 && kept.amount >= 0 && f == Parts(tx.fee, tx.fee, 0)
    requires spent in s.utxos && s.utxos[spent] == whole
    ensures ApplyTx(tx, s, Some(f), miner) == Ok(Burnt(s, tx, spent, kept))
    ensures NewIds(tx, Some(f)) == [Created(tx, 0)]
  {
    var ins, outs := tx.inputs, tx.outputs;
    assert ins[..0] == [] && outs[..0] == [];
    assert InputError(ins, s.utxos) == None;
    assert InputTotal(ins, s.utxos) == whole.amount;
    assert OutputTotal(outs) == kept.amount;
    assert Invalid(tx, s) == None;
    hide Invalid, InputError, InputTotal, OutputTotal;
    assert Elements(ins) == {spent};
    hide Elements;
    assert Numbered(tx, 0) == [];
    assert Put(s.utxos - {spent}, tx, outs) == (s.utxos - {spent})[Created(tx, 0) := kept];
  }

  function Burnt(s: State, tx: Tx, spent: Id, kept: Output): State {
    State((s.utxos - {spent})[Created(tx, 0) := kept], s.burned + tx.fee)
  }

  lemma {:induction false} EmptyRecord(w: World, miner: Option<string>, reward: int)
    requires reward != 0
    ensures ApplyBlock([], w.s, [], miner, reward).Ok?
    ensures RecordBlock(w, Block([], [], miner), reward) == RecordCredit(w, miner, reward)
  {
    hide Credit;
  }

  /** Such a transaction alone in a block: what the block adds to the record. */
  lemma {:induction false} BurnRecord(w: World, tx: Tx, spent: Id, whole: Output, kept: Output, f: FeeCharge,
      miner: Option<string>, reward: int, b: Block)
    requires tx.inputs == [spent] && tx.outputs == [kept] && tx.fee == whole.amount - kept.amount
    requires tx.fee >= 0 && kept.amount >= 0 && f == Parts(tx.fee, tx.fee, 0)
    requires spent in w.s.utxos && w.s.utxos[spent] == whole && reward != 0 && b == Block([tx], [Some(f)], miner)
    ensures var mid, v := Burnt(w.s, tx, spent, kept), RecordBlock(w, b, reward);
            && ApplyBlock(b.txs, w.s, b.charges, b.miner, reward).Ok?
            && v.s == Credit(mid, miner, reward)
            && v.created == w.created + [Created(tx, 0), Coinbase(Payee(miner), reward, Supply(mid))]
            && v.spent == w.spent + [spent] && v.applied == w.applied + [tx]
  {
    BurnOne(w.s, tx, spent, whole, kept, f, miner);
    hide ApplyTx, Credit, NewIds, Burnt, Supply;
    OneRecord(w, tx, Some(f), miner, reward);
    var u := RecordTx(w, tx, Some(f), miner);
    assert u.created == w.created + [Created(tx, 0)] && u.s == Burnt(w.s, tx, spent, kept);
    assert w.created + [Created(tx, 0)] + [Coinbase(Payee(miner), reward, Supply(u.s))] ==
           w.created + [Created(tx, 0), Coinbase(Payee(miner), reward, Supply(u.s))];
  }

  lemma {:induction false} OneRecord(w: World, tx: Tx, charge: Option<FeeCharge>, miner: Option<string>, reward: int)
    requires ApplyTx(tx, w.s, charge, miner).Ok? && reward != 0
    ensures ApplyBlock([tx], w.s, [charge], miner, reward).Ok?
    ensures RecordBlock(w, Block([tx], [charge], miner), reward) ==
            RecordCredit(RecordTx(w, tx, charge, miner), miner, reward)
  {
    hide ApplyTx, Credit, RecordCredit;
    assert [tx][..0] == [] && [charge][..0] == [];
    assert ApplyAll([tx], [charge], w.s, miner) == ApplyTx(tx, w.s, charge, miner);
    assert RecordAll(w, [tx], [charge], miner) == RecordTx(w, tx, charge, miner);
  }

  lemma {:induction false} RunNext(start: World, blocks: seq<Block>, b: Block, reward: int)
    ensures Run(start, blocks + [b], reward) == RecordBlock(Run(start, blocks, reward), b, reward)
  {
    assert (blocks + [b])[..|blocks|] == blocks;
  }

  /** What such a transaction leaves, when its output id is new. */
  lemma {:induction false} BurntHolds(s: State, tx: Tx, spent: Id, kept: Output)
    requires spent in s.utxos && Created(tx, 0) !in s.utxos
    ensures var u := Burnt(s, tx, spent, kept);
            && Supply(u) == Supply(s) - s.utxos[spent].amount + kept.amount && u.burned == s.burned + tx.fee
            && (forall y :: y in s.utxos && y != spent ==> y in u.utxos && u.utxos[y] == s.utxos[y])
            && spent !in u.utxos
  {
    TakeAmount(s.utxos, spent);
    PutAmount(s.utxos - {spent}, Created(tx, 0), kept);
  }

  /** What a coinbase leaves. */
  lemma {:induction false} CreditHolds(s: State, miner: Option<string>, reward: int)
    ensures var x, u := Coinbase(Payee(miner), reward, Supply(s)), Credit(s, miner, reward);
            && Supply(u) == Supply(s) - (if x in s.utxos then s.utxos[x].amount else 0) + reward
            && u.burned == s.burned && x in u.utxos && u.utxos[x] == Output(Payee(miner), reward)
            && (forall y :: y in u.utxos ==> y in s.utxos || y == x)
            && (forall y :: y in s.utxos && y != x ==> y in u.utxos && u.utxos[y] == s.utxos[y])
  {
    PutAmount(s.utxos, Coinbase(Payee(miner), reward, Supply(s)), Output(Payee(miner), reward));
  }

  lemma {:induction false} GenesisHolds(start: State)
    requires start == GenesisState(TEN)
    ensures Supply(start) == 10 && start.burned == 0 && start.utxos == map[Genesis("a") := Output("a", 10)]
    ensures Listing([Genesis("a")], start.utxos)
  {
    GenesisSupply(TEN);
    var none: map<string, int> := map[];
    SumUpdate(none, "a", 10);
    assert TEN == none["a" := 10];
  }

  const TEN: map<string, int> := map["a" := 10]

  /** Ten coins, and an empty block that mints five more under a coinbase id that names ten. */
  lemma {:induction false} FirstCoinbase(miner: Option<string>) returns (start: World, w: World)
    ensures start == FromGenesis(TEN, [Genesis("a")]) && Listing([Genesis("a")], start.s.utxos)
    ensures w == Run(start, [Block([], [], miner)], 5)
    ensures var x, first := Coinbase(Payee(miner), 5, 10), Genesis("a");
            && x in w.s.utxos && w.s.utxos[x] == Output(Payee(miner), 5)
            && first in w.s.utxos && w.s.utxos[first] == Output("a", 10)
            && (forall t, i :: Created(t, i) !in w.s.utxos)
            && Supply(w.s) == 15 && w.s.burned == 0
            && w.created == [first, x] && w.spent == [] && w.applied == []
  {
    hide Sum, Amounts, Supply, ApplyBlock, RecordBlock, Credit, GenesisState;
    start := FromGenesis(TEN, [Genesis("a")]);
    GenesisHolds(start.s);
    w := RecordCredit(start, miner, 5);
    CreditHolds(start.s, miner, 5);
    EmptyRecord(start, miner, 5);
    RunNext(start, [], Block([], [], miner), 5);
    assert [] + [Block([], [], miner)] == [Block([], [], miner)];
    assert [Genesis("a")] + [Coinbase(Payee(miner), 5, 10)] == [Genesis("a"), Coinbase(Payee(miner), 5, 10)];
  }

  /** A block of one such transaction, after which its coinbase has an id that may have been in use. */
  lemma {:induction false} BurnBlock(w: World, tx: Tx, spent: Id, whole: Output, kept: Output, f: FeeCharge,
      miner: Option<string>, reward: int, b: Block, x: Id)
    requires tx.inputs == [spent] && tx.outputs == [kept] && tx.fee == whole.amount - kept.amount
    requires tx.fee >= 0 && kept.amount >= 0 && f == Parts(tx.fee, tx.fee, 0)
    requires spent in w.s.utxos && w.s.utxos[spent] == whole && reward != 0 && b == Block([tx], [Some(f)], miner)
    requires Created(tx, 0) !in w.s.utxos && x == Coinbase(Payee(miner), reward, Supply(w.s) - tx.fee)
    ensures var v, lost := RecordBlock(w, b, reward), if x in w.s.utxos && x != spent then w.s.utxos[x].amount else 0;
            && v.created == w.created + [Created(tx, 0), x]
            && v.spent == w.spent + [spent] && v.applied == w.applied + [tx]
            && Supply(v.s) == Supply(w.s) - tx.fee - lost + reward && v.s.burned == w.s.burned + tx.fee
            && x in v.s.utxos && v.s.utxos[x] == Output(Payee(miner), reward)
  {
    hide Supply, ApplyBlock, RecordBlock, Credit, Payee;
    BurnRecord(w, tx, spent, whole, kept, f, miner, reward, b);
    BurntHolds(w.s, tx, spent, kept);
    CreditHolds(Burnt(w.s, tx, spent, kept), miner, reward);
    BurntOnly(w.s, tx, spent, kept);
  }

  lemma BurntOnly(s: State, tx: Tx, spent: Id, kept: Output)
    ensures forall y :: y in Burnt(s, tx, spent, kept).utxos ==> (y in s.utxos && y != spent) || y == Created(tx, 0)
  {
  }

  lemma {:induction false} TwoBlocks(start: World, b0: Block, b1: Block, w1: World, reward: int)
    requires w1 == Run(start, [b0], reward)
    ensures Run(start, [b0, b1], reward) == RecordBlock(w1, b1, reward)
  {
    RunNext(start, [b0], b1, reward);
    assert [b0] + [b1] == [b0, b1];
  }

  lemma {:induction false} ThreeBlocks(start: World, b0: Block, b1: Block, b2: Block, w2: World, reward: int)
    requires w2 == Run(start, [b0, b1], reward)
    ensures Run(start, [b0, b1, b2], reward) == RecordBlock(w2, b2, reward)
  {
    RunNext(start, [b0, b1], b2, reward);
    assert [b0, b1] + [b2] == [b0, b1, b2];
  }

  /** Burning as much as the reward brings the supply back, so the next coinbase has the id of the last
      one, here still unspent, and overwrites it: of 20 issued, 10 are held and 5 burned. */
  lemma {:induction false} BurningReusesAnId(miner: Option<string>)
    returns (start: World, b0: Block, b1: Block, x: Id, w: World)
    ensures start == FromGenesis(TEN, [Genesis("a")]) && Listing([Genesis("a")], start.s.utxos)
    ensures w == Run(start, [b0, b1], 5) && x == Coinbase(Payee(miner), 5, 10)
    ensures |w.created| == 4 && w.created[1] == x && w.created[3] == x && x !in w.spent
    ensures Supply(w.s) == 10 && w.s.burned == 5 && !NoReuse(w)
  {
    hide Supply, Run, FromGenesis, Listing, NoReuse, Payee;
    b0 := Block([], [], miner);
    var w1: World;
    start, w1 := FirstCoinbase(miner);
    x := Coinbase(Payee(miner), 5, 10);
    b1, w := BurnAgain(start, w1, b0, Genesis("a"), Output("a", 10), x, miner, 5);
  }

  /** After one block that minted x, a block that burns the reward mints x again. */
  lemma {:induction false} BurnAgain(start: World, w1: World, b0: Block, first: Id, whole: Output, x: Id,
      miner: Option<string>, reward: int)
    returns (b1: Block, w: World)
    requires w1 == Run(start, [b0], reward) && w1.created == [first, x] && w1.spent == [] && first != x
    requires first in w1.s.utxos && w1.s.utxos[first] == whole && whole.amount >= reward > 0
    requires x in w1.s.utxos && w1.s.utxos[x].amount == reward
    requires x == Coinbase(Payee(miner), reward, Supply(w1.s) - reward)
    requires forall t, i :: Created(t, i) !in w1.s.utxos
    ensures w == Run(start, [b0, b1], reward) && |w.created| == 4 && w.created[1] == x == w.created[3] && x !in w.spent
            && !NoReuse(w)
    ensures Supply(w.s) == Supply(w1.s) - reward && w.s.burned == w1.s.burned + reward
  {
    hide Supply, ApplyBlock, RecordBlock, Run, NoReuse, Payee;
    var kept := Output(whole.owner, whole.amount - reward);
    var tx, f: FeeCharge := Tx([first], [kept], reward, ""), Parts(reward, reward, 0);
    b1 := Block([tx], [Some(f)], miner);
    w := Run(start, [b0, b1], reward);
    TwoBlocks(start, b0, b1, w1, reward);
    BurnBlock(w1, tx, first, whole, kept, f, miner, reward, b1, x);
    Overwritten(w1, w, first, x, Created(tx, 0), reward, reward);
    Twice(w, x, 1, 3);
  }

  /** What a second block adds to a first that created x, when its coinbase is x again. */
  lemma {:induction false} Overwritten(w1: World, w: World, first: Id, x: Id, y: Id, fee: int, reward: int)
    requires x in w1.s.utxos && x != first && w1.created == [first, x] && w1.spent == []
    requires w.created == w1.created + [y, x] && w.spent == w1.spent + [first]
    requires Supply(w.s) ==
             Supply(w1.s) - fee - (if x in w1.s.utxos && x != first then w1.s.utxos[x].amount else 0) + reward
    ensures w.created == [first, x, y, x] && x !in w.spent
    ensures Supply(w.s) == Supply(w1.s) - fee - w1.s.utxos[x].amount + reward
  {
    hide Supply;
    assert w.spent == [first];
  }

  lemma {:induction false} Twice(w: World, x: Id, i: nat, j: nat)
    requires i < j < |w.created| && w.created[i] == x == w.created[j]
    ensures !NoReuse(w)
  {
  }

  /** The same when the coinbase output itself is spent and burned: no value is lost, but its id, spent,
      is unspent again, and the transaction that spent it is applied a second time. */
  lemma {:induction false} SpentIdReturns(miner: Option<string>)
    returns (start: World, b0: Block, b1: Block, x: Id, tx: Tx, w2: World, w3: World)
    ensures start == FromGenesis(TEN, [Genesis("a")]) && Listing([Genesis("a")], start.s.utxos)
    ensures w2 == Run(start, [b0, b1], 5) && w3 == Run(start, [b0, b1, b1], 5) && x == Coinbase(Payee(miner), 5, 10)
    ensures x in w2.spent && x in w2.s.utxos && Supply(w2.s) == 15 && w2.s.burned == 5
    ensures w3.applied == [tx, tx] && w3.spent == [x, x]
  {
    hide Supply, ApplyBlock, RecordBlock, Run, FromGenesis, Listing, Payee;
    var coin, kept := Output(Payee(miner), 5), Output("m", 0);
    var w1: World;
    start, w1 := FirstCoinbase(miner);
    x := Coinbase(Payee(miner), 5, 10);
    tx := Tx([x], [kept], 5, "");
    var f: FeeCharge := Parts(5, 5, 0);
    b0 := Block([], [], miner);
    b1 := Block([tx], [Some(f)], miner);
    w2 := Run(start, [b0, b1], 5);
    w3 := Run(start, [b0, b1, b1], 5);
    TwoBlocks(start, b0, b1, w1, 5);
    ThreeBlocks(start, b0, b1, b1, w2, 5);
    BurnBlock(w1, tx, x, coin, kept, f, miner, 5, b1, x);
    BurnRecord(w2, tx, x, coin, kept, f, miner, 5, b1);
  }
}
