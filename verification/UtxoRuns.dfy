/** Runs of the output ledger: no output id is ever created twice while nothing is burned. */
module UtxoRuns {
  import opened Common
  import opened Fees
  import opened UtxoLedger

  /** The transactions one after the other; the first error ends it. */
  ghost function ApplyAll(txs: seq<Tx>, charges: seq<Option<FeeCharge>>, s: State, miner: Option<string>): Result
    requires |txs| == |charges|
  {
    if txs == [] then Ok(s)
    else
      var n := |txs| - 1;
      var r := ApplyAll(txs[..n], charges[..n], s, miner);
      if r.Err? then r else ApplyTx(txs[n], r.state, charges[n], miner)
  }

  ghost function ApplyBlock(txs: seq<Tx>, s: State, charges: seq<Option<FeeCharge>>, miner: Option<string>,
      reward: int): Result {
    if |charges| != |txs| then Err(ChargesMismatch)
    else
      var r := ApplyAll(txs, charges, s, miner);
      if r.Err? || reward == 0 then r else Ok(Credit(r.state, miner, reward))
  }

  // ------------------------------------------------------------------ history

  /** A state with everything that led to it: the ids created, the ids spent, the transactions applied. */
  datatype World = World(s: State, created: seq<Id>, spent: seq<Id>, applied: seq<Tx>)

  function Numbered(tx: Tx, n: nat): seq<Id> {
    if n == 0 then [] else Numbered(tx, n - 1) + [Created(tx, n - 1)]
  }

  ghost function TipOf(tx: Tx, charge: Option<FeeCharge>): int {
    if charge.Some? then charge.value.tip else tx.fee
  }

  ghost function NewIds(tx: Tx, charge: Option<FeeCharge>): seq<Id> {
    Numbered(tx, |tx.outputs|) + if TipOf(tx, charge) != 0 then [Tip(tx)] else []
  }

  ghost function RecordTx(w: World, tx: Tx, charge: Option<FeeCharge>, miner: Option<string>): World
    requires ApplyTx(tx, w.s, charge, miner).Ok?
  {
    World(ApplyTx(tx, w.s, charge, miner).state, w.created + NewIds(tx, charge), w.spent + tx.inputs, w.applied + [tx])
  }

  ghost function RecordAll(w: World, txs: seq<Tx>, charges: seq<Option<FeeCharge>>, miner: Option<string>): (u: World)
    requires |txs| == |charges| && ApplyAll(txs, charges, w.s, miner).Ok?
    ensures u.s == ApplyAll(txs, charges, w.s, miner).state
  {
    if txs == [] then w
    else
      var n := |txs| - 1;
      RecordTx(RecordAll(w, txs[..n], charges[..n], miner), txs[n], charges[n], miner)
  }

  ghost function RecordCredit(w: World, miner: Option<string>, reward: int): World {
    World(Credit(w.s, miner, reward), w.created + [Coinbase(Payee(miner), reward, Supply(w.s))], w.spent, w.applied)
  }

  /** What no step breaks. */
  ghost predicate NoReuse(w: World) {
    Once(w) && LiveOrSpent(w) && InputsSpent(w) && AllExplained(w)
  }

  /** No id is created or spent twice, no transaction applied twice. */
  ghost predicate Once(w: World) { Distinct(w.created) && Distinct(w.spent) && Distinct(w.applied) }

  /** Whatever was created is either unspent or spent, and stays so. */
  ghost predicate LiveOrSpent(w: World) {
    && (forall x :: x in w.created <==> x in w.s.utxos || x in w.spent)
    && (forall x :: x in w.spent ==> x !in w.s.utxos)
  }

  ghost predicate InputsSpent(w: World) {
    forall tx :: tx in w.applied ==> tx.inputs != [] && forall x :: x in tx.inputs ==> x in w.spent
  }

  /** Each created id has its origin in the past. */
  ghost predicate AllExplained(w: World) { forall x :: x in w.created ==> Explained(w, x) }

  ghost predicate Explained(w: World, x: Id) {
    match x
    case Created(tx, _) => tx in w.applied
    case Tip(tx) => tx in w.applied
    case Coinbase(_, _, _) => true
    case Genesis(_) => true
    case Other(_) => false
  }

  lemma {:induction false} NumberedIds(tx: Tx, n: nat)
    ensures Distinct(Numbered(tx, n))
    ensures forall x :: x in Numbered(tx, n) <==> x.Created? && x.tx == tx && x.index < n
  {
    if n > 0 {
      NumberedIds(tx, n - 1);
    }
  }

  lemma {:induction false} DistinctJoin<T>(a: seq<T>, b: seq<T>)
    requires Distinct(a) && Distinct(b) && forall x :: x in b ==> x !in a
    ensures Distinct(a + b)
  {
    forall i, j | 0 <= i < j < |a + b| ensures (a + b)[i] != (a + b)[j] {
      if i < |a| <= j {
        assert (a + b)[j] in b && (a + b)[i] in a;
      }
    }
  }

  /** A transaction once applied can never be applied again, so its output ids are new. */
  lemma {:induction false} NewTransaction(w: World, tx: Tx, charge: Option<FeeCharge>, miner: Option<string>)
    requires NoReuse(w) && ApplyTx(tx, w.s, charge, miner).Ok?
    ensures tx !in w.applied && FreshFor(w.s.utxos, tx) && tx.inputs != []
    ensures Distinct(tx.inputs) && forall x :: x in tx.inputs ==> x in w.s.utxos && x !in w.spent
    ensures forall x :: x in NewIds(tx, charge) ==> x !in w.created && Explains(tx, x)
    ensures Distinct(NewIds(tx, charge))
  {
    InputsGood(tx.inputs, w.s.utxos);
    assert tx.inputs[0] in tx.inputs;
    assert forall x :: x in w.created ==> Explained(w, x);
    NumberedIds(tx, |tx.outputs|);
    DistinctJoin(Numbered(tx, |tx.outputs|), if TipOf(tx, charge) != 0 then [Tip(tx)] else []);
    forall i ensures Created(tx, i) !in w.s.utxos {
      assert !Explained(w, Created(tx, i));
    }
    assert !Explained(w, Tip(tx));
  }

  ghost predicate Explains(tx: Tx, x: Id) { (x.Created? || x.Tip?) && x.tx == tx }

  /** Whatever a transaction leaves unspent was there or is one of its new ids, and the reverse. */
  lemma {:induction false} PutExactly(utxos: map<Id, Output>, tx: Tx, outputs: seq<Output>)
    ensures forall x :: x in Put(utxos, tx, outputs) <==>
              x in utxos || (x.Created? && x.tx == tx && x.index < |outputs|)
  {
    if outputs != [] {
      PutExactly(utxos, tx, outputs[..|outputs| - 1]);
    }
  }

  lemma {:induction false} LiveAfter(tx: Tx, s: State, charge: Option<FeeCharge>, miner: Option<string>)
    requires ApplyTx(tx, s, charge, miner).Ok?
    ensures forall x :: x in ApplyTx(tx, s, charge, miner).state.utxos <==>
              (x in s.utxos && x !in tx.inputs) || x in NewIds(tx, charge)
  {
    PutExactly(s.utxos - Elements(tx.inputs), tx, tx.outputs);
    NumberedIds(tx, |tx.outputs|);
  }

  /** Applying a transaction reuses nothing; what it takes from the supply is burned. */
  lemma {:induction false} TxKeeps(w: World, tx: Tx, charge: Option<FeeCharge>, miner: Option<string>)
    requires NoReuse(w) && ApplyTx(tx, w.s, charge, miner).Ok?
    ensures var u := RecordTx(w, tx, charge, miner);
            && NoReuse(u) && Supply(u.s) + u.s.burned == Supply(w.s) + w.s.burned
            && u.s.burned == w.s.burned + (if charge.Some? then charge.value.burned else 0)
  {
    hide ApplyTx, NewIds, FreshFor, Supply, NoReuse, Distinct;
    NewTransaction(w, tx, charge, miner);
    TxConserves(tx, w.s, charge, miner);
    LiveAfter(tx, w.s, charge, miner);
    StepKeeps(w, RecordTx(w, tx, charge, miner), tx, NewIds(tx, charge));
  }

  /** A step that spends live inputs and adds new ids of a new transaction. */
  lemma {:induction false} StepKeeps(w: World, u: World, tx: Tx, ids: seq<Id>)
    requires NoReuse(w)
    requires u.created == w.created + ids && u.spent == w.spent + tx.inputs && u.applied == w.applied + [tx]
    requires tx !in w.applied && tx.inputs != [] && Distinct(tx.inputs) && Distinct(ids)
    requires forall x :: x in tx.inputs ==> x in w.s.utxos && x !in w.spent
    requires forall x :: x in ids ==> x !in w.created && Explains(tx, x)
    requires forall x :: x in u.s.utxos <==> (x in w.s.utxos && x !in tx.inputs) || x in ids
    ensures NoReuse(u)
  {
    hide Distinct, LiveOrSpent, InputsSpent, AllExplained, Explains;
    DistinctJoin(w.created, ids);
    DistinctJoin(w.spent, tx.inputs);
    JoinOne(w.applied, tx);
    TxLive(w, u, tx, ids);
    TxExplained(w, u, tx, ids);
    TxInputs(w, u, tx);
  }

  lemma {:induction false} TxLive(w: World, u: World, tx: Tx, ids: seq<Id>)
    requires LiveOrSpent(w) && u.created == w.created + ids && u.spent == w.spent + tx.inputs
    requires forall x :: x in tx.inputs ==> x in w.s.utxos
    requires forall x :: x in ids ==> x !in w.created
    requires forall x :: x in u.s.utxos <==> (x in w.s.utxos && x !in tx.inputs) || x in ids
    ensures LiveOrSpent(u)
  {
    forall x ensures x in u.created <==> x in u.s.utxos || x in u.spent {
      assert x in u.created <==> x in w.created || x in ids;
      assert x in u.spent <==> x in w.spent || x in tx.inputs;
    }
    forall x | x in u.spent ensures x !in u.s.utxos {
      assert x in w.spent || x in tx.inputs;
      assert x in w.created;
    }
  }

  lemma {:induction false} TxInputs(w: World, u: World, tx: Tx)
    requires InputsSpent(w) && u.applied == w.applied + [tx] && u.spent == w.spent + tx.inputs && tx.inputs != []
    ensures InputsSpent(u)
  {
    forall t | t in u.applied ensures t.inputs != [] && forall x :: x in t.inputs ==> x in u.spent {
      assert t in w.applied || t == tx;
    }
  }

  lemma JoinOne<T>(s: seq<T>, x: T)
    requires Distinct(s) && x !in s
    ensures Distinct(s + [x])
  {
  }

  lemma {:induction false} TxExplained(w: World, u: World, tx: Tx, ids: seq<Id>)
    requires AllExplained(w) && u.created == w.created + ids && u.applied == w.applied + [tx]
    requires forall x :: x in ids ==> Explains(tx, x)
    ensures AllExplained(u)
  {
    assert u.applied[|w.applied|] == tx;
    forall x | x in u.created ensures Explained(u, x) {
      assert x in w.created || x in ids;
      assert x in w.created ==> Explained(w, x);
    }
  }

  /** The current supply differs from the one named by every earlier coinbase of this payee and reward. */
  ghost predicate NewSupply(w: World, miner: Option<string>, reward: int) {
    forall x :: x in w.created && x.Coinbase? && x.payee == Payee(miner) && x.reward == reward ==>
      x.supply != Supply(w.s)
  }

  lemma NewSupplyIs(w: World, miner: Option<string>, reward: int)
    ensures NewSupply(w, miner, reward) <==> Coinbase(Payee(miner), reward, Supply(w.s)) !in w.created
  {
  }

  /** Exactly when a coinbase reuses no id, whatever was burned before it: the supply is not one that
      an earlier coinbase of the same payee and reward has named. Then it adds its reward. */
  lemma {:induction false} CreditKeepsIff(w: World, miner: Option<string>, reward: int)
    requires NoReuse(w)
    ensures NoReuse(RecordCredit(w, miner, reward)) <==> NewSupply(w, miner, reward)
    ensures Distinct(RecordCredit(w, miner, reward).created) <==> NewSupply(w, miner, reward)
    ensures NewSupply(w, miner, reward) ==> Supply(RecordCredit(w, miner, reward).s) == Supply(w.s) + reward
  {
    hide Supply, InputsSpent;
    var x, u := Coinbase(Payee(miner), reward, Supply(w.s)), RecordCredit(w, miner, reward);
    NewSupplyIs(w, miner, reward);
    if x in w.created {
      var i :| 0 <= i < |w.created| && w.created[i] == x;
      assert u.created[i] == u.created[|w.created|];
    } else {
      CoinbaseAdds(w.s, miner, reward);
      JoinOne(w.created, x);
      CreditLive(w, u, x);
      forall z | z in u.created ensures Explained(u, z) {
        assert z in w.created ==> Explained(w, z);
      }
      assert InputsSpent(u) by { SameInputs(w, u); }
    }
  }

  lemma {:induction false} CreditLive(w: World, u: World, x: Id)
    requires LiveOrSpent(w) && x !in w.created && u.created == w.created + [x] && u.spent == w.spent
    requires u.s.utxos.Keys == w.s.utxos.Keys + {x}
    ensures LiveOrSpent(u)
  {
    assert forall z :: z in u.created <==> z in w.created || z == x;
  }

  lemma SameInputs(w: World, u: World)
    requires InputsSpent(w) && u.applied == w.applied && u.spent == w.spent
    ensures InputsSpent(u)
  {
  }

  lemma {:induction false} AllKeep(w: World, txs: seq<Tx>, charges: seq<Option<FeeCharge>>, miner: Option<string>)
    requires NoReuse(w) && |txs| == |charges| && ApplyAll(txs, charges, w.s, miner).Ok?
    ensures var u := RecordAll(w, txs, charges, miner);
            && NoReuse(u) && Supply(u.s) + u.s.burned == Supply(w.s) + w.s.burned
            && u.s.burned == w.s.burned + Burned(charges)
  {
    hide NoReuse, Supply, ApplyTx;
    if txs != [] {
      var n := |txs| - 1;
      AllKeep(w, txs[..n], charges[..n], miner);
      TxKeeps(RecordAll(w, txs[..n], charges[..n], miner), txs[n], charges[n], miner);
    }
  }

  /** Transactions add to the ids created, and none of what they add is a coinbase. */
  lemma {:induction false} AllExtend(w: World, txs: seq<Tx>, charges: seq<Option<FeeCharge>>, miner: Option<string>)
    requires |txs| == |charges| && ApplyAll(txs, charges, w.s, miner).Ok?
    ensures var u := RecordAll(w, txs, charges, miner);
            w.created <= u.created && forall x :: x in u.created && x.Coinbase? ==> x in w.created
  {
    hide ApplyTx;
    if txs != [] {
      var n := |txs| - 1;
      AllExtend(w, txs[..n], charges[..n], miner);
      NumberedIds(txs[n], |txs[n].outputs|);
    }
  }

  // ------------------------------------------------------------------ runs of blocks

  datatype Block = Block(txs: seq<Tx>, charges: seq<Option<FeeCharge>>, miner: Option<string>)

  ghost predicate BurnsNothing(b: Block) {
    forall i :: 0 <= i < |b.charges| && b.charges[i].Some? ==> b.charges[i].value.burned == 0
  }

  lemma {:induction false} NothingBurned(charges: seq<Option<FeeCharge>>)
    requires forall i :: 0 <= i < |charges| && charges[i].Some? ==> charges[i].value.burned == 0
    ensures Burned(charges) == 0
  {
    if charges != [] {
      NothingBurned(charges[..|charges| - 1]);
    }
  }

  /** A refused block changes nothing. */
  ghost function RecordBlock(w: World, b: Block, reward: int): World {
    if ApplyBlock(b.txs, w.s, b.charges, b.miner, reward).Err? then w
    else
      var u := RecordAll(w, b.txs, b.charges, b.miner);
      if reward == 0 then u else RecordCredit(u, b.miner, reward)
  }

  ghost function GenesisState(allocations: map<string, int>): State {
    State(map x | x in GenesisIds(allocations.Keys) :: Output(x.holder, Get(allocations, x.holder)), 0)
  }

  ghost function GenesisIds(owners: set<string>): (r: set<Id>)
    ensures forall x :: x in r <==> x.Genesis? && x.holder in owners
  {
    set a | a in owners :: Genesis(a)
  }

  ghost predicate Listing(ids: seq<Id>, utxos: map<Id, Output>) {
    Distinct(ids) && forall x :: x in ids <==> x in utxos
  }

  ghost function Run(start: World, blocks: seq<Block>, reward: int): World {
    if blocks == [] then start
    else RecordBlock(Run(start, blocks[..|blocks| - 1], reward), blocks[|blocks| - 1], reward)
  }

  ghost function Accepted(start: World, blocks: seq<Block>, reward: int): nat {
    if blocks == [] then 0
    else
      var n := |blocks| - 1;
      var b := blocks[n];
      Accepted(start, blocks[..n], reward) +
      if ApplyBlock(b.txs, Run(start, blocks[..n], reward).s, b.charges, b.miner, reward).Ok? then 1 else 0
  }

  /** The ledger's own states over the blocks, without the record. */
  ghost function LedgerRun(s: State, blocks: seq<Block>, reward: int): State {
    if blocks == [] then s
    else
      var before, b := LedgerRun(s, blocks[..|blocks| - 1], reward), blocks[|blocks| - 1];
      var r := ApplyBlock(b.txs, before, b.charges, b.miner, reward);
      if r.Ok? then r.state else before
  }

  lemma BlockIs(w: World, b: Block, reward: int)
    requires ApplyBlock(b.txs, w.s, b.charges, b.miner, reward).Ok?
    ensures RecordBlock(w, b, reward).s == ApplyBlock(b.txs, w.s, b.charges, b.miner, reward).state
  {
  }

  /** The record is the ledger's own state. */
  lemma {:induction false} RunIs(start: World, blocks: seq<Block>, reward: int)
    ensures Run(start, blocks, reward).s == LedgerRun(start.s, blocks, reward)
  {
    hide ApplyBlock;
    if blocks != [] {
      var n := |blocks| - 1;
      RunIs(start, blocks[..n], reward);
      var w, b := Run(start, blocks[..n], reward), blocks[n];
      if ApplyBlock(b.txs, w.s, b.charges, b.miner, reward).Ok? {
        BlockIs(w, b, reward);
      }
    }
  }

  // ------------------------------------------------------------------ exactly when a run reuses nothing

  /** The coinbase of the block, if it has one, meets a supply not named before. */
  ghost predicate FreshBlock(w: World, b: Block, reward: int) {
    ApplyBlock(b.txs, w.s, b.charges, b.miner, reward).Ok? && reward != 0 ==>
      NewSupply(RecordAll(w, b.txs, b.charges, b.miner), b.miner, reward)
  }

  ghost predicate AllFresh(start: World, blocks: seq<Block>, reward: int) {
    blocks == [] ||
    (AllFresh(start, blocks[..|blocks| - 1], reward) &&
     FreshBlock(Run(start, blocks[..|blocks| - 1], reward), blocks[|blocks| - 1], reward))
  }

  lemma {:induction false} BlockExtends(w: World, b: Block, reward: int)
    ensures w.created <= RecordBlock(w, b, reward).created
  {
    hide ApplyAll, Credit;
    if ApplyBlock(b.txs, w.s, b.charges, b.miner, reward).Ok? {
      AllExtend(w, b.txs, b.charges, b.miner);
    }
  }

  lemma PrefixDistinct<T>(a: seq<T>, b: seq<T>)
    requires a <= b && Distinct(b)
    ensures Distinct(a)
  {
    assert forall i :: 0 <= i < |a| ==> a[i] == b[i];
  }

  /** One block, whatever it burns: it reuses nothing exactly when its coinbase meets a new supply, and
      then supply and burned value together grow by the reward. */
  lemma {:induction false} BlockKeepsIff(w: World, b: Block, reward: int)
    requires NoReuse(w)
    ensures var v := RecordBlock(w, b, reward);
            && (NoReuse(v) <==> FreshBlock(w, b, reward)) && (Distinct(v.created) ==> FreshBlock(w, b, reward))
            && (FreshBlock(w, b, reward) ==>
                  Supply(v.s) + v.s.burned == Supply(w.s) + w.s.burned +
                    if ApplyBlock(b.txs, w.s, b.charges, b.miner, reward).Ok? then reward else 0)
            && v.s.burned == w.s.burned +
                 if ApplyBlock(b.txs, w.s, b.charges, b.miner, reward).Ok? then Burned(b.charges) else 0
  {
    hide NoReuse, Supply, ApplyAll, Burned, NewSupply, Distinct;
    if ApplyBlock(b.txs, w.s, b.charges, b.miner, reward).Ok? {
      AllKeep(w, b.txs, b.charges, b.miner);
      if reward != 0 {
        CreditKeepsIff(RecordAll(w, b.txs, b.charges, b.miner), b.miner, reward);
      }
    }
  }

  /** Exactly when a run creates no id twice, lets no spent id return and applies no transaction twice,
      whatever it burns: each coinbase meets a supply that no earlier one of its payee and reward has
      named. Then supply and burned value add up to what was there and one reward a block. */
  lemma {:induction false} RunKeepsIff(start: World, blocks: seq<Block>, reward: int)
    requires NoReuse(start)
    ensures var w := Run(start, blocks, reward);
            && (NoReuse(w) <==> AllFresh(start, blocks, reward))
                 && (Distinct(w.created) ==> AllFresh(start, blocks, reward))
            && (AllFresh(start, blocks, reward) ==>
                  Supply(w.s) + w.s.burned == Supply(start.s) + start.s.burned +
                    reward * Accepted(start, blocks, reward))
  {
    hide NoReuse, Supply, RecordBlock, FreshBlock, ApplyBlock, Distinct;
    if blocks == [] {
      assert reward * 0 == 0;
    } else {
      var n := |blocks| - 1;
      var w, b := Run(start, blocks[..n], reward), blocks[n];
      RunKeepsIff(start, blocks[..n], reward);
      BlockExtends(w, b, reward);
      ReuseStays(w, RecordBlock(w, b, reward));
      if NoReuse(w) {
        BlockKeepsIff(w, b, reward);
      }
      var k := Accepted(start, blocks[..n], reward);
      assert reward * (k + 1) == reward * k + reward;
    }
  }

  /** What was created twice stays created twice. */
  lemma {:induction false} ReuseStays(w: World, v: World)
    requires w.created <= v.created
    ensures Distinct(v.created) ==> Distinct(w.created)
    ensures NoReuse(v) ==> Distinct(v.created)
  {
    if Distinct(v.created) {
      PrefixDistinct(w.created, v.created);
    }
  }

  // ------------------------------------------------------------------ burning less than the reward

  /** Each coinbase so far left the supply at least one reward above the supply it named. */
  ghost predicate Climbing(w: World, reward: int) {
    forall x :: x in w.created && x.Coinbase? ==> x.reward == reward && x.supply + reward <= Supply(w.s)
  }

  ghost predicate BurnsLess(b: Block, reward: int) { reward == 0 || Burned(b.charges) < reward }

  lemma {:induction false} BlockClimbs(w: World, b: Block, reward: int)
    requires NoReuse(w) && Climbing(w, reward) && BurnsLess(b, reward) && reward > 0
    ensures FreshBlock(w, b, reward) && Climbing(RecordBlock(w, b, reward), reward)
  {
    hide NoReuse, Supply, ApplyAll, Burned;
    if ApplyBlock(b.txs, w.s, b.charges, b.miner, reward).Ok? {
      var u := RecordAll(w, b.txs, b.charges, b.miner);
      AllKeep(w, b.txs, b.charges, b.miner);
      AllExtend(w, b.txs, b.charges, b.miner);
      assert Supply(u.s) == Supply(w.s) - Burned(b.charges);
      assert NewSupply(u, b.miner, reward);
      CreditKeepsIff(u, b.miner, reward);
    }
  }

  /** A run without reward, or whose blocks each burn less than the reward, reuses nothing. */
  lemma {:induction false} BurningLess(start: World, blocks: seq<Block>, reward: int)
    requires NoReuse(start) && Climbing(start, reward) && reward >= 0
    requires forall b :: b in blocks ==> BurnsLess(b, reward)
    ensures AllFresh(start, blocks, reward) && NoReuse(Run(start, blocks, reward))
    ensures reward > 0 ==> Climbing(Run(start, blocks, reward), reward)
  {
    hide NoReuse, Climbing, RecordBlock;
    RunKeepsIff(start, blocks, reward);
    if blocks != [] {
      var n := |blocks| - 1;
      assert blocks[n] in blocks;
      assert forall b :: b in blocks[..n] ==> b in blocks;
      BurningLess(start, blocks[..n], reward);
      if reward > 0 {
        BlockClimbs(Run(start, blocks[..n], reward), blocks[n], reward);
      }
    }
  }

  // ------------------------------------------------------------------ from genesis

  /** The genesis outputs hold what was allocated. */
  lemma {:induction false} GenesisSupply(allocations: map<string, int>)
    ensures Supply(GenesisState(allocations)) == Sum(allocations)
    decreases |allocations|
  {
    if allocations == map[] {
      assert Amounts(GenesisState(allocations).utxos) == map[];
    } else {
      hide Sum, Amounts, GenesisState;
      var a :| a in allocations;
      var g := GenesisState(allocations).utxos;
      RemoveKeySize(allocations, a);
      GenesisSupply(allocations - {a});
      SumRemove(allocations, a);
      GenesisWithout(allocations, a);
      TakeAmount(g, Genesis(a));
    }
  }

  lemma {:induction false} GenesisWithout(allocations: map<string, int>, a: string)
    requires a in allocations
    ensures var g := GenesisState(allocations).utxos;
            && Genesis(a) in g && g[Genesis(a)].amount == allocations[a]
            && GenesisState(allocations - {a}).utxos == g - {Genesis(a)}
  {
  }

  ghost function FromGenesis(allocations: map<string, int>, ids: seq<Id>): World {
    World(GenesisState(allocations), ids, [], [])
  }

  lemma StartKeeps(allocations: map<string, int>, ids: seq<Id>)
    requires Listing(ids, GenesisState(allocations).utxos)
    ensures NoReuse(FromGenesis(allocations, ids)) && forall reward :: Climbing(FromGenesis(allocations, ids), reward)
    ensures GenesisState(allocations).burned == 0
  {
    hide Supply;
  }

  /** Over every run from genesis whose blocks burn nothing: no output id is created twice, none is
      spent twice or comes back, no transaction is applied twice, and the ledger's supply is the
      genesis plus one reward for each accepted block. */
  lemma {:induction false} NothingReused(allocations: map<string, int>, ids: seq<Id>, blocks: seq<Block>, reward: int)
    requires Listing(ids, GenesisState(allocations).utxos) && reward >= 0 && forall b :: b in blocks ==> BurnsNothing(b)
    ensures var w := Run(FromGenesis(allocations, ids), blocks, reward);
            && NoReuse(w) && w.s == LedgerRun(GenesisState(allocations), blocks, reward) && w.s.burned == 0
            && Supply(w.s) == Sum(allocations) + reward * Accepted(FromGenesis(allocations, ids), blocks, reward)
  {
    hide NoReuse, Supply, Sum, GenesisState, Run, LedgerRun, Climbing;
    var start := FromGenesis(allocations, ids);
    StartKeeps(allocations, ids);
    GenesisSupply(allocations);
    forall b | b in blocks ensures BurnsLess(b, reward) {
      NothingBurned(b.charges);
    }
    BurningLess(start, blocks, reward);
    RunKeepsIff(start, blocks, reward);
    RunIs(start, blocks, reward);
    NoneBurned(start, blocks, reward);
  }

  lemma {:induction false} NoneBurned(start: World, blocks: seq<Block>, reward: int)
    requires NoReuse(start) && AllFresh(start, blocks, reward) && forall b :: b in blocks ==> BurnsNothing(b)
    ensures Run(start, blocks, reward).s.burned == start.s.burned
  {
    hide NoReuse, RecordBlock, FreshBlock, ApplyBlock, Supply;
    if blocks != [] {
      var n := |blocks| - 1;
      assert blocks[n] in blocks;
      assert forall b :: b in blocks[..n] ==> b in blocks;
      NoneBurned(start, blocks[..n], reward);
      RunKeepsIff(start, blocks[..n], reward);
      NothingBurned(blocks[n].charges);
      BlockKeepsIff(Run(start, blocks[..n], reward), blocks[n], reward);
    }
  }
}
