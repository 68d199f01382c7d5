/** Who receives what from an output transaction, and which error a bad one meets first. */
module UtxoRules {
  import opened Common
  import opened Fees
  import opened UtxoLedger
  import opened UtxoRuns

  // ------------------------------------------------------------------ what a transaction leaves

  lemma {:induction false} PutAt(utxos: map<Id, Output>, tx: Tx, outputs: seq<Output>)
    ensures forall i :: 0 <= i < |outputs| ==>
              Created(tx, i) in Put(utxos, tx, outputs) && Put(utxos, tx, outputs)[Created(tx, i)] == outputs[i]
    ensures forall x :: x in utxos && !(x.Created? && x.tx == tx && x.index < |outputs|) ==>
              x in Put(utxos, tx, outputs) && Put(utxos, tx, outputs)[x] == utxos[x]
  {
    if outputs != [] {
      PutAt(utxos, tx, outputs[..|outputs| - 1]);
    }
  }

  /** The payee of tips and rewards: the producer, or the fee account. */
  function PaidTo(miner: Option<string>): string { if miner.Some? then miner.value else "__fees__" }

  /** An applied transaction spends its inputs, gives each output its declared owner and amount under the
      transaction's number for it, gives the producer the tip if there is one, burns what the charge says,
      and touches nothing else. */
  lemma {:induction false} PaidExactly(tx: Tx, s: State, charge: Option<FeeCharge>, miner: Option<string>)
    requires ApplyTx(tx, s, charge, miner).Ok? && FreshFor(s.utxos, tx)
    ensures var u := ApplyTx(tx, s, charge, miner).state;
            var tip := if charge.Some? then charge.value.tip else tx.fee;
            && (forall i :: 0 <= i < |tx.outputs| ==>
                  Created(tx, i) in u.utxos && u.utxos[Created(tx, i)] == tx.outputs[i])
            && (tip != 0 ==> Tip(tx) in u.utxos && u.utxos[Tip(tx)] == Output(PaidTo(miner), tip))
            && (forall x :: x in tx.inputs ==> x !in u.utxos)
            && (forall x :: x in s.utxos && x !in tx.inputs ==> x in u.utxos && u.utxos[x] == s.utxos[x])
            && (forall x :: x in u.utxos ==>
                  || (x in s.utxos && x !in tx.inputs) || (tip != 0 && x == Tip(tx))
                  || (x.Created? && x.tx == tx && x.index < |tx.outputs|))
            && u.burned == s.burned + if charge.Some? then charge.value.burned else 0
  {
    TxTaken(tx, s, charge, miner);
    var f: FeeCharge := if charge.Some? then charge.value else Parts(tx.fee, 0, tx.fee);
    var u := Next(tx, s, f, miner);
    assert ApplyTx(tx, s, charge, miner).state == u;
    hide ApplyTx, Next;
    NextLeaves(tx, s, f, miner);
    NextPays(tx, s, f, miner);
  }

  lemma {:induction false} NextPays(tx: Tx, s: State, f: FeeCharge, miner: Option<string>)
    requires FreshFor(s.utxos, tx) && forall x :: x in tx.inputs ==> x in s.utxos
    ensures var u := Next(tx, s, f, miner);
            && (forall i :: 0 <= i < |tx.outputs| ==>
                  Created(tx, i) in u.utxos && u.utxos[Created(tx, i)] == tx.outputs[i])
            && (f.tip != 0 ==> Tip(tx) in u.utxos && u.utxos[Tip(tx)] == Output(PaidTo(miner), f.tip))
            && (forall x :: x in s.utxos && x !in tx.inputs ==> x in u.utxos && u.utxos[x] == s.utxos[x])
            && u.burned == s.burned + f.burned
  {
    hide Put;
    PutAt(s.utxos - Elements(tx.inputs), tx, tx.outputs);
  }

  lemma {:induction false} NextLeaves(tx: Tx, s: State, f: FeeCharge, miner: Option<string>)
    requires FreshFor(s.utxos, tx) && forall x :: x in tx.inputs ==> x in s.utxos
    ensures var u := Next(tx, s, f, miner);
            && (forall x :: x in tx.inputs ==> x !in u.utxos)
            && (forall x :: x in u.utxos ==>
                  || (x in s.utxos && x !in tx.inputs) || (f.tip != 0 && x == Tip(tx))
                  || (x.Created? && x.tx == tx && x.index < |tx.outputs|))
  {
    hide Put;
    PutExactly(s.utxos - Elements(tx.inputs), tx, tx.outputs);
  }

  /** A block's coinbase gives the producer the reward and touches nothing else but an output that has its
      id already. */
  lemma {:induction false} RewardExactly(s: State, miner: Option<string>, reward: int)
    ensures var x, u := Coinbase(PaidTo(miner), reward, Supply(s)), Credit(s, miner, reward);
            && u.utxos == s.utxos[x := Output(PaidTo(miner), reward)] && u.burned == s.burned
  {
  }

  /** Every account of the genesis starts with an output of its own over what was allocated to it. */
  lemma {:induction false} GenesisExactly(allocations: map<string, int>)
    ensures var s := GenesisState(allocations);
            && s.burned == 0
            && (forall a :: a in allocations ==>
                  Genesis(a) in s.utxos && s.utxos[Genesis(a)] == Output(a, allocations[a]))
            && forall x :: x in s.utxos ==> x.Genesis? && x.holder in allocations
  {
  }

  // ------------------------------------------------------------------ the first error

  /** The input at i is the first that repeats an earlier one or is not unspent. */
  ghost predicate FirstBad(inputs: seq<Id>, utxos: map<Id, Output>, i: int) {
    && 0 <= i < |inputs| && (inputs[i] in inputs[..i] || inputs[i] !in utxos)
    && forall j :: 0 <= j < i ==> inputs[j] !in inputs[..j] && inputs[j] in utxos
  }

  lemma {:induction false} InputErrorExactly(inputs: seq<Id>, utxos: map<Id, Output>, i: int)
    requires FirstBad(inputs, utxos, i)
    ensures InputError(inputs, utxos) ==
            Some(if inputs[i] in inputs[..i] then DuplicateInput(inputs[i]) else MissingInput(inputs[i]))
  {
    var n := |inputs| - 1;
    var front := inputs[..n];
    if i < n {
      assert forall j :: 0 <= j <= i ==> front[j] == inputs[j] && front[..j] == inputs[..j];
      InputErrorExactly(front, utxos, i);
    } else {
      AllGood(front, utxos) by {
        assert forall j :: 0 <= j < n ==> front[j] == inputs[j] && front[..j] == inputs[..j];
      }
    }
  }

  lemma {:induction false} AllGood(inputs: seq<Id>, utxos: map<Id, Output>)
    requires forall j :: 0 <= j < |inputs| ==> inputs[j] !in inputs[..j] && inputs[j] in utxos
    ensures InputError(inputs, utxos).None?
  {
    if inputs != [] {
      var n := |inputs| - 1;
      var front := inputs[..n];
      assert forall j :: 0 <= j < n ==> front[j] == inputs[j] && front[..j] == inputs[..j];
      AllGood(front, utxos);
    }
  }

  /** The errors in the order in which they are found. */
  lemma {:induction false} FirstError(tx: Tx, s: State, charge: Option<FeeCharge>, miner: Option<string>)
    ensures var r := ApplyTx(tx, s, charge, miner);
            && (r == Err(NegativeFee) <==> tx.fee < 0)
            && (r == Err(NoInputs) <==> tx.fee >= 0 && tx.inputs == [])
            && (forall i :: tx.fee >= 0 && FirstBad(tx.inputs, s.utxos, i) ==>
                  r == Err(if tx.inputs[i] in tx.inputs[..i] then DuplicateInput(tx.inputs[i])
                           else MissingInput(tx.inputs[i])))
            && (tx.fee >= 0 && tx.inputs != [] && Distinct(tx.inputs)
                 && (forall x :: x in tx.inputs ==> x in s.utxos) ==>
                  if exists o :: o in tx.outputs && o.amount < 0 then r == Err(NegativeOutput)
                  else if InputTotal(tx.inputs, s.utxos) != OutputTotal(tx.outputs) + tx.fee
                    then r == Err(ValueMismatch)
                  else if charge.Some? && charge.value.charged != tx.fee then r == Err(Repriced) else r.Ok?)
  {
    hide Next, InputTotal, OutputTotal, InputError, Distinct;
    InputsGood(tx.inputs, s.utxos);
    forall i | FirstBad(tx.inputs, s.utxos, i)
      ensures InputError(tx.inputs, s.utxos) ==
              Some(if tx.inputs[i] in tx.inputs[..i] then DuplicateInput(tx.inputs[i]) else MissingInput(tx.inputs[i]))
    {
      InputErrorExactly(tx.inputs, s.utxos, i);
    }
    InputErrorKinds(tx.inputs, s.utxos);
    assert SomeNegative(tx.outputs) <==> exists o :: o in tx.outputs && o.amount < 0;
  }

  lemma {:induction false} InputErrorKinds(inputs: seq<Id>, utxos: map<Id, Output>)
    ensures var e := InputError(inputs, utxos); e.Some? ==> e.value.DuplicateInput? || e.value.MissingInput?
  {
    if inputs != [] {
      InputErrorKinds(inputs[..|inputs| - 1], utxos);
    }
  }
}
