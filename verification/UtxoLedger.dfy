/** The ledger of unspent outputs: what a transaction consumes and creates. */
module UtxoLedger {
  import opened Common
  import opened Fees

  datatype Output = Output(owner: string, amount: int)

  /** Where an output id comes from. Hashes are taken as injective, so the hashed content stands for
      the hash; `Other` is any other text an input may name. */
  datatype Id =
    | Genesis(holder: string)
    | Created(tx: Tx, index: nat)
    | Tip(tx: Tx)
    | Coinbase(payee: string, reward: int, supply: int)
    | Other(text: string)

  datatype Tx = Tx(inputs: seq<Id>, outputs: seq<Output>, fee: int, data: string)

  datatype State = State(utxos: map<Id, Output>, burned: int)

  datatype LedgerError =
    | NegativeFee | NoInputs | DuplicateInput(id: Id) | MissingInput(id: Id) | NegativeOutput
    | ValueMismatch | Repriced | ChargesMismatch

  datatype Result = Ok(state: State) | Err(error: LedgerError)

  const FEE_POOL := "__fees__"

  function Payee(miner: Option<string>): string {
    if miner.Some? then miner.value else FEE_POOL
  }

  // ------------------------------------------------------------------ validation

  /** The first input that is repeated, unknown or spent. */
  function InputError(inputs: seq<Id>, utxos: map<Id, Output>): Option<LedgerError> {
    if inputs == [] then None
    else
      var n := |inputs| - 1;
      var front := InputError(inputs[..n], utxos);
      if front.Some? then front
      else if inputs[n] in inputs[..n] then Some(DuplicateInput(inputs[n]))
      else if inputs[n] !in utxos then Some(MissingInput(inputs[n]))
      else None
  }

  function InputTotal(inputs: seq<Id>, utxos: map<Id, Output>): int {
    if inputs == [] then 0
    else
      var n := |inputs| - 1;
      InputTotal(inputs[..n], utxos) + if inputs[n] in utxos then utxos[inputs[n]].amount else 0
  }

  function OutputTotal(outputs: seq<Output>): int {
    if outputs == [] then 0 else OutputTotal(outputs[..|outputs| - 1]) + outputs[|outputs| - 1].amount
  }

  predicate SomeNegative(outputs: seq<Output>) {
    exists i :: 0 <= i < |outputs| && outputs[i].amount < 0
  }

  function Invalid(tx: Tx, s: State): Option<LedgerError> {
    if tx.fee < 0 then Some(NegativeFee)
    else if tx.inputs == [] then Some(NoInputs)
    else
      var bad := InputError(tx.inputs, s.utxos);
      if bad.Some? then bad
      else if SomeNegative(tx.outputs) then Some(NegativeOutput)
      else if InputTotal(tx.inputs, s.utxos) != OutputTotal(tx.outputs) + tx.fee then Some(ValueMismatch)
      else None
  }

  /** An input list is good exactly when its entries are distinct and unspent. */
  lemma {:induction false} InputsGood(inputs: seq<Id>, utxos: map<Id, Output>)
    ensures InputError(inputs, utxos).None? <==> Distinct(inputs) && forall x :: x in inputs ==> x in utxos
  {
    if inputs != [] {
      var n := |inputs| - 1;
      var front, z := inputs[..n], inputs[n];
      assert inputs == front + [z];
      InputsGood(front, utxos);
      if Distinct(inputs) {
        forall i | 0 <= i < n ensures front[i] != z {
          assert inputs[i] == front[i] && inputs[n] == z;
        }
      }
    }
  }

  // ------------------------------------------------------------------ application

  /** The outputs of tx, numbered from 0. */
  function Put(utxos: map<Id, Output>, tx: Tx, outputs: seq<Output>): map<Id, Output> {
    if outputs == [] then utxos
    else
      var n := |outputs| - 1;
      Put(utxos, tx, outputs[..n])[Created(tx, n) := outputs[n]]
  }

  ghost function Next(tx: Tx, s: State, f: FeeCharge, miner: Option<string>): State {
    var paid := Put(s.utxos - Elements(tx.inputs), tx, tx.outputs);
    State(if f.tip != 0 then paid[Tip(tx) := Output(Payee(miner), f.tip)] else paid, s.burned + f.burned)
  }

  ghost function ApplyTx(tx: Tx, s: State, charge: Option<FeeCharge>, miner: Option<string>): Result {
    if Invalid(tx, s).Some? then Err(Invalid(tx, s).value)
    else
      var f: FeeCharge := if charge.Some? then charge.value else Parts(tx.fee, 0, tx.fee);
      if f.charged != tx.fee then Err(Repriced) else Ok(Next(tx, s, f, miner))
  }

  /** When a transaction is taken: the fee is not negative, the inputs are at least one, distinct and
      unspent, no output is negative, they balance with the fee, and the charge is the fee. */
  lemma {:induction false} TxTaken(tx: Tx, s: State, charge: Option<FeeCharge>, miner: Option<string>)
    ensures ApplyTx(tx, s, charge, miner).Ok? <==>
            && tx.fee >= 0 && tx.inputs != [] && Distinct(tx.inputs) && (forall x :: x in tx.inputs ==> x in s.utxos)
            && (forall o :: o in tx.outputs ==> o.amount >= 0)
            && InputTotal(tx.inputs, s.utxos) == OutputTotal(tx.outputs) + tx.fee
            && (charge.Some? ==> charge.value.charged == tx.fee)
  {
    hide Next, InputError, InputTotal, OutputTotal, Distinct;
    InputsGood(tx.inputs, s.utxos);
    assert SomeNegative(tx.outputs) <==> !(forall o :: o in tx.outputs ==> o.amount >= 0);
  }

  function Amounts(utxos: map<Id, Output>): map<Id, int> { map x | x in utxos :: utxos[x].amount }

  ghost function Supply(s: State): int { Sum(Amounts(s.utxos)) }

  /** _credit_coinbase; the id of the new output is made of the payee, the reward and the supply. */
  ghost function Credit(s: State, miner: Option<string>, reward: int): State {
    s.(utxos := s.utxos[Coinbase(Payee(miner), reward, Supply(s)) := Output(Payee(miner), reward)])
  }

  // ------------------------------------------------------------------ value

  lemma {:induction false} PutAmount(utxos: map<Id, Output>, x: Id, o: Output)
    ensures Sum(Amounts(utxos[x := o])) == Sum(Amounts(utxos)) - (if x in utxos then utxos[x].amount else 0) + o.amount
  {
    assert Amounts(utxos[x := o]) == Amounts(utxos)[x := o.amount];
    SumUpdate(Amounts(utxos), x, o.amount);
  }

  lemma {:induction false} TakeAmount(utxos: map<Id, Output>, x: Id)
    requires x in utxos
    ensures Sum(Amounts(utxos - {x})) == Sum(Amounts(utxos)) - utxos[x].amount
  {
    assert Amounts(utxos - {x}) == Amounts(utxos) - {x};
    SumRemove(Amounts(utxos), x);
  }

  lemma {:induction false} SpendSum(utxos: map<Id, Output>, inputs: seq<Id>)
    requires Distinct(inputs) && forall x :: x in inputs ==> x in utxos
    ensures Sum(Amounts(utxos - Elements(inputs))) == Sum(Amounts(utxos)) - InputTotal(inputs, utxos)
  {
    if inputs == [] {
      assert utxos - Elements(inputs) == utxos;
    } else {
      var n := |inputs| - 1;
      var front, z := inputs[..n], inputs[n];
      assert inputs == front + [z];
      SpendSum(utxos, front);
      assert z !in front;
      TakeAmount(utxos - Elements(front), z);
      assert utxos - Elements(inputs) == (utxos - Elements(front)) - {z};
    }
  }

  lemma {:induction false} PutSum(utxos: map<Id, Output>, tx: Tx, outputs: seq<Output>)
    requires forall i :: Created(tx, i) !in utxos
    ensures Sum(Amounts(Put(utxos, tx, outputs))) == Sum(Amounts(utxos)) + OutputTotal(outputs)
    ensures forall x :: x in Put(utxos, tx, outputs) <==>
              x in utxos || (x.Created? && x.tx == tx && x.index < |outputs|)
  {
    if outputs != [] {
      var n := |outputs| - 1;
      PutSum(utxos, tx, outputs[..n]);
      PutAmount(Put(utxos, tx, outputs[..n]), Created(tx, n), outputs[n]);
    }
  }

  /** The ids of a transaction's outputs are not in use. */
  ghost predicate FreshFor(utxos: map<Id, Output>, tx: Tx) {
    (forall i :: Created(tx, i) !in utxos) && Tip(tx) !in utxos
  }

  /** A transaction with unused output ids neither makes nor loses value. */
  lemma {:induction false} TxConserves(tx: Tx, s: State, charge: Option<FeeCharge>, miner: Option<string>)
    requires ApplyTx(tx, s, charge, miner).Ok? && FreshFor(s.utxos, tx)
    ensures var u := ApplyTx(tx, s, charge, miner).state;
            && Supply(u) + u.burned == Supply(s) + s.burned
            && u.burned == s.burned + (if charge.Some? then charge.value.burned else 0)
            && (forall x :: x in u.utxos ==>
                  (x in s.utxos && x !in tx.inputs) || (x.Created? && x.tx == tx && x.index < |tx.outputs|)
                    || x == Tip(tx))
  {
    var f: FeeCharge := if charge.Some? then charge.value else Parts(tx.fee, 0, tx.fee);
    InputsGood(tx.inputs, s.utxos);
    SpendSum(s.utxos, tx.inputs);
    var rest := s.utxos - Elements(tx.inputs);
    PutSum(rest, tx, tx.outputs);
    var paid := Put(rest, tx, tx.outputs);
    PutAmount(paid, Tip(tx), Output(Payee(miner), f.tip));
  }

  /** A coinbase adds its reward exactly when its id is not in use for a positive amount: an id already
      there is overwritten, and the value behind it lost. */
  lemma {:induction false} CoinbaseAdds(s: State, miner: Option<string>, reward: int)
    ensures var x := Coinbase(Payee(miner), reward, Supply(s));
            Supply(Credit(s, miner, reward)) == Supply(s) + reward <==> (x in s.utxos ==> s.utxos[x].amount == 0)
  {
    var x := Coinbase(Payee(miner), reward, Supply(s));
    PutAmount(s.utxos, x, Output(Payee(miner), reward));
  }
}
