/** The output ledger's loops over inputs, outputs and transactions. */
module UtxoEngine {
  import opened Common
  import opened Fees
  import opened UtxoLedger
  import opened UtxoRuns

  class UTXOLedgerModel {
    constructor () {}

    method Validate(tx: Tx, s: State) returns (error: Option<LedgerError>)
      ensures error == Invalid(tx, s)
    {
      if tx.fee < 0 { return Some(NegativeFee); }
      if tx.inputs == [] { return Some(NoInputs); }
      var seen: set<Id>, inputTotal := {}, 0;
      NothingYet(s.utxos);
      hide InputError, InputTotal, OutputTotal, SomeNegative, Elements;
      for i := 0 to |tx.inputs|
        invariant seen == Elements(tx.inputs[..i])
        invariant InputError(tx.inputs[..i], s.utxos).None?
        invariant inputTotal == InputTotal(tx.inputs[..i], s.utxos)
      {
        var x := tx.inputs[i];
        InputStep(tx.inputs, s.utxos, i);
        if x in seen {
          InputErrorStays(tx.inputs, s.utxos, i + 1);
          return Some(DuplicateInput(x));
        }
        seen := seen + {x};
        if x !in s.utxos {
          InputErrorStays(tx.inputs, s.utxos, i + 1);
          return Some(MissingInput(x));
        }
        inputTotal := inputTotal + s.utxos[x].amount;
      }
      assert tx.inputs[..|tx.inputs|] == tx.inputs;
      var outputTotal := 0;
      for i := 0 to |tx.outputs|
        invariant !SomeNegative(tx.outputs[..i])
        invariant outputTotal == OutputTotal(tx.outputs[..i])
      {
        OutputStep(tx.outputs, i);
        if tx.outputs[i].amount < 0 { return Some(NegativeOutput); }
        outputTotal := outputTotal + tx.outputs[i].amount;
      }
      assert tx.outputs[..|tx.outputs|] == tx.outputs;
      return if inputTotal != outputTotal + tx.fee then Some(ValueMismatch) else None;
    }

    method Apply(tx: Tx, s: State, charge: Option<FeeCharge>, miner: Option<string>) returns (r: Result)
      ensures r == ApplyTx(tx, s, charge, miner)
    {
      hide Invalid, Next;
      var error := Validate(tx, s);
      if error.Some? { return Err(error.value); }
      FeeKnown(tx, s);
      var f: FeeCharge := if charge.Some? then charge.value else Parts(tx.fee, 0, tx.fee);
      if f.charged != tx.fee { return Err(Repriced); }
      var next := Edit(tx, s, f, miner);
      return Ok(next);
    }

    /** The copied state: inputs out, outputs in, then the tip. */
    method Edit(tx: Tx, s: State, f: FeeCharge, miner: Option<string>) returns (r: State)
      ensures r == Next(tx, s, f, miner)
    {
      var utxos, burned := s.utxos, s.burned;
      for i := 0 to |tx.inputs|
        invariant utxos == s.utxos - Elements(tx.inputs[..i])
      {
        assert Elements(tx.inputs[..i + 1]) == Elements(tx.inputs[..i]) + {tx.inputs[i]} by {
          assert tx.inputs[..i + 1] == tx.inputs[..i] + [tx.inputs[i]];
        }
        utxos := utxos - {tx.inputs[i]};
      }
      assert tx.inputs[..|tx.inputs|] == tx.inputs;
      ghost var rest := utxos;
      for i := 0 to |tx.outputs|
        invariant utxos == Put(rest, tx, tx.outputs[..i])
      {
        assert tx.outputs[..i + 1][..i] == tx.outputs[..i];
        utxos := utxos[Created(tx, i) := tx.outputs[i]];
      }
      assert tx.outputs[..|tx.outputs|] == tx.outputs;
      hide Put, Elements;
      if f.tip != 0 { utxos := utxos[Tip(tx) := Output(Payee(miner), f.tip)]; }
      return State(utxos, burned + f.burned);
    }

    method TotalSupply(s: State) returns (total: int)
      ensures total == Supply(s)
    {
      hide Amounts, Sum;
      total := 0;
      var left := s.utxos.Keys;
      ghost var seen: map<Id, Output> := map[];
      EmptySupply(seen);
      while left != {}
        invariant left <= s.utxos.Keys
        invariant seen == s.utxos - left && total == Sum(Amounts(seen))
        decreases |left|
      {
        var x :| x in left;
        PutAmount(seen, x, s.utxos[x]);
        left := left - {x};
        seen := seen[x := s.utxos[x]];
        total := total + s.utxos[x].amount;
      }
      assert seen == s.utxos;
    }

    method CreditCoinbase(s: State, miner: Option<string>, reward: int) returns (r: State)
      ensures r == Credit(s, miner, reward)
    {
      var supply := TotalSupply(s);
      return s.(utxos := s.utxos[Coinbase(Payee(miner), reward, supply) := Output(Payee(miner), reward)]);
    }

    method Block(txs: seq<Tx>, s: State, charges: seq<Option<FeeCharge>>, miner: Option<string>,
        reward: int) returns (r: Result)
      ensures r == ApplyBlock(txs, s, charges, miner, reward)
    {
      hide ApplyTx, Credit;
      if |charges| != |txs| { return Err(ChargesMismatch); }
      var state := s;
      for i := 0 to |txs|
        invariant ApplyAll(txs[..i], charges[..i], s, miner) == Ok(state)
      {
        assert txs[..i + 1][..i] == txs[..i] && charges[..i + 1][..i] == charges[..i];
        var next := Apply(txs[i], state, charges[i], miner);
        if next.Err? {
          ErrorStays(txs, charges, s, miner, i + 1);
          return next;
        }
        state := next.state;
      }
      assert txs[..|txs|] == txs && charges[..|txs|] == charges;
      if reward == 0 { return Ok(state); }
      var last := CreditCoinbase(state, miner, reward);
      return Ok(last);
    }
  }

  lemma NothingYet(utxos: map<Id, Output>)
    ensures InputError([], utxos) == None && InputTotal([], utxos) == 0 && Elements<Id>([]) == {}
    ensures OutputTotal([]) == 0 && !SomeNegative([])
  {
  }

  lemma {:induction false} InputStep(inputs: seq<Id>, utxos: map<Id, Output>, i: nat)
    requires i < |inputs|
    ensures var x, front := inputs[i], inputs[..i];
            && Elements(inputs[..i + 1]) == Elements(front) + {x}
            && InputTotal(inputs[..i + 1], utxos) == InputTotal(front, utxos) +
                 (if x in utxos then utxos[x].amount else 0)
            && (InputError(front, utxos) == None ==>
                  InputError(inputs[..i + 1], utxos) ==
                  if x in Elements(front) then Some(DuplicateInput(x))
                  else if x !in utxos then Some(MissingInput(x)) else None)
  {
    assert inputs[..i + 1][..i] == inputs[..i];
    assert inputs[..i + 1] == inputs[..i] + [inputs[i]];
  }

  lemma {:induction false} OutputStep(outputs: seq<Output>, i: nat)
    requires i < |outputs|
    ensures OutputTotal(outputs[..i + 1]) == OutputTotal(outputs[..i]) + outputs[i].amount
    ensures SomeNegative(outputs[..i + 1]) <==> SomeNegative(outputs[..i]) || outputs[i].amount < 0
    ensures outputs[i].amount < 0 ==> SomeNegative(outputs)
  {
    assert outputs[..i + 1][..i] == outputs[..i];
    if SomeNegative(outputs[..i]) {
      var k :| 0 <= k < i && outputs[..i][k].amount < 0;
      assert outputs[..i + 1][k].amount < 0;
    }
    if outputs[i].amount < 0 {
      assert outputs[..i + 1][i].amount < 0;
    }
  }

  lemma FeeKnown(tx: Tx, s: State)
    requires Invalid(tx, s).None?
    ensures tx.fee >= 0
  {
  }

  lemma EmptySupply(none: map<Id, Output>)
    requires none == map[]
    ensures Sum(Amounts(none)) == 0
  {
  }

  lemma {:induction false} InputErrorStays(inputs: seq<Id>, utxos: map<Id, Output>, n: nat)
    requires n <= |inputs| && InputError(inputs[..n], utxos).Some?
    ensures InputError(inputs, utxos) == InputError(inputs[..n], utxos)
  {
    if n == |inputs| {
      assert inputs[..n] == inputs;
    } else {
      assert inputs[..|inputs| - 1][..n] == inputs[..n];
      InputErrorStays(inputs[..|inputs| - 1], utxos, n);
    }
  }

  lemma {:induction false} ErrorStays(txs: seq<Tx>, charges: seq<Option<FeeCharge>>, s: State,
      miner: Option<string>, n: nat)
    requires n <= |txs| == |charges| && ApplyAll(txs[..n], charges[..n], s, miner).Err?
    ensures ApplyAll(txs, charges, s, miner) == ApplyAll(txs[..n], charges[..n], s, miner)
  {
    hide ApplyTx;
    if n == |txs| {
      assert txs[..n] == txs && charges[..n] == charges;
    } else {
      var k := |txs| - 1;
      assert txs[..k][..n] == txs[..n] && charges[..k][..n] == charges[..n];
      ErrorStays(txs[..k], charges[..k], s, miner, n);
    }
  }
}
