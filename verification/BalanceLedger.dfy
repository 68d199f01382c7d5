/** The account ledger: balances, nonces, and the value burned. */
module BalanceLedger {
  import opened Common
  import opened Fees

  /** A transfer; its content is its id. */
  datatype Transaction = Transaction(
    sender: string, recipient: string, amount: int, fee: int, nonce: int, asset: string, data: string)

  datatype BalanceState = BalanceState(balances: map<string, int>, nonces: map<string, int>, burned: int)

  datatype Settings = Settings(enforceNonce: bool, allowOverdraft: bool)

  datatype LedgerError = NegativeAmount | NegativeFee | BadNonce | InsufficientBalance | ChargesMismatch

  datatype Result = Ok(state: BalanceState) | Err(error: LedgerError)

  const FEE_POOL_ACCOUNT := "__fees__"

  // ------------------------------------------------------------------ one transaction

  function Validate(m: Settings, tx: Transaction, s: BalanceState): Option<LedgerError> {
    if tx.amount < 0 then Some(NegativeAmount)
    else if tx.fee < 0 then Some(NegativeFee)
    else if m.enforceNonce && tx.nonce != Get(s.nonces, tx.sender) then Some(BadNonce)
    else if !m.allowOverdraft && Get(s.balances, tx.sender) < tx.amount + tx.fee then Some(InsufficientBalance)
    else None
  }

  /** One account changed by an amount; an unknown account starts at zero. */
  function Move(balances: map<string, int>, account: string, delta: int): map<string, int> {
    balances[account := Get(balances, account) + delta]
  }

  function Payee(miner: Option<string>): string {
    if miner.Some? then miner.value else FEE_POOL_ACCOUNT
  }

  function FullTip(tx: Transaction): FeeCharge
    requires tx.fee >= 0
  {
    Parts(tx.fee, 0, tx.fee)
  }

  /** The balances after the sender paid, the recipient received, and the producer was tipped. */
  function Settled(balances: map<string, int>, tx: Transaction, f: FeeCharge, miner: Option<string>): map<string, int> {
    var debited := Move(balances, tx.sender, -tx.amount - f.charged);
    var paid := Move(debited, tx.recipient, tx.amount);
    if f.tip != 0 then Move(paid, Payee(miner), f.tip) else paid
  }

  function Next(m: Settings, tx: Transaction, s: BalanceState, f: FeeCharge, miner: Option<string>): BalanceState {
    BalanceState(Settled(s.balances, tx, f, miner), if m.enforceNonce then Move(s.nonces, tx.sender, 1) else s.nonces,
                 s.burned + f.burned)
  }

  /** apply_tx */
  function ApplyTx(m: Settings, tx: Transaction, s: BalanceState, charge: Option<FeeCharge>,
      miner: Option<string>): Result {
    var invalid := Validate(m, tx, s);
    if invalid.Some? then Err(invalid.value)
    else
      var f := if charge.Some? then charge.value else FullTip(tx);
      Ok(Next(m, tx, s, f, miner))
  }

  ghost function Supply(s: BalanceState): int { Sum(s.balances) }

  ghost predicate NonNegative(balances: map<string, int>) { forall a :: a in balances ==> balances[a] >= 0 }

  ghost predicate Solvent(s: BalanceState) { NonNegative(s.balances) }

  lemma {:induction false} MoveSum(balances: map<string, int>, a: string, delta: int)
    ensures Sum(Move(balances, a, delta)) == Sum(balances) + delta
  {
    SumUpdate(balances, a, Get(balances, a) + delta);
  }

  lemma MoveNonNegative(balances: map<string, int>, a: string, delta: int)
    requires NonNegative(balances) && Get(balances, a) + delta >= 0
    ensures NonNegative(Move(balances, a, delta))
  {
  }

  lemma GetNonNegative(balances: map<string, int>, a: string)
    requires NonNegative(balances)
    ensures Get(balances, a) >= 0
  {
  }

  lemma {:induction false} SettledSum(balances: map<string, int>, tx: Transaction, f: FeeCharge, miner: Option<string>)
    ensures Sum(Settled(balances, tx, f, miner)) + f.burned == Sum(balances)
  {
    hide Move, Get, Sum;
    var debited := Move(balances, tx.sender, -tx.amount - f.charged);
    var paid := Move(debited, tx.recipient, tx.amount);
    MoveSum(balances, tx.sender, -tx.amount - f.charged);
    MoveSum(debited, tx.recipient, tx.amount);
    MoveSum(paid, Payee(miner), f.tip);
  }

  lemma {:induction false} SettledNonNegative(balances: map<string, int>, tx: Transaction, f: FeeCharge,
      miner: Option<string>)
    requires NonNegative(balances) && tx.amount >= 0 && Get(balances, tx.sender) >= tx.amount + f.charged
    ensures NonNegative(Settled(balances, tx, f, miner))
  {
    hide Move, Get, NonNegative;
    var debited := Move(balances, tx.sender, -tx.amount - f.charged);
    var paid := Move(debited, tx.recipient, tx.amount);
    MoveNonNegative(balances, tx.sender, -tx.amount - f.charged);
    GetNonNegative(debited, tx.recipient);
    MoveNonNegative(debited, tx.recipient, tx.amount);
    GetNonNegative(paid, Payee(miner));
    MoveNonNegative(paid, Payee(miner), f.tip);
  }

  /** No value is created or lost: what leaves the supply is burned. */
  lemma {:induction false} TxConserves(m: Settings, tx: Transaction, s: BalanceState, charge: Option<FeeCharge>,
      miner: Option<string>)
    requires ApplyTx(m, tx, s, charge, miner).Ok?
    ensures var u := ApplyTx(m, tx, s, charge, miner).state;
            && Supply(u) + u.burned == Supply(s) + s.burned
            && u.burned == s.burned + (if charge.Some? then charge.value.burned else 0)
  {
    var f := if charge.Some? then charge.value else FullTip(tx);
    SettledSum(s.balances, tx, f, miner);
    hide Settled, Move;
  }

  /** A charge within the declared fee leaves nobody in debt. */
  lemma {:induction false} TxSolvent(m: Settings, tx: Transaction, s: BalanceState, charge: Option<FeeCharge>,
      miner: Option<string>)
    requires Solvent(s) && !m.allowOverdraft && ApplyTx(m, tx, s, charge, miner).Ok?
    requires charge.Some? ==> charge.value.charged <= tx.fee
    ensures Solvent(ApplyTx(m, tx, s, charge, miner).state)
  {
    var f := if charge.Some? then charge.value else FullTip(tx);
    SettledNonNegative(s.balances, tx, f, miner);
    hide Settled, Move, NonNegative;
  }

  /** Exactly when a charge, of whatever size, leaves nobody in debt: the sender covers it, counting
      what comes back to it as recipient or producer. */
  lemma {:induction false} TxSolventIff(m: Settings, tx: Transaction, s: BalanceState, f: FeeCharge,
      miner: Option<string>)
    requires Solvent(s) && ApplyTx(m, tx, s, Some(f), miner).Ok?
    ensures Solvent(ApplyTx(m, tx, s, Some(f), miner).state) <==>
            Get(s.balances, tx.sender) + (if tx.recipient == tx.sender then tx.amount else 0)
              + (if Payee(miner) == tx.sender then f.tip else 0) >= tx.amount + f.charged
  {
    var u := ApplyTx(m, tx, s, Some(f), miner).state.balances;
    assert u == Settled(s.balances, tx, f, miner);
    hide ApplyTx;
    forall a ensures Get(u, a) == Get(s.balances, a) + (if a == tx.sender then -tx.amount - f.charged else 0)
                       + (if a == tx.recipient then tx.amount else 0) + (if a == Payee(miner) then f.tip else 0) {
      SettledAt(s.balances, tx, f, miner, a);
    }
    hide Settled;
    forall a | a in u ensures u[a] >= 0 || a == tx.sender {
      GetNonNegative(s.balances, a);
      assert u[a] == Get(u, a);
    }
    SettledAt(s.balances, tx, f, miner, tx.sender);
  }

  lemma SettledAt(balances: map<string, int>, tx: Transaction, f: FeeCharge, miner: Option<string>, a: string)
    ensures var u := Settled(balances, tx, f, miner);
            && tx.sender in u
            && Get(u, a) == Get(balances, a) + (if a == tx.sender then -tx.amount - f.charged else 0)
                 + (if a == tx.recipient then tx.amount else 0) + (if a == Payee(miner) then f.tip else 0)
  {
  }

  /** The sender's nonce is used up, nobody else's moves. */
  lemma {:induction false} TxNonce(m: Settings, tx: Transaction, s: BalanceState, charge: Option<FeeCharge>,
      miner: Option<string>, a: string)
    requires m.enforceNonce && ApplyTx(m, tx, s, charge, miner).Ok?
    ensures var u := ApplyTx(m, tx, s, charge, miner).state;
            Get(u.nonces, a) == Get(s.nonces, a) + (if a == tx.sender then 1 else 0)
              && tx.nonce == Get(s.nonces, tx.sender)
  {
    hide Settled;
  }

  // ------------------------------------------------------------------ a block

  /** The transactions one after the other; the first error ends it. */
  function ApplyAll(m: Settings, txs: seq<Transaction>, charges: seq<Option<FeeCharge>>, s: BalanceState,
      miner: Option<string>): Result
    requires |txs| == |charges|
  {
    if txs == [] then Ok(s)
    else
      var n := |txs| - 1;
      var r := ApplyAll(m, txs[..n], charges[..n], s, miner);
      if r.Err? then r else ApplyTx(m, txs[n], r.state, charges[n], miner)
  }

  function Coinbase(s: BalanceState, miner: Option<string>, reward: int): BalanceState {
    if reward == 0 then s else s.(balances := Move(s.balances, Payee(miner), reward))
  }

  /** apply_block */
  function ApplyBlock(m: Settings, txs: seq<Transaction>, s: BalanceState, charges: seq<Option<FeeCharge>>,
      miner: Option<string>, reward: int): Result
  {
    if |charges| != |txs| then Err(ChargesMismatch)
    else
      var r := ApplyAll(m, txs, charges, s, miner);
      if r.Err? then r else Ok(Coinbase(r.state, miner, reward))
  }

  /** Supply and burned value together grow by the reward and nothing else. */
  lemma {:induction false} AllConserve(m: Settings, txs: seq<Transaction>, charges: seq<Option<FeeCharge>>,
      s: BalanceState, miner: Option<string>)
    requires |txs| == |charges| && ApplyAll(m, txs, charges, s, miner).Ok?
    ensures var u := ApplyAll(m, txs, charges, s, miner).state;
            Supply(u) + u.burned == Supply(s) + s.burned && u.burned == s.burned + Burned(charges)
  {
    if txs != [] {
      var n := |txs| - 1;
      AllConserve(m, txs[..n], charges[..n], s, miner);
      TxConserves(m, txs[n], ApplyAll(m, txs[..n], charges[..n], s, miner).state, charges[n], miner);
    }
  }

  lemma {:induction false} BlockConserves(m: Settings, txs: seq<Transaction>, s: BalanceState,
      charges: seq<Option<FeeCharge>>, miner: Option<string>, reward: int)
    requires ApplyBlock(m, txs, s, charges, miner, reward).Ok?
    ensures var u := ApplyBlock(m, txs, s, charges, miner, reward).state;
            Supply(u) + u.burned == Supply(s) + s.burned + reward && u.burned == s.burned + Burned(charges)
  {
    AllConserve(m, txs, charges, s, miner);
    var v := ApplyAll(m, txs, charges, s, miner).state;
    hide ApplyAll, Burned, Move, Sum;
    MoveSum(v.balances, Payee(miner), reward);
  }

  /** No charge exceeds the fee its transaction declares. */
  ghost predicate WithinBids(txs: seq<Transaction>, charges: seq<Option<FeeCharge>>) {
    |txs| == |charges| && forall i :: 0 <= i < |txs| && charges[i].Some? ==> charges[i].value.charged <= txs[i].fee
  }

  lemma {:induction false} AllSolvent(m: Settings, txs: seq<Transaction>, charges: seq<Option<FeeCharge>>,
      s: BalanceState, miner: Option<string>)
    requires WithinBids(txs, charges) && ApplyAll(m, txs, charges, s, miner).Ok?
    requires Solvent(s) && !m.allowOverdraft
    ensures Solvent(ApplyAll(m, txs, charges, s, miner).state)
  {
    if txs != [] {
      var n := |txs| - 1;
      AllSolvent(m, txs[..n], charges[..n], s, miner);
      TxSolvent(m, txs[n], ApplyAll(m, txs[..n], charges[..n], s, miner).state, charges[n], miner);
    }
  }

  lemma {:induction false} BlockSolvent(m: Settings, txs: seq<Transaction>, s: BalanceState,
      charges: seq<Option<FeeCharge>>, miner: Option<string>, reward: int)
    requires WithinBids(txs, charges) && ApplyBlock(m, txs, s, charges, miner, reward).Ok?
    requires Solvent(s) && !m.allowOverdraft && reward >= 0
    ensures Solvent(ApplyBlock(m, txs, s, charges, miner, reward).state)
  {
    AllSolvent(m, txs, charges, s, miner);
    hide ApplyAll, NonNegative, Move;
    var v := ApplyAll(m, txs, charges, s, miner).state;
    GetNonNegative(v.balances, Payee(miner));
    MoveNonNegative(v.balances, Payee(miner), reward);
  }

  // ------------------------------------------------------------------ replay

  /** The nonces a sender has used, in order. */
  function NoncesOf(txs: seq<Transaction>, a: string): seq<int> {
    if txs == [] then []
    else
      var n := |txs| - 1;
      NoncesOf(txs[..n], a) + if txs[n].sender == a then [txs[n].nonce] else []
  }

  /** `used` is 0, 1, 2, ... up to but without `next`. */
  ghost predicate CountsUp(used: seq<int>, next: int) {
    |used| == next && forall i :: 0 <= i < |used| ==> used[i] == i
  }

  lemma {:induction false} NoncesAppend(a: seq<Transaction>, b: seq<Transaction>, who: string)
    ensures NoncesOf(a + b, who) == NoncesOf(a, who) + NoncesOf(b, who)
  {
    if b == [] {
      assert a + b == a;
    } else {
      var n := |b| - 1;
      assert (a + b)[..|a + b| - 1] == a + b[..n];
      NoncesAppend(a, b[..n], who);
    }
  }

  lemma {:induction false} CountOne(before: seq<Transaction>, tx: Transaction, expected: int, who: string, next: int)
    requires CountsUp(NoncesOf(before, who), next) && tx.nonce == expected && (who == tx.sender ==> expected == next)
    ensures CountsUp(NoncesOf(before + [tx], who), next + if who == tx.sender then 1 else 0)
  {
    assert (before + [tx])[..|before|] == before;
  }

  lemma {:induction false} AllCount(m: Settings, before: seq<Transaction>, txs: seq<Transaction>,
      charges: seq<Option<FeeCharge>>, s: BalanceState, miner: Option<string>, who: string)
    requires |txs| == |charges| && ApplyAll(m, txs, charges, s, miner).Ok? && m.enforceNonce
    requires CountsUp(NoncesOf(before, who), Get(s.nonces, who))
    ensures CountsUp(NoncesOf(before + txs, who), Get(ApplyAll(m, txs, charges, s, miner).state.nonces, who))
  {
    hide CountsUp, NoncesOf, Get, ApplyTx;
    if txs == [] {
      assert before + txs == before;
    } else {
      var n := |txs| - 1;
      var u := ApplyAll(m, txs[..n], charges[..n], s, miner).state;
      AllCount(m, before, txs[..n], charges[..n], s, miner, who);
      hide ApplyAll;
      TxNonce(m, txs[n], u, charges[n], miner, who);
      assert before + txs == before + txs[..n] + [txs[n]];
      CountOne(before + txs[..n], txs[n], Get(u.nonces, txs[n].sender), who, Get(u.nonces, who));
    }
  }

  /** Every sender's nonces are used in order, each once. */
  lemma {:induction false} BlockCounts(m: Settings, before: seq<Transaction>, txs: seq<Transaction>, s: BalanceState,
      charges: seq<Option<FeeCharge>>, miner: Option<string>, reward: int, who: string)
    requires ApplyBlock(m, txs, s, charges, miner, reward).Ok? && m.enforceNonce
    requires CountsUp(NoncesOf(before, who), Get(s.nonces, who))
    ensures CountsUp(NoncesOf(before + txs, who), Get(ApplyBlock(m, txs, s, charges, miner, reward).state.nonces, who))
  {
    AllCount(m, before, txs, charges, s, miner, who);
  }

  /** The position of a transaction among its sender's. */
  lemma {:induction false} NonceAt(txs: seq<Transaction>, i: nat) returns (k: nat)
    requires i < |txs|
    ensures k == |NoncesOf(txs[..i], txs[i].sender)| < |NoncesOf(txs, txs[i].sender)|
    ensures NoncesOf(txs, txs[i].sender)[k] == txs[i].nonce
  {
    var who := txs[i].sender;
    k := |NoncesOf(txs[..i], who)|;
    assert txs == txs[..i] + [txs[i]] + txs[i + 1..];
    NoncesAppend(txs[..i], [txs[i]], who);
    NoncesAppend(txs[..i] + [txs[i]], txs[i + 1..], who);
    assert NoncesOf([txs[i]], who) == [txs[i].nonce];
  }

  /** When nonces count up, no transaction occurs twice. */
  lemma {:induction false} NoReplay(txs: seq<Transaction>)
    requires forall who :: CountsUp(NoncesOf(txs, who), |NoncesOf(txs, who)|)
    ensures Distinct(txs)
  {
    forall i, j | 0 <= i < j < |txs| ensures txs[i] != txs[j] {
      var who := txs[i].sender;
      assert CountsUp(NoncesOf(txs, who), |NoncesOf(txs, who)|);
      var k := NonceAt(txs, i);
      var l := NonceAt(txs, j);
      EarlierNonces(txs, i, j, who);
    }
  }

  lemma {:induction false} EarlierNonces(txs: seq<Transaction>, i: nat, j: nat, who: string)
    requires i < j <= |txs| && txs[i].sender == who
    ensures |NoncesOf(txs[..i], who)| < |NoncesOf(txs[..j], who)|
  {
    assert txs[..j] == txs[..i] + [txs[i]] + txs[i + 1..j];
    NoncesAppend(txs[..i], [txs[i]], who);
    NoncesAppend(txs[..i] + [txs[i]], txs[i + 1..j], who);
    assert NoncesOf([txs[i]], who) == [txs[i].nonce];
  }

  // ------------------------------------------------------------------ the model's methods

  class BalanceLedgerModel {
    const settings: Settings

    constructor (enforceNonce: bool, allowOverdraft: bool)
      ensures settings == Settings(enforceNonce, allowOverdraft)
    {
      settings := Settings(enforceNonce, allowOverdraft);
    }

    /** A copy of the state, edited account by account. */
    method Edit(tx: Transaction, s: BalanceState, f: FeeCharge, miner: Option<string>) returns (r: BalanceState)
      ensures r == Next(settings, tx, s, f, miner)
    {
      hide Move;
      var balances, nonces, burned := s.balances, s.nonces, s.burned;
      balances := Move(balances, tx.sender, -tx.amount - f.charged);
      balances := Move(balances, tx.recipient, tx.amount);
      if f.tip != 0 { balances := Move(balances, Payee(miner), f.tip); }
      if f.burned != 0 { burned := burned + f.burned; }
      if settings.enforceNonce { nonces := Move(nonces, tx.sender, 1); }
      r := BalanceState(balances, nonces, burned);
    }

    method Apply(tx: Transaction, s: BalanceState, charge: Option<FeeCharge>, miner: Option<string>) returns (r: Result)
      ensures r == ApplyTx(settings, tx, s, charge, miner)
    {
      hide Next;
      var invalid := Validate(settings, tx, s);
      if invalid.Some? { return Err(invalid.value); }
      var next := Edit(tx, s, if charge.Some? then charge.value else FullTip(tx), miner);
      return Ok(next);
    }

    method Block(txs: seq<Transaction>, s: BalanceState, charges: seq<Option<FeeCharge>>, miner: Option<string>,
        reward: int)
      returns (r: Result)
      ensures r == ApplyBlock(settings, txs, s, charges, miner, reward)
    {
      hide ApplyTx, Move;
      if |charges| != |txs| { return Err(ChargesMismatch); }
      var state := s;
      for i := 0 to |txs|
        invariant ApplyAll(settings, txs[..i], charges[..i], s, miner) == Ok(state)
      {
        assert txs[..i + 1][..i] == txs[..i] && charges[..i + 1][..i] == charges[..i];
        var next := Apply(txs[i], state, charges[i], miner);
        if next.Err? {
          ErrorStays(settings, txs, charges, s, miner, i + 1);
          return next;
        }
        state := next.state;
      }
      assert txs[..|txs|] == txs && charges[..|txs|] == charges;
      hide ApplyAll;
      if reward != 0 {
        state := state.(balances := Move(state.balances, Payee(miner), reward));
      }
      return Ok(state);
    }
  }

  lemma {:induction false} ErrorStays(m: Settings, txs: seq<Transaction>, charges: seq<Option<FeeCharge>>,
      s: BalanceState, miner: Option<string>, n: nat)
    requires n <= |txs| == |charges| && ApplyAll(m, txs[..n], charges[..n], s, miner).Err?
    ensures ApplyAll(m, txs, charges, s, miner) == ApplyAll(m, txs[..n], charges[..n], s, miner)
  {
    if n == |txs| {
      assert txs[..n] == txs && charges[..n] == charges;
    } else {
      var k := |txs| - 1;
      assert txs[..k][..n] == txs[..n] && charges[..k][..n] == charges[..n];
      ErrorStays(m, txs[..k], charges[..k], s, miner, n);
    }
  }
}
