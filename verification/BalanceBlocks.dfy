/** What a block of the account ledger amounts to: each account's net change, the order of the
    transactions, and who may end in debt on the way. */
module BalanceBlocks {
  import opened Common
  import opened Fees
  import opened BalanceLedger

  /** A transaction with the charge it is applied at. */
  datatype Entry = Entry(tx: Transaction, charge: Option<FeeCharge>)

  ghost function Charged(e: Entry): int { if e.charge.Some? then e.charge.value.charged else e.tx.fee }
  ghost function TipPaid(e: Entry): int { if e.charge.Some? then e.charge.value.tip else e.tx.fee }
  ghost function BurnedBy(e: Entry): int { if e.charge.Some? then e.charge.value.burned else 0 }

  ghost function Entries(txs: seq<Transaction>, charges: seq<Option<FeeCharge>>): seq<Entry>
    requires |txs| == |charges|
  {
    seq(|txs|, i requires 0 <= i < |txs| => Entry(txs[i], charges[i]))
  }

  // ------------------------------------------------------------------ net changes

  /** The payee of tips and rewards: the producer, or the fee account. */
  function PaidTo(miner: Option<string>): string { if miner.Some? then miner.value else "__fees__" }

  /** What one entry is worth to account a, all its parts together. */
  ghost function Worth(e: Entry, miner: Option<string>, a: string): int {
    (if a == e.tx.recipient then e.tx.amount else 0) + (if a == PaidTo(miner) then TipPaid(e) else 0)
      - if a == e.tx.sender then e.tx.amount + Charged(e) else 0
  }

  ghost function Uses(e: Entry, a: string): int { if a == e.tx.sender then 1 else 0 }

  ghost function WorthTo(miner: Option<string>, a: string): Entry -> int { e => Worth(e, miner, a) }

  ghost function UsedBy(a: string): Entry -> int { e => Uses(e, a) }

  ghost function Tally<T>(f: T -> int, xs: seq<T>): int {
    if xs == [] then 0 else Tally(f, xs[..|xs| - 1]) + f(xs[|xs| - 1])
  }

  /** When a transaction is taken. */
  lemma {:induction false} TxTaken(m: Settings, e: Entry, s: BalanceState, miner: Option<string>)
    ensures ApplyTx(m, e.tx, s, e.charge, miner).Ok? <==>
            && e.tx.amount >= 0 && e.tx.fee >= 0
            && (m.enforceNonce ==> e.tx.nonce == Get(s.nonces, e.tx.sender))
            && (m.allowOverdraft || Get(s.balances, e.tx.sender) >= e.tx.amount + e.tx.fee)
  {
    hide Next;
  }

  /** What it then does to any one account, in whatever way sender, recipient and producer coincide. */
  lemma {:induction false} TxChanges(m: Settings, e: Entry, s: BalanceState, miner: Option<string>, a: string)
    requires ApplyTx(m, e.tx, s, e.charge, miner).Ok?
    ensures var u := ApplyTx(m, e.tx, s, e.charge, miner).state;
            && u.burned == s.burned + BurnedBy(e)
            && Get(u.balances, a) == Get(s.balances, a) + Worth(e, miner, a)
            && Get(u.nonces, a) == Get(s.nonces, a) + if m.enforceNonce then Uses(e, a) else 0
  {
    hide Next, Validate, Get;
    TxTaken(m, e, s, miner);
    var f: FeeCharge := if e.charge.Some? then e.charge.value else FullTip(e.tx);
    assert ApplyTx(m, e.tx, s, e.charge, miner).state == Next(m, e.tx, s, f, miner);
    hide ApplyTx;
    NextChanges(m, e.tx, s, f, miner, a);
  }

  lemma {:induction false} NextChanges(m: Settings, tx: Transaction, s: BalanceState, f: FeeCharge,
      miner: Option<string>, a: string)
    ensures var u := Next(m, tx, s, f, miner);
            && u.burned == s.burned + f.burned
            && Get(u.balances, a) == Get(s.balances, a) + (if a == tx.recipient then tx.amount else 0)
                 + (if a == Payee(miner) then f.tip else 0) - (if a == tx.sender then tx.amount + f.charged else 0)
            && Get(u.nonces, a) == Get(s.nonces, a) + if m.enforceNonce && a == tx.sender then 1 else 0
  {
    hide Settled;
    SettledAt(s.balances, tx, f, miner, a);
  }

  lemma {:induction false} EntriesFront(txs: seq<Transaction>, charges: seq<Option<FeeCharge>>)
    requires |txs| == |charges| && txs != []
    ensures var n := |txs| - 1; Entries(txs, charges) == Entries(txs[..n], charges[..n]) + [Entry(txs[n], charges[n])]
  {
  }

  lemma TallyLast<T>(f: T -> int, xs: seq<T>, x: T)
    ensures Tally(f, xs + [x]) == Tally(f, xs) + f(x)
  {
    assert (xs + [x])[..|xs|] == xs;
  }

  /** The change of one account from s to u is the sum of what the entries are worth to it. */
  ghost predicate Tallied(m: Settings, entries: seq<Entry>, miner: Option<string>, s: BalanceState, u: BalanceState,
      a: string) {
    && u.burned == s.burned + Tally(BurnedBy, entries)
    && Get(u.balances, a) == Get(s.balances, a) + Tally(WorthTo(miner, a), entries)
    && Get(u.nonces, a) == Get(s.nonces, a) + if m.enforceNonce then Tally(UsedBy(a), entries) else 0
  }

  /** After accepted transactions every account holds what it had and the sum of its net changes. */
  lemma {:induction false} AllTallied(m: Settings, txs: seq<Transaction>, charges: seq<Option<FeeCharge>>,
      s: BalanceState, miner: Option<string>, a: string)
    requires |txs| == |charges| && ApplyAll(m, txs, charges, s, miner).Ok?
    ensures Tallied(m, Entries(txs, charges), miner, s, ApplyAll(m, txs, charges, s, miner).state, a)
  {
    hide ApplyTx, Worth, Uses, Get;
    if txs != [] {
      var n := |txs| - 1;
      var front, e := Entries(txs[..n], charges[..n]), Entry(txs[n], charges[n]);
      var r := ApplyAll(m, txs[..n], charges[..n], s, miner);
      assert r.Ok? && ApplyAll(m, txs, charges, s, miner) == ApplyTx(m, e.tx, r.state, e.charge, miner);
      AllTallied(m, txs[..n], charges[..n], s, miner, a);
      EntriesFront(txs, charges);
      hide ApplyAll, Entries;
      OneTallied(m, front, e, s, r.state, miner, a);
    }
  }

  lemma {:induction false} OneTallied(m: Settings, front: seq<Entry>, e: Entry, s: BalanceState, v: BalanceState,
      miner: Option<string>, a: string)
    requires Tallied(m, front, miner, s, v, a) && ApplyTx(m, e.tx, v, e.charge, miner).Ok?
    ensures Tallied(m, front + [e], miner, s, ApplyTx(m, e.tx, v, e.charge, miner).state, a)
  {
    hide ApplyTx, Worth, Uses, Get, Tally;
    TxChanges(m, e, v, miner, a);
    TallyLast(BurnedBy, front, e);
    TallyLast(WorthTo(miner, a), front, e);
    TallyLast(UsedBy(a), front, e);
  }

  lemma {:induction false} TallySplit<T>(f: T -> int, xs: seq<T>, i: nat)
    requires i < |xs|
    ensures Tally(f, xs) == Tally(f, xs[..i] + xs[i + 1..]) + f(xs[i])
  {
    var n := |xs| - 1;
    if i == n {
      assert xs[..i] + xs[i + 1..] == xs[..n];
    } else {
      TallySplit(f, xs[..n], i);
      var rest := xs[..n][..i] + xs[..n][i + 1..];
      assert xs[..i] + xs[i + 1..] == rest + [xs[n]];
      TallyLast(f, rest, xs[n]);
    }
  }

  /** A tally does not depend on order. */
  lemma {:induction false} TallyAnyOrder<T>(f: T -> int, xs: seq<T>, ys: seq<T>)
    requires multiset(xs) == multiset(ys)
    ensures Tally(f, xs) == Tally(f, ys)
  {
    if xs == [] {
      assert ys == [] by { assert |multiset(ys)| == 0; }
    } else {
      var n := |xs| - 1;
      var i := WithoutOne(xs, ys);
      TallySplit(f, ys, i);
      TallyAnyOrder(f, xs[..n], ys[..i] + ys[i + 1..]);
    }
  }

  lemma {:induction false} WithoutOne<T>(xs: seq<T>, ys: seq<T>) returns (i: nat)
    requires xs != [] && multiset(xs) == multiset(ys)
    ensures i < |ys| && ys[i] == xs[|xs| - 1] && multiset(xs[..|xs| - 1]) == multiset(ys[..i] + ys[i + 1..])
  {
    var n := |xs| - 1;
    assert xs[n] in multiset(ys);
    i :| 0 <= i < |ys| && ys[i] == xs[n];
    TakeOut(xs, n);
    TakeOut(ys, i);
    assert xs[..n] + xs[n + 1..] == xs[..n];
    assert multiset(xs[..n]) == multiset(xs) - multiset{xs[n]};
  }

  lemma TakeOut<T>(xs: seq<T>, i: nat)
    requires i < |xs|
    ensures multiset(xs) == multiset(xs[..i] + xs[i + 1..]) + multiset{xs[i]}
  {
    assert xs == xs[..i] + [xs[i]] + xs[i + 1..];
  }

  /** After an accepted block the producer has the reward besides. */
  lemma {:induction false} BlockTallied(m: Settings, txs: seq<Transaction>, charges: seq<Option<FeeCharge>>,
      s: BalanceState, miner: Option<string>, reward: int, a: string)
    requires ApplyBlock(m, txs, s, charges, miner, reward).Ok?
    ensures |txs| == |charges|
    ensures var u := ApplyBlock(m, txs, s, charges, miner, reward).state;
            && Get(u.balances, a) == Get(s.balances, a) + Tally(WorthTo(miner, a), Entries(txs, charges))
                                     + (if a == PaidTo(miner) then reward else 0)
            && Get(u.nonces, a) == Get(s.nonces, a)
                                   + (if m.enforceNonce then Tally(UsedBy(a), Entries(txs, charges)) else 0)
            && u.burned == s.burned + Tally(BurnedBy, Entries(txs, charges))
  {
    hide ApplyAll, Entries, Tally;
    AllTallied(m, txs, charges, s, miner, a);
  }

  /** A transaction meets the checks in this order. */
  lemma {:induction false} FirstError(m: Settings, e: Entry, s: BalanceState, miner: Option<string>)
    ensures var r := ApplyTx(m, e.tx, s, e.charge, miner);
            if e.tx.amount < 0 then r == Err(NegativeAmount)
            else if e.tx.fee < 0 then r == Err(NegativeFee)
            else if m.enforceNonce && e.tx.nonce != Get(s.nonces, e.tx.sender) then r == Err(BadNonce)
            else if !m.allowOverdraft && Get(s.balances, e.tx.sender) < e.tx.amount + e.tx.fee
            then r == Err(InsufficientBalance) else r.Ok?
  {
    hide Next;
  }

  /** What two states agree on, account by account. */
  ghost predicate SameAt(u: BalanceState, v: BalanceState, a: string) {
    u.burned == v.burned && Get(u.balances, a) == Get(v.balances, a) && Get(u.nonces, a) == Get(v.nonces, a)
  }

  /** Two accepted blocks of the same transactions at the same charges leave the same books, in
      whatever order they apply them. */
  lemma {:induction false} BlockOrder(m: Settings, txs: seq<Transaction>, charges: seq<Option<FeeCharge>>,
      txs': seq<Transaction>, charges': seq<Option<FeeCharge>>, s: BalanceState, miner: Option<string>, reward: int)
    requires ApplyBlock(m, txs, s, charges, miner, reward).Ok? && ApplyBlock(m, txs', s, charges', miner, reward).Ok?
    requires multiset(Entries(txs, charges)) == multiset(Entries(txs', charges'))
    ensures var u := ApplyBlock(m, txs, s, charges, miner, reward).state;
            var v := ApplyBlock(m, txs', s, charges', miner, reward).state;
            forall a :: SameAt(u, v, a)
  {
    hide ApplyAll, Tally, Entries, Get, Worth, Uses;
    forall a
      ensures SameAt(ApplyBlock(m, txs, s, charges, miner, reward).state,
              ApplyBlock(m, txs', s, charges', miner, reward).state, a)
    {
      AllTallied(m, txs, charges, s, miner, a);
      AllTallied(m, txs', charges', s, miner, a);
      TallyAnyOrder(BurnedBy, Entries(txs, charges), Entries(txs', charges'));
      TallyAnyOrder(WorthTo(miner, a), Entries(txs, charges), Entries(txs', charges'));
      TallyAnyOrder(UsedBy(a), Entries(txs, charges), Entries(txs', charges'));
      CoinbaseSame(ApplyAll(m, txs, charges, s, miner).state, ApplyAll(m, txs', charges', s, miner).state, miner,
        reward, a);
    }
  }

  lemma CoinbaseSame(u: BalanceState, v: BalanceState, miner: Option<string>, reward: int, a: string)
    requires SameAt(u, v, a)
    ensures SameAt(Coinbase(u, miner, reward), Coinbase(v, miner, reward), a)
  {
  }

  // ------------------------------------------------------------------ debts

  /** The sender covers the entry, counting what comes back to it as recipient or producer. */
  ghost predicate Covers(s: BalanceState, e: Entry, miner: Option<string>) {
    Get(s.balances, e.tx.sender) + Worth(e, miner, e.tx.sender) >= 0
  }

  /** The state before the k-th transaction. */
  ghost function Before(m: Settings, txs: seq<Transaction>, charges: seq<Option<FeeCharge>>, s: BalanceState,
      miner: Option<string>, k: nat): Result
    requires k <= |txs| == |charges|
  {
    ApplyAll(m, txs[..k], charges[..k], s, miner)
  }

  lemma {:induction false} BeforeNext(m: Settings, txs: seq<Transaction>, charges: seq<Option<FeeCharge>>,
      s: BalanceState, miner: Option<string>, k: nat)
    requires k < |txs| == |charges| && ApplyAll(m, txs, charges, s, miner).Ok?
    ensures var r := Before(m, txs, charges, s, miner, k);
            r.Ok? && Before(m, txs, charges, s, miner, k + 1) == ApplyTx(m, txs[k], r.state, charges[k], miner)
    ensures Before(m, txs, charges, s, miner, k + 1).Ok?
  {
    hide ApplyTx;
    assert txs[..k + 1][..k] == txs[..k] && charges[..k + 1][..k] == charges[..k];
    if ApplyAll(m, txs[..k + 1], charges[..k + 1], s, miner).Err? {
      ErrorStays(m, txs, charges, s, miner, k + 1);
    }
  }

  ghost predicate SolventBefore(m: Settings, txs: seq<Transaction>, charges: seq<Option<FeeCharge>>,
      s: BalanceState, miner: Option<string>, k: nat)
    requires k <= |txs| == |charges|
  {
    var r := Before(m, txs, charges, s, miner, k);
    r.Ok? && Solvent(r.state)
  }

  ghost predicate CoveredThen(m: Settings, txs: seq<Transaction>, charges: seq<Option<FeeCharge>>,
      s: BalanceState, miner: Option<string>, k: nat)
    requires k < |txs| == |charges|
  {
    var r := Before(m, txs, charges, s, miner, k);
    r.Ok? && Covers(r.state, Entry(txs[k], charges[k]), miner)
  }

  /** Nobody is in debt at any moment of a block exactly when each transaction, in its turn, is covered:
      at any charges, and also where overdrafts are allowed. */
  lemma {:induction false} BlockSolventIff(m: Settings, txs: seq<Transaction>, charges: seq<Option<FeeCharge>>,
      s: BalanceState, miner: Option<string>)
    requires |txs| == |charges| && ApplyAll(m, txs, charges, s, miner).Ok? && Solvent(s)
    ensures (forall k :: 0 <= k <= |txs| ==> SolventBefore(m, txs, charges, s, miner, k)) <==>
            (forall k :: 0 <= k < |txs| ==> CoveredThen(m, txs, charges, s, miner, k))
  {
    hide Solvent, ApplyAll, ApplyTx, Covers;
    if forall k :: 0 <= k <= |txs| ==> SolventBefore(m, txs, charges, s, miner, k) {
      forall k | 0 <= k < |txs| ensures CoveredThen(m, txs, charges, s, miner, k) {
        assert SolventBefore(m, txs, charges, s, miner, k) && SolventBefore(m, txs, charges, s, miner, k + 1);
        NextSolventIff(m, txs, charges, s, miner, k);
      }
    }
    if forall k :: 0 <= k < |txs| ==> CoveredThen(m, txs, charges, s, miner, k) {
      forall k | 0 <= k <= |txs| ensures SolventBefore(m, txs, charges, s, miner, k) {
        CoveredSoFar(m, txs, charges, s, miner, k);
      }
    }
  }

  lemma {:induction false} NextSolventIff(m: Settings, txs: seq<Transaction>, charges: seq<Option<FeeCharge>>,
      s: BalanceState, miner: Option<string>, k: nat)
    requires k < |txs| == |charges| && ApplyAll(m, txs, charges, s, miner).Ok?
    requires SolventBefore(m, txs, charges, s, miner, k)
    ensures SolventBefore(m, txs, charges, s, miner, k + 1) <==> CoveredThen(m, txs, charges, s, miner, k)
  {
    hide Solvent, ApplyAll, ApplyTx, Covers;
    BeforeNext(m, txs, charges, s, miner, k);
    EntrySolventIff(m, Entry(txs[k], charges[k]), Before(m, txs, charges, s, miner, k).state, miner);
  }

  lemma {:induction false} CoveredSoFar(m: Settings, txs: seq<Transaction>, charges: seq<Option<FeeCharge>>,
      s: BalanceState, miner: Option<string>, k: nat)
    requires k <= |txs| == |charges| && ApplyAll(m, txs, charges, s, miner).Ok? && Solvent(s)
    requires forall j :: 0 <= j < |txs| ==> CoveredThen(m, txs, charges, s, miner, j)
    ensures SolventBefore(m, txs, charges, s, miner, k)
  {
    hide Solvent, ApplyTx, Covers;
    if k > 0 {
      CoveredSoFar(m, txs, charges, s, miner, k - 1);
      NextSolventIff(m, txs, charges, s, miner, k - 1);
    }
  }

  lemma {:induction false} EntrySolventIff(m: Settings, e: Entry, s: BalanceState, miner: Option<string>)
    requires Solvent(s) && ApplyTx(m, e.tx, s, e.charge, miner).Ok?
    ensures Solvent(ApplyTx(m, e.tx, s, e.charge, miner).state) <==> Covers(s, e, miner)
  {
    hide Solvent, Next, Validate;
    TxTaken(m, e, s, miner);
    var f: FeeCharge := if e.charge.Some? then e.charge.value else FullTip(e.tx);
    assert ApplyTx(m, e.tx, s, e.charge, miner) == ApplyTx(m, e.tx, s, Some(f), miner);
    hide ApplyTx;
    TxSolventIff(m, e.tx, s, f, miner);
  }
}
