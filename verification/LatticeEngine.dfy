/** The lattice engine: blocks are built without touching the state, then applied in place. */
module LatticeEngine {
  import opened Common
  import opened Lattice

  class NanoLattice {
    const weights: map<string, int>
    var chains: map<string, seq<Block>>
    var blocks: set<Block>
    var balances: map<string, int>
    var pending: map<Block, bool>
    var votes: map<Block, map<string, int>>
    var confirmed: set<Block>

    ghost function Snapshot(): State reads this { State(chains, blocks, balances, pending, votes, confirmed) }

    ghost predicate Valid() reads this { Sound(Snapshot()) }

    constructor (weights: map<string, int>)
      ensures Valid() && Snapshot() == EMPTY && this.weights == weights
    {
      this.weights := weights;
      chains, blocks, balances, pending, votes, confirmed := map[], {}, map[], map[], map[], {};
      new;
      RunSound(weights, []);
    }

    /** head */
    function Top(a: string): (r: Option<Block>)
      reads this
      ensures r == Head(Snapshot(), a)
    {
      if a in chains then Last(chains[a]) else None
    }

    method BlockFor(op: Op) returns (built: Built)
      ensures built == Build(Snapshot(), op)
    {
      match op
      case OpOpen(account, amount, source) =>
        if account in chains { return Refused(AlreadyOpened); }
        return Made(Block(account, Open, None, amount, Text(source), amount));
      case OpSend(sender, recipient, amount) =>
        if amount <= 0 { return Refused(NonPositive); }
        var balance := Get(balances, sender);
        if balance < amount { return Refused(Insufficient); }
        return Made(Block(sender, Send, Top(sender), balance - amount, Text(recipient), amount));
      case OpReceive(recipient, send) =>
        if send !in blocks || !send.kind.Send? { return Refused(UnknownSend); }
        if send in pending && pending[send] { return Refused(AlreadyReceived); }
        return Made(Block(recipient, Receive, Top(recipient), Get(balances, recipient) + send.amount, Source(send),
          send.amount));
    }

    /** _apply: a block off the end of its account's chain is only remembered. */
    method Extend(b: Block)
      modifies this`chains, this`blocks, this`balances, this`pending, this`votes
      ensures Snapshot() == Apply(old(Snapshot()), b)
    {
      if b in blocks { return; }
      var onTop := b.previous == Top(b.account);
      blocks := blocks + {b};
      votes := votes[b := Ballot(votes, b)];
      if !onTop { return; }
      var chain := if b.account in chains then chains[b.account] else [];
      chains := chains[b.account := chain + [b]];
      balances := balances[b.account := b.balance];
      if b.kind.Receive? && b.link.Source? {
        pending := pending[b.link.send := true];
      } else if b.kind.Send? {
        pending := pending[b := false];
      }
    }

    method ProposeOp(op: Op) returns (built: Built)
      requires Valid()
      modifies this`chains, this`blocks, this`balances, this`pending, this`votes
      ensures Valid() && Snapshot() == Propose(old(Snapshot()), op) && built == Build(old(Snapshot()), op)
    {
      ProposeSound(Snapshot(), op);
      hide Sound, Build, Apply;
      built := BlockFor(op);
      if built.Made? { Extend(built.block); }
    }

    /** record_vote; the sum of a ballot is taken over its entries. */
    method RecordVote(b: Block, rep: string) returns (error: Option<LatticeError>, now: bool)
      requires Valid()
      modifies this`votes, this`confirmed
      ensures Valid()
      ensures (Snapshot(), error, now) == Vote(weights, old(Snapshot()), b, rep)
    {
      VoteKeepsSound(weights, Snapshot(), b, rep);
      hide Sound, Sum;
      if rep !in weights { return None, false; }
      var ballot := Ballot(votes, b)[rep := weights[rep]];
      votes := votes[b := ballot];
      if b in confirmed { return None, false; }
      var cast := Total(ballot);
      var total := Total(weights);
      if total <= 0 { return Some(NoWeight), false; }
      if cast >= Quorum(total) {
        confirmed := confirmed + {b};
        return None, true;
      }
      return None, false;
    }
  }

  /** The sum of the entries, taken one by one. */
  method Total(m: map<string, int>) returns (total: int)
    ensures total == Sum(m)
  {
    total := 0;
    var left := m.Keys;
    ghost var seen: map<string, int> := map[];
    while left != {}
      invariant left <= m.Keys && seen == m - left && total == Sum(seen)
      decreases |left|
    {
      var k :| k in left;
      SumUpdate(seen, k, m[k]);
      left := left - {k};
      seen := seen[k := m[k]];
      total := total + m[k];
    }
    assert seen == m;
  }
}
