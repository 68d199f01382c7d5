/** The block lattice: one chain per account, transfers in two halves, and votes by weight. */
module Lattice {
  import opened Common

  datatype Kind = Open | Send | Receive

  /** A block stands for its own id: the hash covers all of its content. */
  datatype Block = Block(account: string, kind: Kind, previous: Option<Block>, balance: int, link: Link, amount: int)

  datatype Link = Text(text: string) | Source(send: Block)

  datatype State = State(
    chains: map<string, seq<Block>>, blocks: set<Block>, balances: map<string, int>, pending: map<Block, bool>,
    votes: map<Block, map<string, int>>, confirmed: set<Block>)

  const EMPTY := State(map[], {}, map[], map[], map[], {})

  datatype Op =
    | OpOpen(account: string, amount: int, source: string)
    | OpSend(sender: string, recipient: string, amount: int)
    | OpReceive(recipient: string, send: Block)

  datatype LatticeError = AlreadyOpened | NonPositive | Insufficient | UnknownSend | AlreadyReceived | NoWeight

  datatype Built = Made(block: Block) | Refused(error: LatticeError)

  // ------------------------------------------------------------------ building and applying blocks

  function Head(s: State, a: string): Option<Block> {
    if a in s.chains then Last(s.chains[a]) else None
  }

  function Build(s: State, op: Op): Built {
    match op
    case OpOpen(account, amount, source) =>
      if account in s.chains then Refused(AlreadyOpened)
      else Made(Block(account, Open, None, amount, Text(source), amount))
    case OpSend(sender, recipient, amount) =>
      if amount <= 0 then Refused(NonPositive)
      else if Get(s.balances, sender) < amount then Refused(Insufficient)
      else Made(Block(sender, Send, Head(s, sender), Get(s.balances, sender) - amount, Text(recipient), amount))
    case OpReceive(recipient, send) =>
      if send !in s.blocks || !send.kind.Send? then Refused(UnknownSend)
      else if send in s.pending && s.pending[send] then Refused(AlreadyReceived)
      else Made(Block(recipient, Receive, Head(s, recipient), Get(s.balances, recipient) + send.amount, Source(send),
        send.amount))
  }

  function Ballot(votes: map<Block, map<string, int>>, b: Block): map<string, int> {
    if b in votes then votes[b] else map[]
  }

  function Apply(s: State, b: Block): State {
    if b in s.blocks then s
    else
      var votes := s.votes[b := Ballot(s.votes, b)];
      if b.previous != Head(s, b.account) then s.(blocks := s.blocks + {b}, votes := votes)
      else
        var chain := (if b.account in s.chains then s.chains[b.account] else []) + [b];
        s.(blocks := s.blocks + {b}, votes := votes, chains := s.chains[b.account := chain],
           balances := s.balances[b.account := b.balance],
           pending := if b.kind.Send? then s.pending[b := false]
                      else if b.kind.Receive? && b.link.Source? then s.pending[b.link.send := true]
                      else s.pending)
  }

  /** propose; a refused operation changes nothing. */
  function Propose(s: State, op: Op): State {
    var built := Build(s, op);
    if built.Made? then Apply(s, built.block) else s
  }

  // ------------------------------------------------------------------ conservation

  function Unclaimed(pending: map<Block, bool>): map<Block, int> {
    map h | h in pending && !pending[h] :: h.amount
  }

  function Opened(blocks: set<Block>): map<Block, int> {
    map b | b in blocks && b.kind.Open? :: b.amount
  }

  /** What accounts hold and what is under way add up to what was opened. */
  ghost predicate Conserved(s: State) {
    Sum(s.balances) + Sum(Unclaimed(s.pending)) == Sum(Opened(s.blocks))
  }

  /** Each block names the one before it. */
  ghost predicate Follows(c: seq<Block>) {
    c == [] || (Follows(c[..|c| - 1]) && c[|c| - 1].previous == Last(c[..|c| - 1]))
  }

  function Last(c: seq<Block>): Option<Block> { if c == [] then None else Some(c[|c| - 1]) }

  /** An account's chain is linked, and its last block states the account's balance. */
  ghost predicate ChainOf(a: string, c: seq<Block>, blocks: set<Block>, balance: int) {
    && c != [] && Follows(c) && c[|c| - 1].balance == balance
    && (forall b :: b in c ==> b.account == a && b in blocks)
  }

  ghost predicate ChainSound(s: State, a: string) {
    a in s.chains && a in s.balances && ChainOf(a, s.chains[a], s.blocks, s.balances[a])
  }

  /** Every block sits in its account's chain. */
  ghost predicate Chained(s: State) {
    && s.balances.Keys == s.chains.Keys
    && (forall a :: a in s.chains ==> ChainSound(s, a))
    && (forall b :: b in s.blocks ==> b.account in s.chains && b in s.chains[b.account])
  }

  /** The sends are exactly the pending entries; a claimed one has exactly one receive. */
  ghost predicate Claims(s: State) {
    && (forall h :: h in s.pending <==> h in s.blocks && h.kind.Send?)
    && (forall r :: r in s.blocks && r.kind.Receive? ==>
         r.link.Source? && r.link.send in s.pending && s.pending[r.link.send])
    && (forall r, t :: r in s.blocks && t in s.blocks && r.kind.Receive? && t.kind.Receive? && r.link == t.link ==>
         r == t)
  }

  ghost predicate Sound(s: State) { Chained(s) && Claims(s) && Conserved(s) }

  ghost function Height(b: Block): nat {
    if b.previous.None? then 1 else Height(b.previous.value) + 1
  }

  lemma {:induction false} LastHeight(c: seq<Block>)
    requires Follows(c) && c != []
    ensures Height(c[|c| - 1]) == |c|
  {
    if |c| > 1 {
      LastHeight(c[..|c| - 1]);
    }
  }

  lemma {:induction false} FollowsAt(c: seq<Block>, i: nat)
    requires Follows(c) && i < |c|
    ensures Follows(c[..i + 1])
  {
    if i + 1 == |c| {
      assert c[..i + 1] == c;
    } else {
      FollowsAt(c[..|c| - 1], i);
      assert c[..|c| - 1][..i + 1] == c[..i + 1];
    }
  }

  /** No block of a chain extends that chain: its height is at most the length. */
  lemma {:induction false} NotInChain(c: seq<Block>, b: Block)
    requires Follows(c) && b.previous == Last(c)
    ensures b !in c
  {
    if c != [] {
      LastHeight(c);
    }
    forall i | 0 <= i < |c| ensures c[i] != b {
      FollowsAt(c, i);
      LastHeight(c[..i + 1]);
    }
  }

  /** A block that extends its account's chain is not known yet. */
  lemma {:induction false} ExtensionIsNew(s: State, b: Block)
    requires Chained(s) && b.previous == Head(s, b.account)
    ensures b !in s.blocks
  {
    if b.account in s.chains {
      NotInChain(s.chains[b.account], b);
    }
  }

  /** What Build makes of an operation: a block on top of its account's chain that takes from the
      account what it sends, or gives it what it receives from an unclaimed send. */
  ghost predicate Fits(s: State, b: Block) {
    && b.previous == Head(s, b.account)
    && match b.kind
       case Open => b.amount == b.balance && Get(s.balances, b.account) == 0
       case Send => b.balance == Get(s.balances, b.account) - b.amount
       case Receive =>
         && b.link.Source? && b.link.send in s.pending && !s.pending[b.link.send]
         && b.amount == b.link.send.amount && b.balance == Get(s.balances, b.account) + b.amount
  }

  lemma {:induction false} BuiltFits(s: State, op: Op)
    requires Chained(s) && Claims(s) && Build(s, op).Made?
    ensures Fits(s, Build(s, op).block)
  {
    hide ChainSound;
  }

  /** Which operations are taken: an account is opened once, a send covered by the balance, and a
      receive claims a send that nothing has claimed. */
  lemma {:induction false} BuiltExactly(s: State, op: Op)
    requires Chained(s) && Claims(s)
    ensures Build(s, op).Made? <==>
            match op
            case OpOpen(account, _, _) => forall b :: b in s.blocks ==> b.account != account
            case OpSend(sender, _, amount) => 0 < amount <= Get(s.balances, sender)
            case OpReceive(_, send) => send in Unclaimed(s.pending)
  {
    if op.OpOpen? && op.account in s.chains {
      assert ChainSound(s, op.account);
      var c := s.chains[op.account];
      assert c[0] in c;
    }
    hide ChainSound;
  }

  /** A transfer is a send and the receive that claims it: together they move the amount from one
      account to another, or to the same one, and no second receive claims it. */
  lemma {:induction false} TransferCompletes(s: State, sender: string, recipient: string, amount: int, other: string)
    requires Sound(s) && 0 < amount <= Get(s.balances, sender)
    ensures Build(s, OpSend(sender, recipient, amount)).Made?
    ensures var send := Build(s, OpSend(sender, recipient, amount)).block;
            var u := Propose(s, OpSend(sender, recipient, amount));
            var v := Propose(u, OpReceive(recipient, send));
            && u.balances == s.balances[sender := Get(s.balances, sender) - amount]
            && v.balances == u.balances[recipient := Get(u.balances, recipient) + amount]
            && Unclaimed(u.pending) == Unclaimed(s.pending)[send := amount]
                 && Unclaimed(v.pending) == Unclaimed(s.pending)
            && Build(v, OpReceive(other, send)) == Refused(AlreadyReceived)
  {
    hide Sound, Build, Apply;
    var op := OpSend(sender, recipient, amount);
    SendMoves(s, op);
    ProposeSound(s, op);
    var send := Build(s, op).block;
    ReceiveMoves(Propose(s, op), OpReceive(recipient, send), other);
    assert Unclaimed(s.pending)[send := amount] - {send} == Unclaimed(s.pending);
  }

  lemma {:induction false} SendMoves(s: State, op: Op)
    requires Sound(s) && op.OpSend? && 0 < op.amount <= Get(s.balances, op.sender)
    ensures Build(s, op).Made?
    ensures var send, u := Build(s, op).block, Propose(s, op);
            && send.amount == op.amount && send in Unclaimed(u.pending) && send !in Unclaimed(s.pending)
            && u.balances == s.balances[op.sender := Get(s.balances, op.sender) - op.amount]
            && Unclaimed(u.pending) == Unclaimed(s.pending)[send := op.amount]
  {
    hide Chained, Conserved, Head;
    var send := Build(s, op).block;
    BuiltFits(s, op);
    ExtensionIsNew(s, send);
  }

  lemma {:induction false} ReceiveMoves(s: State, op: Op, other: string)
    requires Sound(s) && op.OpReceive? && op.send in Unclaimed(s.pending)
    ensures var send, u := op.send, Propose(s, op);
            && u.balances == s.balances[op.recipient := Get(s.balances, op.recipient) + send.amount]
            && Unclaimed(u.pending) == Unclaimed(s.pending) - {send}
            && Build(u, OpReceive(other, send)) == Refused(AlreadyReceived)
  {
    hide Chained, Conserved, Head;
    var b := Build(s, op).block;
    BuiltFits(s, op);
    ExtensionIsNew(s, b);
  }

  lemma {:induction false} ApplyChained(s: State, b: Block)
    requires Chained(s) && b.previous == Head(s, b.account) && b !in s.blocks
    ensures Chained(Apply(s, b))
  {
    hide Follows, ChainOf;
    var u, a := Apply(s, b), b.account;
    var c := if a in s.chains then s.chains[a] else [];
    assert a in s.chains ==> ChainSound(s, a);
    ChainGrows(c, a, s.blocks, if a in s.balances then s.balances[a] else 0, b);
    forall x | x in u.chains ensures ChainSound(u, x) {
      if x != a {
        assert ChainSound(s, x);
        ChainStays(x, s.chains[x], s.blocks, u.blocks, s.balances[x]);
      }
    }
    hide ChainSound;
    forall x | x in u.blocks ensures x.account in u.chains && x in u.chains[x.account] {
      assert (c + [b])[|c|] == b;
      assert x.account == a ==> x in c + [b];
    }
  }

  lemma {:induction false} ChainGrows(c: seq<Block>, a: string, blocks: set<Block>, balance: int, b: Block)
    requires c != [] ==> ChainOf(a, c, blocks, balance)
    requires b.account == a && b.previous == Last(c)
    ensures ChainOf(a, c + [b], blocks + {b}, b.balance)
  {
    assert (c + [b])[..|c|] == c;
    assert Follows(c + [b]);
    hide Follows;
    assert forall x :: x in c + [b] <==> x in c || x == b;
  }

  lemma {:induction false} ChainStays(a: string, c: seq<Block>, blocks: set<Block>, more: set<Block>, balance: int)
    requires ChainOf(a, c, blocks, balance) && blocks <= more
    ensures ChainOf(a, c, more, balance)
  {
    hide Follows;
  }

  /** A block that moves an account by `delta` and the amounts under way and opened accordingly. */
  lemma {:induction false} MovesValue(s: State, u: State, a: string, delta: int)
    requires Conserved(s) && u.balances == s.balances[a := Get(s.balances, a) + delta]
    requires delta + Sum(Unclaimed(u.pending)) - Sum(Unclaimed(s.pending)) ==
             Sum(Opened(u.blocks)) - Sum(Opened(s.blocks))
    ensures Conserved(u)
  {
    hide Sum, Unclaimed, Opened, Get;
    SumUpdate(s.balances, a, Get(s.balances, a) + delta);
  }

  lemma {:induction false} OpenConserves(s: State, b: Block)
    requires Conserved(s) && b !in s.blocks && b.kind.Open? && b.amount == b.balance && b.previous == Head(s, b.account)
    requires Get(s.balances, b.account) == 0
    ensures Conserved(Apply(s, b))
  {
    hide Sum, Conserved;
    var u := Apply(s, b);
    SumUpdate(Opened(s.blocks), b, b.amount);
    assert Opened(u.blocks) == Opened(s.blocks)[b := b.amount];
    hide Opened, Unclaimed;
    MovesValue(s, u, b.account, b.amount);
  }

  lemma {:induction false} SendConserves(s: State, b: Block)
    requires Conserved(s) && b !in s.blocks && b !in s.pending && b.kind.Send?
             && b.balance == Get(s.balances, b.account) - b.amount
    requires b.previous == Head(s, b.account)
    ensures Conserved(Apply(s, b))
  {
    hide Sum, Conserved, Get;
    var u := Apply(s, b);
    SumUpdate(Unclaimed(s.pending), b, b.amount);
    NotUnclaimed(s.pending, b);
    assert Unclaimed(u.pending) == Unclaimed(s.pending)[b := b.amount];
    assert Opened(u.blocks) == Opened(s.blocks);
    hide Opened, Unclaimed;
    MovesValue(s, u, b.account, -b.amount);
  }

  lemma NotUnclaimed(pending: map<Block, bool>, b: Block)
    requires b !in pending
    ensures Get(Unclaimed(pending), b) == 0
  {
  }

  lemma {:induction false} ReceiveConserves(s: State, b: Block)
    requires Conserved(s) && b !in s.blocks && b.kind.Receive? && b.link.Source? && b.link.send in s.pending
             && !s.pending[b.link.send]
    requires b.amount == b.link.send.amount && b.balance == Get(s.balances, b.account) + b.amount
    requires b.previous == Head(s, b.account)
    ensures Conserved(Apply(s, b))
  {
    hide Sum, Conserved, Get;
    var u, h := Apply(s, b), b.link.send;
    SumRemove(Unclaimed(s.pending), h);
    assert Unclaimed(u.pending) == Unclaimed(s.pending) - {h};
    assert Opened(u.blocks) == Opened(s.blocks);
    hide Opened, Unclaimed;
    MovesValue(s, u, b.account, b.amount);
  }

  lemma {:induction false} ApplyClaims(s: State, b: Block)
    requires Claims(s) && b !in s.blocks && b.previous == Head(s, b.account)
    requires b.kind.Receive? ==> b.link.Source? && b.link.send in s.pending && !s.pending[b.link.send]
    ensures Claims(Apply(s, b))
  {
  }

  /** Every operation keeps the chains linked, the claims single, and the value constant. */
  lemma {:induction false} ProposeSound(s: State, op: Op)
    requires Sound(s)
    ensures Sound(Propose(s, op))
  {
    hide Build, Chained, Conserved, Apply;
    if Build(s, op).Made? {
      var b := Build(s, op).block;
      BuiltFits(s, op);
      ExtensionIsNew(s, b);
      ApplyChained(s, b);
      ApplyClaims(s, b);
      match b.kind
      case Open => OpenConserves(s, b);
      case Send => SendConserves(s, b);
      case Receive => ReceiveConserves(s, b);
    }
  }

  // ------------------------------------------------------------------ votes

  function Quorum(total: int): int { total / 2 + 1 }

  /** The ballot after a vote; a representative without weight is not counted at all. */
  ghost function Vote(weights: map<string, int>, s: State, b: Block, rep: string): (State, Option<LatticeError>, bool) {
    if rep !in weights then (s, None, false)
    else
      var ballot := Ballot(s.votes, b)[rep := weights[rep]];
      var u := s.(votes := s.votes[b := ballot]);
      if b in s.confirmed then (u, None, false)
      else if Sum(weights) <= 0 then (u, Some(NoWeight), false)
      else if Sum(ballot) >= Quorum(Sum(weights)) then (u.(confirmed := s.confirmed + {b}), None, true)
      else (u, None, false)
  }

  // ------------------------------------------------------------------ runs

  datatype Event = Proposed(op: Op) | Voted(b: Block, rep: string)

  ghost function Step(weights: map<string, int>, s: State, e: Event): State {
    match e
    case Proposed(op) => Propose(s, op)
    case Voted(b, rep) => Vote(weights, s, b, rep).0
  }

  ghost function Run(weights: map<string, int>, events: seq<Event>): State {
    if events == [] then EMPTY else Step(weights, Run(weights, events[..|events| - 1]), events[|events| - 1])
  }

  /** Votes touch no chain, balance or claim. */
  lemma {:induction false} VoteKeepsSound(weights: map<string, int>, s: State, b: Block, rep: string)
    requires Sound(s)
    ensures Sound(Vote(weights, s, b, rep).0)
  {
    hide Follows, ChainOf, Sum;
    var u := Vote(weights, s, b, rep).0;
    assert u == s.(votes := u.votes, confirmed := u.confirmed);
    hide Vote;
    forall a | a in u.chains ensures ChainSound(u, a) {
      assert ChainSound(s, a);
    }
  }

  /** Over every run of operations and votes: balances and unclaimed sends add up to what was opened,
      and no two receives claim the same send. */
  lemma {:induction false} RunSound(weights: map<string, int>, events: seq<Event>)
    ensures Sound(Run(weights, events))
  {
    if events == [] {
      assert Unclaimed(EMPTY.pending) == map[] && Opened(EMPTY.blocks) == map[];
    } else {
      hide Sound;
      var s := Run(weights, events[..|events| - 1]);
      RunSound(weights, events[..|events| - 1]);
      match events[|events| - 1]
      case Proposed(op) => ProposeSound(s, op);
      case Voted(b, rep) => VoteKeepsSound(weights, s, b, rep);
    }
  }

  ghost predicate OpensNonNegative(events: seq<Event>) {
    forall e :: e in events && e.Proposed? && e.op.OpOpen? ==> e.op.amount >= 0
  }

  ghost predicate NonNegative(s: State) {
    (forall a :: a in s.balances ==> s.balances[a] >= 0) && (forall b :: b in s.blocks && b.kind.Send? ==> b.amount > 0)
  }

  /** With non-negative opens no balance is ever negative, and nothing under way is worthless. */
  lemma {:induction false} RunNonNegative(weights: map<string, int>, events: seq<Event>)
    requires OpensNonNegative(events)
    ensures NonNegative(Run(weights, events))
  {
    if events != [] {
      var e := events[|events| - 1];
      assert e in events;
      var s := Run(weights, events[..|events| - 1]);
      RunNonNegative(weights, events[..|events| - 1]);
      match e
      case Proposed(op) => ProposeNonNegative(s, op);
      case Voted(b, rep) => VoteNonNegative(weights, s, b, rep);
    }
  }

  lemma {:induction false} ProposeNonNegative(s: State, op: Op)
    requires NonNegative(s) && (op.OpOpen? ==> op.amount >= 0)
    ensures NonNegative(Propose(s, op))
  {
  }

  lemma {:induction false} VoteNonNegative(weights: map<string, int>, s: State, b: Block, rep: string)
    requires NonNegative(s)
    ensures NonNegative(Vote(weights, s, b, rep).0)
  {
    hide Sum;
  }
}
