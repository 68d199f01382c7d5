/** The lattice's rules in plain terms: the block that each operation adds, and when a block is confirmed. */
module LatticeRules {
  import opened Common
  import opened Lattice
  import opened LatticeVotes

  // ------------------------------------------------------------------ operations

  /** b stands at the end of its account's chain, whose balance is now x; every other account, and every
      vote, is as it was. */
  ghost predicate Extended(s: State, u: State, b: Block, x: int) {
    && u.chains == s.chains[b.account := (if b.account in s.chains then s.chains[b.account] else []) + [b]]
    && u.balances == s.balances[b.account := x] && u.blocks == s.blocks + {b}
    && u.confirmed == s.confirmed && (forall c :: Ballot(u.votes, c) == Ballot(s.votes, c))
  }

  ghost predicate OnTop(s: State, b: Block) {
    b.previous == if b.account !in s.chains || s.chains[b.account] == [] then None
                  else Some(s.chains[b.account][|s.chains[b.account]| - 1])
  }

  /** An account is opened with its first amount, from the source it names. */
  lemma {:induction false} OpenAdds(s: State, account: string, amount: int, source: string)
    requires Sound(s) && account !in s.chains
    ensures var u, b := Propose(s, OpOpen(account, amount, source)),
                        Block(account, Open, None, amount, Text(source), amount);
            Extended(s, u, b, amount) && u.pending == s.pending
  {
    hide ChainSound, Conserved;
    var op := OpOpen(account, amount, source);
    BuiltFits(s, op);
    ExtensionIsNew(s, Build(s, op).block);
  }

  /** A send takes the amount from its sender, names the recipient, and waits to be claimed. */
  lemma {:induction false} SendAdds(s: State, sender: string, recipient: string, amount: int)
    requires Sound(s) && 0 < amount <= Get(s.balances, sender)
    ensures var u := Propose(s, OpSend(sender, recipient, amount));
            exists b :: OnTop(s, b) && b.account == sender && b.kind == Send && b.link == Text(recipient)
              && b.amount == amount && b.balance == Get(s.balances, sender) - amount
              && Extended(s, u, b, b.balance) && b !in s.pending && u.pending == s.pending[b := false]
  {
    hide ChainSound, Conserved;
    var op := OpSend(sender, recipient, amount);
    BuiltFits(s, op);
    var b := Build(s, op).block;
    ExtensionIsNew(s, b);
    assert OnTop(s, b);
    assert Extended(s, Propose(s, op), b, b.balance);
  }

  /** A receive gives its account what the send it names took, and claims that send. */
  lemma {:induction false} ReceiveAdds(s: State, recipient: string, send: Block)
    requires Sound(s) && send in s.pending && !s.pending[send]
    ensures var u := Propose(s, OpReceive(recipient, send));
            exists b :: OnTop(s, b) && b.account == recipient && b.kind == Receive && b.link == Source(send)
              && b.amount == send.amount && b.balance == Get(s.balances, recipient) + send.amount
              && Extended(s, u, b, b.balance) && u.pending == s.pending[send := true]
  {
    hide ChainSound, Conserved;
    var op := OpReceive(recipient, send);
    BuiltFits(s, op);
    var b := Build(s, op).block;
    ExtensionIsNew(s, b);
    assert OnTop(s, b);
    assert Extended(s, Propose(s, op), b, b.balance);
  }

  /** A block beside the end of its account's chain is kept for the vote and moves nothing. */
  lemma {:induction false} ForkWaits(s: State, b: Block)
    requires b !in s.blocks && !OnTop(s, b)
    ensures var u := Apply(s, b);
            && u.blocks == s.blocks + {b} && u.chains == s.chains && u.balances == s.balances
            && u.pending == s.pending && u.confirmed == s.confirmed
            && forall c :: Ballot(u.votes, c) == Ballot(s.votes, c)
  {
  }

  // ------------------------------------------------------------------ votes

  /** A vote counts with its configured weight; the block is confirmed by it if and only if the ballot then
      holds more than half of all weight, and without any weight at all that is an error. */
  lemma {:induction false} VoteExactly(weights: map<string, int>, s: State, b: Block, rep: string)
    ensures var (u, error, now) := Vote(weights, s, b, rep);
            && (rep !in weights ==> u == s && error.None? && !now)
            && (rep in weights ==>
                 var ballot, all := Ballot(s.votes, b)[rep := weights[rep]], Sum(weights);
                 && u.votes == s.votes[b := ballot]
                 && (error.None? <==> b in s.confirmed || all > 0)
                 && (now <==> b !in s.confirmed && all > 0 && 2 * Sum(ballot) > all)
                 && u.confirmed == (if now then s.confirmed + {b} else s.confirmed))
            && (u.chains, u.blocks, u.balances, u.pending) == (s.chains, s.blocks, s.balances, s.pending)
  {
    hide Sum;
  }

  /** The representatives that have voted for b. */
  ghost function Voters(weights: map<string, int>, events: seq<Event>, b: Block): set<string> {
    set rep | rep in weights && Voted(b, rep) in events
  }

  /** A ballot holds the weights of those that have voted, each once. */
  lemma {:induction false} BallotIs(weights: map<string, int>, events: seq<Event>, b: Block)
    ensures Ballot(Run(weights, events).votes, b) == Part(weights, Voters(weights, events, b))
  {
    if events != [] {
      var front, e := events[..|events| - 1], events[|events| - 1];
      BallotIs(weights, front, b);
      assert events == front + [e];
      BallotNext(weights, Run(weights, front), e, b);
      VotersNext(weights, front, e, b);
    }
  }

  lemma {:induction false} VotersNext(weights: map<string, int>, front: seq<Event>, e: Event, b: Block)
    ensures Voters(weights, front + [e], b) ==
            Voters(weights, front, b) + if e.Voted? && e.b == b && e.rep in weights then {e.rep} else {}
  {
  }

  lemma {:induction false} BallotNext(weights: map<string, int>, s: State, e: Event, b: Block)
    ensures var u := Step(weights, s, e);
            && Ballot(u.votes, b) == (if e.Voted? && e.b == b && e.rep in weights
                                      then Ballot(s.votes, b)[e.rep := weights[e.rep]] else Ballot(s.votes, b))
            && (b in u.confirmed <==>
                 || b in s.confirmed
                 || (&& e.Voted? && e.b == b && e.rep in weights && Sum(weights) > 0
                     && 2 * Sum(Ballot(u.votes, b)) > Sum(weights)))
  {
    hide Build, Sum;
    match e
    case Proposed(op) =>
      if Build(s, op).Made? {
        ApplyVotes(s, Build(s, op).block);
        hide Apply;
      }
    case Voted(c, rep) => VoteExactly(weights, s, c, rep);
  }

  /** Those that have voted for b hold more than half of all weight. */
  ghost predicate Majority(weights: map<string, int>, events: seq<Event>, b: Block) {
    Sum(weights) > 0 && 2 * Sum(Part(weights, Voters(weights, events, b))) > Sum(weights)
  }

  ghost predicate MajorityAt(weights: map<string, int>, events: seq<Event>, b: Block, n: int) {
    0 <= n <= |events| && Majority(weights, events[..n], b)
  }

  /** A block is confirmed if and only if at some moment of the run its voters held more than half of all
      weight, whatever the sign of the weights. */
  lemma {:induction false} ConfirmedIff(weights: map<string, int>, events: seq<Event>, b: Block)
    ensures b in Run(weights, events).confirmed <==> exists n :: MajorityAt(weights, events, b, n)
  {
    hide Run, Majority;
    if events == [] {
      NobodyVoted(weights, events, b);
    } else {
      var m := |events| - 1;
      var front, e := events[..m], events[m];
      assert events == front + [e] && events[..|events|] == events;
      ConfirmedIff(weights, front, b);
      forall n | 0 <= n <= m ensures MajorityAt(weights, front, b, n) <==> MajorityAt(weights, events, b, n) {
        assert front[..n] == events[..n];
      }
      MajorityAtEnd(weights, front, b);
      MajorityAtEnd(weights, events, b);
      ConfirmedNext(weights, front, e, b);
    }
  }

  lemma {:induction false} MajorityAtEnd(weights: map<string, int>, events: seq<Event>, b: Block)
    ensures MajorityAt(weights, events, b, |events|) <==> Majority(weights, events, b)
  {
    assert events[..|events|] == events;
  }

  lemma {:induction false} ConfirmedNext(weights: map<string, int>, front: seq<Event>, e: Event, b: Block)
    ensures var s, u := Run(weights, front), Run(weights, front + [e]);
            && (b in s.confirmed ==> b in u.confirmed)
            && (Majority(weights, front + [e], b) ==> b in u.confirmed || Majority(weights, front, b))
            && (b in u.confirmed ==> b in s.confirmed || Majority(weights, front + [e], b))
  {
    RunNext(weights, front, e);
    BallotIs(weights, front, b);
    BallotIs(weights, front + [e], b);
    VotersNext(weights, front, e, b);
    hide Run, Part, Voters, Sum, Step, Ballot;
    BallotNext(weights, Run(weights, front), e, b);
  }

  lemma {:induction false} NobodyVoted(weights: map<string, int>, events: seq<Event>, b: Block)
    requires events == []
    ensures b !in Run(weights, events).confirmed && forall n :: !MajorityAt(weights, events, b, n)
  {
    assert forall n :: 0 <= n <= |events| ==> events[..n] == events;
    assert Part(weights, Voters(weights, events, b)) == map[];
  }

  /** With weights that are never negative the moment does not matter. */
  lemma {:induction false} ConfirmedNow(weights: map<string, int>, events: seq<Event>, b: Block)
    requires forall r :: r in weights ==> weights[r] >= 0
    ensures b in Run(weights, events).confirmed <==> Majority(weights, events, b)
  {
    hide Run;
    ConfirmedIff(weights, events, b);
    MajorityAtEnd(weights, events, b);
    if n :| MajorityAt(weights, events, b, n) {
      PartAtMost(Part(weights, Voters(weights, events, b)), Part(weights, Voters(weights, events[..n], b)));
    }
  }
}
