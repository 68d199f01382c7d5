/** What a quorum of the lattice's representatives promises, with weights of any sign. */
module LatticeVotes {
  import opened Common
  import opened Lattice

  /** The weights of a group of representatives. */
  ghost function Part(weights: map<string, int>, group: set<string>): map<string, int> {
    map r | r in weights && r in group :: weights[r]
  }

  /** The group is big enough to confirm a block. */
  ghost predicate IsQuorum(weights: map<string, int>, group: set<string>) {
    group <= weights.Keys && Sum(weights) > 0 && Sum(Part(weights, group)) >= Quorum(Sum(weights))
  }

  ghost predicate Backed(weights: map<string, int>, voters: set<string>) {
    exists group :: group <= voters && IsQuorum(weights, group)
  }

  /** Ballots hold the configured weights. */
  ghost predicate BallotsSound(weights: map<string, int>, votes: map<Block, map<string, int>>) {
    forall b :: b in votes ==> votes[b].Keys <= weights.Keys && votes[b] == Part(weights, votes[b].Keys)
  }

  /** Among the voters of a confirmed block there is a quorum. */
  ghost predicate ConfirmedSound(weights: map<string, int>, votes: map<Block, map<string, int>>,
      confirmed: set<Block>) {
    forall b :: b in confirmed ==> b in votes && Backed(weights, votes[b].Keys)
  }

  ghost predicate VotesSound(weights: map<string, int>, s: State) {
    BallotsSound(weights, s.votes) && ConfirmedSound(weights, s.votes, s.confirmed)
  }

  lemma {:induction false} VoteSound(weights: map<string, int>, s: State, b: Block, rep: string)
    requires VotesSound(weights, s)
    ensures VotesSound(weights, Vote(weights, s, b, rep).0)
  {
    if rep in weights {
      var after := Ballot(s.votes, b)[rep := weights[rep]];
      assert after == Part(weights, after.Keys);
      hide Sum, Part;
      MoreVoters(weights, s.votes, s.confirmed, b, after);
      assert Sum(weights) > 0 && Sum(after) >= Quorum(Sum(weights)) ==> IsQuorum(weights, after.Keys);
    }
  }

  lemma {:induction false} MoreVoters(weights: map<string, int>, votes: map<Block, map<string, int>>,
      confirmed: set<Block>, b: Block, ballot: map<string, int>)
    requires ConfirmedSound(weights, votes, confirmed) && Ballot(votes, b).Keys <= ballot.Keys
    ensures ConfirmedSound(weights, votes[b := ballot], confirmed)
  {
    hide IsQuorum;
    forall c | c in confirmed ensures Backed(weights, votes[b := ballot][c].Keys) {
      var group :| group <= votes[c].Keys && IsQuorum(weights, group);
      assert group <= votes[b := ballot][c].Keys;
    }
  }

  lemma {:induction false} ProposeKeepsVotes(weights: map<string, int>, s: State, op: Op)
    requires VotesSound(weights, s)
    ensures VotesSound(weights, Propose(s, op))
  {
    hide Backed, Build, Part, Head;
    if Build(s, op).Made? {
      var b := Build(s, op).block;
      hide VotesSound;
      EmptyBallot(weights, s, b);
    }
  }

  lemma {:induction false} EmptyBallot(weights: map<string, int>, s: State, b: Block)
    requires VotesSound(weights, s)
    ensures VotesSound(weights, Apply(s, b))
  {
    hide Backed, Sum;
    var ballot := Ballot(s.votes, b);
    ApplyVotes(s, b);
    hide Apply;
    assert ballot == Part(weights, ballot.Keys);
    MoreVoters(weights, s.votes, s.confirmed, b, ballot);
  }

  lemma ApplyVotes(s: State, b: Block)
    ensures var u := Apply(s, b);
            u.confirmed == s.confirmed && (u.votes == s.votes || u.votes == s.votes[b := Ballot(s.votes, b)])
  {
  }

  lemma {:induction false} RunVotes(weights: map<string, int>, events: seq<Event>)
    ensures VotesSound(weights, Run(weights, events))
  {
    if events != [] {
      hide VotesSound;
      var s := Run(weights, events[..|events| - 1]);
      RunVotes(weights, events[..|events| - 1]);
      match events[|events| - 1]
      case Proposed(op) => ProposeKeepsVotes(weights, s, op);
      case Voted(b, rep) => VoteSound(weights, s, b, rep);
    }
  }

  // ------------------------------------------------------------------ shared voters

  /** Two groups without a common member are each big enough. */
  ghost predicate Splits(weights: map<string, int>) {
    exists g, h :: g !! h && IsQuorum(weights, g) && IsQuorum(weights, h)
  }

  ghost predicate SharedVoter(s: State, b: Block, c: Block) {
    b in s.votes && c in s.votes && exists rep :: rep in s.votes[b] && rep in s.votes[c]
  }

  /** Any two blocks confirmed in the run have a voter in common. */
  ghost predicate VotersShared(weights: map<string, int>, events: seq<Event>) {
    var s := Run(weights, events);
    forall b, c :: b in s.confirmed && c in s.confirmed ==> SharedVoter(s, b, c)
  }

  lemma {:induction false} QuorumsMeet(weights: map<string, int>, events: seq<Event>)
    requires !Splits(weights)
    ensures VotersShared(weights, events)
  {
    hide Run, IsQuorum;
    var s := Run(weights, events);
    RunVotes(weights, events);
    forall b, c | b in s.confirmed && c in s.confirmed ensures SharedVoter(s, b, c) {
      var g :| g <= s.votes[b].Keys && IsQuorum(weights, g);
      var h :| h <= s.votes[c].Keys && IsQuorum(weights, h);
      assert !(g !! h);
      var rep :| rep in g && rep in h;
      assert rep in s.votes[b] && rep in s.votes[c];
    }
  }

  /** A group that votes for a fresh block: its votes, and the confirmation if it is a quorum. */
  lemma {:induction false} CastAll(weights: map<string, int>, events: seq<Event>, b: Block, group: set<string>)
    returns (more: seq<Event>)
    requires group <= weights.Keys && group != {} && Sum(weights) > 0
    requires b !in Run(weights, events).votes && b !in Run(weights, events).confirmed
    ensures var s, u := Run(weights, events), Run(weights, events + more);
            && u.votes == s.votes[b := Part(weights, group)] && s.confirmed <= u.confirmed
            && (IsQuorum(weights, group) ==> b in u.confirmed)
    decreases group
  {
    hide Run;
    var rep :| rep in group;
    var before := [];
    if group != {rep} {
      before := CastAll(weights, events, b, group - {rep});
    } else {
      assert events + before == events;
    }
    more := before + [Voted(b, rep)];
    assert events + more == (events + before) + [Voted(b, rep)];
    RunNext(weights, events + before, Voted(b, rep));
    CastOne(weights, Run(weights, events), Run(weights, events + before), b, group, rep);
  }

  lemma {:induction false} RunNext(weights: map<string, int>, events: seq<Event>, e: Event)
    ensures Run(weights, events + [e]) == Step(weights, Run(weights, events), e)
  {
    assert (events + [e])[..|events|] == events;
  }

  lemma {:induction false} CastOne(weights: map<string, int>, s: State, t: State, b: Block, group: set<string>,
      rep: string)
    requires group <= weights.Keys && rep in group && Sum(weights) > 0
    requires s.confirmed <= t.confirmed
    requires b !in s.votes
    requires if group == {rep} then t.votes == s.votes else t.votes == s.votes[b := Part(weights, group - {rep})]
    ensures var u := Vote(weights, t, b, rep).0;
            && u.votes == s.votes[b := Part(weights, group)] && s.confirmed <= u.confirmed
            && (IsQuorum(weights, group) ==> b in u.confirmed)
  {
    var before := Ballot(t.votes, b);
    assert before == if group == {rep} then map[] else Part(weights, group - {rep});
    hide Sum, Vote;
    PartGrows(weights, group, rep, before);
    hide Part;
    VoteFor(weights, t, b, rep, before);
  }

  lemma PartGrows(weights: map<string, int>, group: set<string>, rep: string, before: map<string, int>)
    requires rep in group && group <= weights.Keys
    requires before == if group == {rep} then map[] else Part(weights, group - {rep})
    ensures before[rep := weights[rep]] == Part(weights, group)
  {
  }

  lemma {:induction false} VoteFor(weights: map<string, int>, t: State, b: Block, rep: string, before: map<string, int>)
    requires rep in weights && before == Ballot(t.votes, b) && Sum(weights) > 0
    ensures var u, ballot := Vote(weights, t, b, rep).0, before[rep := weights[rep]];
            && u.votes == t.votes[b := ballot] && t.confirmed <= u.confirmed
            && (Sum(ballot) >= Quorum(Sum(weights)) ==> b in u.confirmed)
  {
    hide Sum;
  }

  /** Two disjoint quorums confirm two blocks that nobody voted for both of. */
  lemma {:induction false} SplitConfirms(weights: map<string, int>, b: Block, c: Block) returns (events: seq<Event>)
    requires Splits(weights) && b != c
    ensures var s := Run(weights, events); b in s.confirmed && c in s.confirmed && !SharedVoter(s, b, c)
  {
    hide Run;
    var g: set<string>, h: set<string> :| g !! h && IsQuorum(weights, g) && IsQuorum(weights, h);
    NobodyIsNone(weights);
    EmptyRun(weights);
    var first := CastAll(weights, [], b, g);
    assert [] + first == first;
    ConfirmedVoted(weights, first);
    var second := CastAll(weights, first, c, h);
    events := first + second;
  }

  lemma NobodyIsNone(weights: map<string, int>)
    ensures !IsQuorum(weights, {})
  {
    assert Part(weights, {}) == map[];
  }

  lemma EmptyRun(weights: map<string, int>)
    ensures Run(weights, []) == EMPTY
  {
  }

  lemma {:induction false} ConfirmedVoted(weights: map<string, int>, events: seq<Event>)
    ensures var s := Run(weights, events); forall b :: b in s.confirmed ==> b in s.votes
  {
    RunVotes(weights, events);
  }

  /** Exactly when any two confirmed blocks, in every run, have a voter in common: no two disjoint
      groups of representatives both reach the quorum. */
  lemma {:induction false} SharedVoterIff(weights: map<string, int>)
    ensures (forall events :: VotersShared(weights, events)) <==> !Splits(weights)
  {
    hide Splits, Run, SharedVoter;
    if Splits(weights) {
      var b, c := Block("a", Open, None, 0, Text(""), 0), Block("b", Open, None, 0, Text(""), 0);
      var events := SplitConfirms(weights, b, c);
      assert !VotersShared(weights, events);
    } else {
      forall events ensures VotersShared(weights, events) {
        QuorumsMeet(weights, events);
      }
    }
  }

  /** Weights that are never negative do not split. */
  lemma {:induction false} QuorumsOverlap(weights: map<string, int>)
    requires forall r :: r in weights ==> weights[r] >= 0
    ensures !Splits(weights)
  {
    if Splits(weights) {
      var g: set<string>, h: set<string> :| g !! h && IsQuorum(weights, g) && IsQuorum(weights, h);
      var both := Part(weights, g) + Part(weights, h);
      SumDisjoint(Part(weights, g), Part(weights, h));
      PartAtMost(weights, both);
    }
  }

  lemma {:induction false} PartAtMost(weights: map<string, int>, part: map<string, int>)
    requires forall r :: r in weights ==> weights[r] >= 0
    requires forall r :: r in part ==> r in weights && part[r] == weights[r]
    ensures Sum(part) <= Sum(weights)
  {
    var rest := map r | r in weights && r !in part :: weights[r];
    assert part + rest == weights;
    SumDisjoint(part, rest);
    SumNonNegative(rest);
  }

  /** A negative weight lowers the quorum, and two representatives reach it without each other. */
  lemma {:induction false} NegativeWeightSplits(weights: map<string, int>, x: string, y: string, z: string)
    requires x != y && x != z && y != z && weights == map[x := 3, y := 3, z := -5]
    ensures Splits(weights)
  {
    var none: map<string, int> := map[];
    var one, other := none[x := 3], none[y := 3];
    SumUpdate(none, x, 3);
    SumUpdate(none, y, 3);
    SumUpdate(one, y, 3);
    SumUpdate(one[y := 3], z, -5);
    assert weights == one[y := 3][z := -5];
    assert Part(weights, {x}) == one && Part(weights, {y}) == other;
    assert IsQuorum(weights, {x}) && IsQuorum(weights, {y});
  }
}
