/** Who is scheduled, what a quorum is, and when a node votes, precommits and commits. */
module TendermintSteps {
  import opened Common
  import opened Tendermint
  import NumberTheory

  // ------------------------------------------------------------------ the schedule

  /** The validator at index i is the scheduled one. */
  ghost predicate Scheduled(validators: seq<Id>, height: int, round: int, i: nat) {
    i < |validators| && ProposerFor(validators, height, round) == Some(validators[i])
  }

  lemma FirstScheduled(validators: seq<Id>)
    requires validators != []
    ensures Scheduled(validators, 0, 0, 0)
  {
  }

  /** The turn passes to the next validator with every height and with every round, and after the last it
      is the first one's again. */
  lemma {:induction false} NextScheduled(validators: seq<Id>, height: int, round: int, i: nat)
    requires Distinct(validators) && Scheduled(validators, height, round, i)
    ensures var next := if i + 1 < |validators| then i + 1 else 0;
            Scheduled(validators, height + 1, round, next) && Scheduled(validators, height, round + 1, next)
  {
    var n, a := |validators|, height + round;
    assert validators[a % n] == validators[i];
    ModNext(a, n);
  }

  lemma {:induction false} ModNext(a: int, n: int)
    requires n > 0
    ensures (a + 1) % n == if a % n + 1 < n then a % n + 1 else 0
  {
    var q, r := a / n, a % n;
    assert a == q * n + r;
    if r + 1 < n {
      NumberTheory.ModUnique(a + 1, q, r + 1, n);
    } else {
      assert (q + 1) * n == q * n + n;
      NumberTheory.ModUnique(a + 1, q + 1, 0, n);
    }
  }

  lemma {:induction false} TurnsDiffer(validators: seq<Id>, height: int, round: int, j: nat, k: nat)
    requires validators != [] && Distinct(validators) && j < k < |validators|
    ensures ProposerFor(validators, height + j, round) != ProposerFor(validators, height + k, round)
  {
    var n := |validators|;
    var i := (height + j + round) % n;
    assert Scheduled(validators, height + j, round, i);
    Later(validators, height + j, round, i, k - j);
  }

  /** k turns later the turn has moved k places. */
  lemma {:induction false} Later(validators: seq<Id>, height: int, round: int, i: nat, k: nat)
    requires Distinct(validators) && Scheduled(validators, height, round, i) && k < |validators|
    ensures Scheduled(validators, height + k, round, if i + k < |validators| then i + k else i + k - |validators|)
  {
    if k > 0 {
      Later(validators, height, round, i, k - 1);
      NextScheduled(validators, height + k - 1, round, if i + k - 1 < |validators| then i + k - 1
        else i + k - 1 - |validators|);
    }
  }

  /** Among as many heights in a row as there are validators each validator proposes exactly once. */
  lemma {:induction false} EachOnce(validators: seq<Id>, height: int, round: int, v: Id)
    requires Distinct(validators) && v in validators
    ensures exists k :: TurnOf(validators, height, round, v, k)
    ensures forall j, k :: TurnOf(validators, height, round, v, j) && TurnOf(validators, height, round, v, k) ==> j == k
  {
    var n := |validators|;
    var i := (height + round) % n;
    var m :| 0 <= m < n && validators[m] == v;
    var k := if i <= m then m - i else m + n - i;
    assert Scheduled(validators, height, round, i);
    Later(validators, height, round, i, k);
    assert TurnOf(validators, height, round, v, k);
    forall j, l | TurnOf(validators, height, round, v, j) && TurnOf(validators, height, round, v, l) ensures j == l {
      if j < l { TurnsDiffer(validators, height, round, j, l); }
      if l < j { TurnsDiffer(validators, height, round, l, j); }
    }
  }

  ghost predicate TurnOf(validators: seq<Id>, height: int, round: int, v: Id, k: int) {
    0 <= k < |validators| && ProposerFor(validators, height + k, round) == Some(v)
  }

  // ------------------------------------------------------------------ quorums

  /** A quorum is the least number above two thirds. */
  lemma QuorumIsLeast(n: nat, q: nat)
    ensures q >= Quorum(n) <==> 3 * q > 2 * n
  {
  }

  /** More than two thirds of n validators vote for h. */
  ghost predicate TwoThirds(ballot: Ballot, n: nat, h: Hash) {
    3 * |set v | v in ballot && ballot[v] == Some(h)| > 2 * n
  }

  lemma {:induction false} QuorumHashIs(ballot: Ballot, n: nat)
    ensures QuorumHash(ballot, n).Some? ==> TwoThirds(ballot, n, QuorumHash(ballot, n).value)
    ensures QuorumHash(ballot, n).None? ==> forall h :: !TwoThirds(ballot, n, h)
  {
    forall h ensures TwoThirds(ballot, n, h) <==> |Supporters(ballot, h)| >= Quorum(n) {
      assert Supporters(ballot, h) == set v | v in ballot && ballot[v] == Some(h);
    }
  }

  // ------------------------------------------------------------------ single steps

  ghost predicate Heard(cfg: Config, s: Local, height: int, round: int, v: Option<Id>) {
    height == s.height && round == s.round && v.Some? && v.value in cfg.validators
  }

  /** The votes of a round with that of v replaced or added. */
  ghost function WithVote(votes: Votes, key: (int, int), v: Id, h: Option<Hash>): Ballot {
    (if key in votes then votes[key] else map[])[v := h]
  }

  /** The next height: nothing of the last one is kept but what was decided and seen. */
  ghost predicate Decided(s: Local, t: Local, h: Hash) {
    && t.height == s.height + 1 && t.round == 0 && t.phase == PROPOSE && t.proposal == None
    && t.values == s.values && t.prevotes == s.prevotes && t.precommits == s.precommits
    && t.committed == s.committed[s.height := if h in s.values then Some(s.values[h]) else s.proposal]
  }

  /** A precommit counts if it is for the current height and round and names a validator. It decides the
      height exactly when the node has prevoted and more than two thirds then precommit one hash. */
  lemma {:induction false} PrecommitHandled(cfg: Config, me: Option<Id>, s: Local, m: Message)
    requires m.Precommit?
    ensures !Heard(cfg, s, m.height, m.round, m.validator) ==> Handle(cfg, me, s, m) == Effect(s, [])
    ensures Heard(cfg, s, m.height, m.round, m.validator) ==>
              var key, n := (s.height, s.round), |cfg.validators|;
              var b := WithVote(s.precommits, key, m.validator.value, m.blockHash);
              var e, counted := Handle(cfg, me, s, m), s.(precommits := s.precommits[key := b]);
              && e.sent == []
              && if (s.phase == PREVOTE || s.phase == PRECOMMIT) && exists h :: TwoThirds(b, n, h)
                 then exists h :: TwoThirds(b, n, h) && Decided(counted, e.local, h)
                 else e.local == counted
  {
    if Heard(cfg, s, m.height, m.round, m.validator) {
      var b := WithVote(s.precommits, (s.height, s.round), m.validator.value, m.blockHash);
      QuorumHashIs(b, |cfg.validators|);
    }
  }

  /** A prevote counts likewise. It makes the node precommit exactly when the node is in its prevote step
      and more than two thirds then prevote one hash: it precommits that hash, counts its own precommit,
      and decides at once if that completes two thirds. */
  lemma {:induction false} PrevoteHandled(cfg: Config, me: Option<Id>, s: Local, m: Message)
    requires m.Prevote?
    ensures !Heard(cfg, s, m.height, m.round, m.validator) ==> Handle(cfg, me, s, m) == Effect(s, [])
    ensures Heard(cfg, s, m.height, m.round, m.validator) ==>
              var key, n := (s.height, s.round), |cfg.validators|;
              var b := WithVote(s.prevotes, key, m.validator.value, m.blockHash);
              PrevotesCounted(cfg, me, s.(prevotes := s.prevotes[key := b]), b, Handle(cfg, me, s, m))
  {
    if Heard(cfg, s, m.height, m.round, m.validator) {
      var key := (s.height, s.round);
      var b := WithVote(s.prevotes, key, m.validator.value, m.blockHash);
      CheckedPrevotes(cfg, me, s.(prevotes := s.prevotes[key := b]), b);
    }
  }

  ghost predicate PrevotesCounted(cfg: Config, me: Option<Id>, s: Local, b: Ballot, e: Effect) {
    if s.phase == PREVOTE && exists h :: TwoThirds(b, |cfg.validators|, h)
    then exists h :: TwoThirds(b, |cfg.validators|, h) && Precommitted(cfg, me, s, h, e)
    else e == Effect(s, [])
  }

  ghost predicate Precommitted(cfg: Config, me: Option<Id>, s: Local, h: Hash, e: Effect) {
    var key, n := (s.height, s.round), |cfg.validators|;
    var old_ := if key in s.precommits then s.precommits[key] else map[];
    var b := if me.Some? then old_[me.value := Some(h)] else old_;
    var voted := s.(phase := PRECOMMIT, precommits := if me.Some? then s.precommits[key := b] else s.precommits);
    && e.sent == [Precommit(s.height, s.round, me, Some(h))]
    && if exists g :: TwoThirds(b, n, g) then exists g :: TwoThirds(b, n, g) && Decided(voted, e.local, g)
       else e.local == voted
  }

  lemma {:induction false} CheckedPrevotes(cfg: Config, me: Option<Id>, s: Local, b: Ballot)
    requires b == BallotAt(s.prevotes, (s.height, s.round))
    ensures PrevotesCounted(cfg, me, s, b, CheckPrevotes(cfg, me, s))
  {
    QuorumHashIs(b, |cfg.validators|);
    hide TwoThirds;
    if s.phase == PREVOTE && exists h :: TwoThirds(b, |cfg.validators|, h) {
      var h := QuorumHash(b, |cfg.validators|).value;
      CastPrecommitted(cfg, me, s, h);
      hide Precommitted, CastPrecommit, QuorumHash;
      assert TwoThirds(b, |cfg.validators|, h);
    }
  }

  lemma {:induction false} CastPrecommitted(cfg: Config, me: Option<Id>, s: Local, h: Hash)
    ensures Precommitted(cfg, me, s, h, CastPrecommit(cfg, me, s, h))
  {
    var key := (s.height, s.round);
    var old_ := if key in s.precommits then s.precommits[key] else map[];
    QuorumHashIs(if me.Some? then old_[me.value := Some(h)] else old_, |cfg.validators|);
    hide QuorumHash, TwoThirds;
  }

  /** A proposal counts if it is for the current height and round and names the scheduled validator. Its
      value is remembered, and the node that has not voted prevotes its hash and counts that vote. */
  lemma {:induction false} ProposalHandled(cfg: Config, me: Option<Id>, s: Local, m: Message)
    requires m.Proposal?
    ensures var e, n, h := Handle(cfg, me, s, m), |cfg.validators|, cfg.hash(m.value);
            var heard := m.height == s.height && m.round == s.round
                         && m.proposer == (if n == 0 then None else Some(cfg.validators[(s.height + s.round) % n]));
            var seen := s.(proposal := Some(m.value), values := s.values[h := m.value]);
            && (!heard ==> e == Effect(s, []))
            && (heard && s.phase != PROPOSE ==> e == Effect(seen, []))
            && (heard && s.phase == PROPOSE ==>
                  var key := (s.height, s.round);
                  var old_ := if key in s.prevotes then s.prevotes[key] else map[];
                  var b := if me.Some? then old_[me.value := Some(h)] else old_;
                  var voted := seen.(phase := PREVOTE,
                                     prevotes := if me.Some? then s.prevotes[key := b] else s.prevotes);
                  && e.sent != [] && e.sent[0] == Prevote(s.height, s.round, me, Some(h))
                  && PrevotesCounted(cfg, me, voted, b, Effect(e.local, e.sent[1..])))
  {
    hide PrevotesCounted, CheckPrevotes;
    var h := cfg.hash(m.value);
    if Current(s, m) && m.proposer == ProposerFor(cfg.validators, s.height, s.round) && s.phase == PROPOSE {
      var voted := Prevoted(cfg, me, s, m.value);
      var e := CheckPrevotes(cfg, me, voted);
      CheckedPrevotes(cfg, me, voted, BallotAt(voted.prevotes, (s.height, s.round)));
      assert ([Prevote(s.height, s.round, me, Some(h))] + e.sent)[1..] == e.sent;
    }
  }
}
