/** The core Tendermint engine of one node: a propose / prevote / precommit machine. */
module Tendermint {
  import opened Common
  import opened Order

  type Id = string
  type Hash = string
  type Value = string

  datatype Message =
    | Proposal(height: int, round: int, proposer: Option<Id>, value: Value)
    | Prevote(height: int, round: int, validator: Option<Id>, blockHash: Option<Hash>)
    | Precommit(height: int, round: int, validator: Option<Id>, blockHash: Option<Hash>)

  datatype Phase = PROPOSE | PREVOTE | PRECOMMIT | COMMIT

  type Ballot = map<Id, Option<Hash>>
  type Votes = map<(int, int), Ballot>

  /** What a commit recorded: the hash that won, whether its value had been seen, and the proposal
      last accepted, which is the fallback. */
  datatype Certificate = Certificate(hash: Hash, seen: bool, last: Option<Value>)

  /** `certified` is a history variable; every other component is a field of the engine. */
  datatype Local = Local(
    height: int, round: int, phase: Phase, proposal: Option<Value>,
    prevotes: Votes, precommits: Votes, values: map<Hash, Value>,
    committed: map<int, Option<Value>>, certified: map<int, Certificate>)

  /** `hash` stands for block_hash; `validators` is the sorted validator list. */
  datatype Config = Config(hash: Value -> Hash, validators: seq<Id>)

  /** The new state of a node and the messages it broadcast, in order. */
  datatype Effect = Effect(local: Local, sent: seq<Message>)

  const INITIAL: Local := Local(1, 0, PROPOSE, None, map[], map[], map[], map[], map[])

  function Quorum(n: nat): nat { 2 * n / 3 + 1 }

  function ProposerFor(validators: seq<Id>, height: int, round: int): Option<Id> {
    if validators == [] then None else Some(validators[(height + round) % |validators|])
  }

  ghost function Supporters(ballot: Ballot, h: Hash): set<Id> {
    set v | v in ballot && ballot[v] == Some(h)
  }

  /** The hash that at least `Quorum(n)` entries of the ballot carry, if there is one. */
  ghost function QuorumHash(ballot: Ballot, n: nat): Option<Hash> {
    if h: Hash :| |Supporters(ballot, h)| >= Quorum(n) then Some(h) else None
  }

  function BallotAt(votes: Votes, key: (int, int)): Ballot {
    if key in votes then votes[key] else map[]
  }

  function Record(votes: Votes, key: (int, int), v: Id, h: Option<Hash>): Votes {
    votes[key := BallotAt(votes, key)[v := h]]
  }

  function RecordOwn(votes: Votes, key: (int, int), me: Option<Id>, h: Option<Hash>): Votes {
    if me.Some? then Record(votes, key, me.value, h) else votes
  }

  function Commit(s: Local, h: Hash): Local {
    var value := if h in s.values then Some(s.values[h]) else s.proposal;
    s.(committed := s.committed[s.height := value],
       certified := s.certified[s.height := Certificate(h, h in s.values, s.proposal)],
       height := s.height + 1, round := 0, phase := PROPOSE, proposal := None)
  }

  ghost function CheckPrecommits(cfg: Config, s: Local): Local {
    if s.phase !in {PRECOMMIT, PREVOTE} then s
    else match QuorumHash(BallotAt(s.precommits, (s.height, s.round)), |cfg.validators|)
      case Some(h) => Commit(s, h)
      case None => s
  }

  ghost function CastPrecommit(cfg: Config, me: Option<Id>, s: Local, h: Hash): Effect {
    var voted := s.(phase := PRECOMMIT,
                    precommits := RecordOwn(s.precommits, (s.height, s.round), me, Some(h)));
    Effect(CheckPrecommits(cfg, voted), [Precommit(s.height, s.round, me, Some(h))])
  }

  ghost function CheckPrevotes(cfg: Config, me: Option<Id>, s: Local): Effect {
    if s.phase != PREVOTE then Effect(s, [])
    else match QuorumHash(BallotAt(s.prevotes, (s.height, s.round)), |cfg.validators|)
      case Some(h) => CastPrecommit(cfg, me, s, h)
      case None => Effect(s, [])
  }

  /** The state just after a proposal made this node cast its prevote. */
  function Prevoted(cfg: Config, me: Option<Id>, s: Local, v: Value): Local {
    s.(phase := PREVOTE, proposal := Some(v), values := s.values[cfg.hash(v) := v],
       prevotes := RecordOwn(s.prevotes, (s.height, s.round), me, Some(cfg.hash(v))))
  }

  predicate Current(s: Local, m: Message) { m.height == s.height && m.round == s.round }

  ghost function HandleProposal(cfg: Config, me: Option<Id>, s: Local, m: Message): Effect
    requires m.Proposal?
  {
    if !Current(s, m) || m.proposer != ProposerFor(cfg.validators, s.height, s.round) then Effect(s, [])
    else if s.phase != PROPOSE then
      Effect(s.(proposal := Some(m.value), values := s.values[cfg.hash(m.value) := m.value]), [])
    else
      var e := CheckPrevotes(cfg, me, Prevoted(cfg, me, s, m.value));
      Effect(e.local, [Prevote(s.height, s.round, me, Some(cfg.hash(m.value)))] + e.sent)
  }

  ghost function Handle(cfg: Config, me: Option<Id>, s: Local, m: Message): Effect {
    match m
    case Proposal(_, _, _, _) => HandleProposal(cfg, me, s, m)
    case Prevote(_, _, v, h) =>
      if !Current(s, m) || v.None? || v.value !in cfg.validators then Effect(s, [])
      else CheckPrevotes(cfg, me, s.(prevotes := Record(s.prevotes, (s.height, s.round), v.value, h)))
    case Precommit(_, _, v, h) =>
      if !Current(s, m) || v.None? || v.value !in cfg.validators then Effect(s, [])
      else Effect(CheckPrecommits(cfg, s.(precommits := Record(s.precommits, (s.height, s.round), v.value, h))), [])
  }

  predicate MayPropose(cfg: Config, me: Option<Id>, s: Local) {
    me.Some? && ProposerFor(cfg.validators, s.height, s.round) == me && s.phase == PROPOSE
  }

  ghost function Propose(cfg: Config, me: Option<Id>, s: Local, v: Value): Effect {
    if !MayPropose(cfg, me, s) then Effect(s, [])
    else
      var m := Proposal(s.height, s.round, me, v);
      var e := Handle(cfg, me, s, m);
      Effect(e.local, [m] + e.sent)
  }

  /** The supporters of a hash among the entries already counted. */
  ghost function Counted(ballot: Ballot, left: set<Id>, h: Hash): set<Id> {
    set v | v in ballot && v !in left && ballot[v] == Some(h)
  }

  lemma {:induction false} CountedStep(ballot: Ballot, left: set<Id>, v: Id)
    requires v in left && left <= ballot.Keys
    ensures forall h :: |Counted(ballot, left - {v}, h)| ==
                        |Counted(ballot, left, h)| + if ballot[v] == Some(h) then 1 else 0
  {
    forall h ensures |Counted(ballot, left - {v}, h)| ==
                     |Counted(ballot, left, h)| + if ballot[v] == Some(h) then 1 else 0
    {
      if ballot[v] == Some(h) {
        assert Counted(ballot, left - {v}, h) == Counted(ballot, left, h) + {v};
      } else {
        assert Counted(ballot, left - {v}, h) == Counted(ballot, left, h);
      }
    }
  }

  /** In a ballot of validators only, no two hashes reach the quorum: the answer of
      `_quorum_hash` does not depend on the order of the dictionary. */
  lemma {:induction false} QuorumHashUnique(ballot: Ballot, n: nat, h: Hash)
    requires |ballot| <= n
    requires |Supporters(ballot, h)| >= Quorum(n)
    ensures QuorumHash(ballot, n) == Some(h)
  {
    var w := QuorumHash(ballot, n).value;
    if w != h {
      var a, b := Supporters(ballot, h), Supporters(ballot, w);
      assert a !! b;
      SubsetSize(a + b, ballot.Keys);
      assert false;
    }
  }

  class Node {
    const hash: Value -> Hash
    const validatorId: Option<Id>
    const validators: seq<Id>

    var height: int
    var round: int
    var phase: Phase
    var proposal: Option<Value>
    var prevotes: Votes
    var precommits: Votes
    var values: map<Hash, Value>
    var committed: map<int, Option<Value>>
    ghost var certified: map<int, Certificate>
    /** Everything handed to the attached network node, in order. */
    var outbox: seq<Message>

    ghost function Cfg(): Config { Config(hash, validators) }

    ghost function State(): Local reads this {
      Local(height, round, phase, proposal, prevotes, precommits, values, committed, certified)
    }

    ghost predicate Valid() reads this {
      && Distinct(validators)
      && (validatorId.Some? ==> validatorId.value in validators)
      && (forall key :: key in prevotes ==> prevotes[key].Keys <= Elements(validators))
      && (forall key :: key in precommits ==> precommits[key].Keys <= Elements(validators))
    }

    constructor (hash: Value -> Hash, validatorId: Option<Id>, validators: seq<Id>)
      requires Distinct(validators)
      requires validatorId.Some? ==> validatorId.value in validators
      ensures Valid() && State() == INITIAL && outbox == []
      ensures this.hash == hash && this.validatorId == validatorId
      ensures Sorted(this.validators) && multiset(this.validators) == multiset(validators)
    {
      this.hash, this.validatorId, this.validators := hash, validatorId, Sort(validators);
      height, round, phase, proposal := 1, 0, PROPOSE, None;
      prevotes, precommits, values, committed, certified := map[], map[], map[], map[], map[];
      outbox := [];
      new;
      SortSorted(validators);
      SortDistinct(validators);
      assert validatorId.Some? ==> validatorId.value in multiset(validators);
    }

    method QuorumWinner(ballot: Ballot) returns (winner: Option<Hash>)
      requires Valid() && ballot.Keys <= Elements(validators)
      ensures winner == QuorumHash(ballot, |validators|)
    {
      var counts: map<Hash, int> := map[];
      var left := ballot.Keys;
      while left != {}
        invariant left <= ballot.Keys
        invariant forall h :: Get(counts, h) == |Counted(ballot, left, h)|
        decreases |left|
      {
        var v :| v in left;
        CountedStep(ballot, left, v);
        left := left - {v};
        if ballot[v].Some? {
          counts := counts[ballot[v].value := Get(counts, ballot[v].value) + 1];
        }
      }
      assert forall h :: Counted(ballot, left, h) == Supporters(ballot, h);
      DistinctSize(validators);
      SubsetSize(ballot.Keys, Elements(validators));
      var candidates := counts.Keys;
      while candidates != {}
        invariant candidates <= counts.Keys
        invariant forall h :: h in counts && h !in candidates ==> counts[h] < Quorum(|validators|)
        decreases |candidates|
      {
        var h :| h in candidates;
        if counts[h] >= Quorum(|validators|) {
          QuorumHashUnique(ballot, |validators|, h);
          return Some(h);
        }
        candidates := candidates - {h};
      }
      assert forall h :: |Supporters(ballot, h)| == Get(counts, h) < Quorum(|validators|);
      return None;
    }

    method Broadcast(m: Message)
      modifies this`outbox
      ensures outbox == old(outbox) + [m]
    {
      outbox := outbox + [m];
    }

    method CommitBlock(h: Hash)
      requires Valid()
      modifies this
      ensures Valid() && State() == Commit(old(State()), h) && outbox == old(outbox)
    {
      phase := COMMIT;
      var value := if h in values then Some(values[h]) else proposal;
      committed := committed[height := value];
      certified := certified[height := Certificate(h, h in values, proposal)];
      height := height + 1;
      round := 0;
      phase := PROPOSE;
      proposal := None;
    }

    method ExaminePrecommits()
      requires Valid()
      modifies this
      ensures Valid() && State() == CheckPrecommits(Cfg(), old(State())) && outbox == old(outbox)
    {
      if phase !in {PRECOMMIT, PREVOTE} { return; }
      var winner := QuorumWinner(BallotAt(precommits, (height, round)));
      if winner.Some? {
        CommitBlock(winner.value);
      }
    }

    method BroadcastPrecommit(h: Hash)
      requires Valid()
      modifies this
      ensures Valid()
      ensures State() == CastPrecommit(Cfg(), validatorId, old(State()), h).local
      ensures outbox == old(outbox) + CastPrecommit(Cfg(), validatorId, old(State()), h).sent
    {
      phase := PRECOMMIT;
      Broadcast(Precommit(height, round, validatorId, Some(h)));
      if validatorId.Some? {
        precommits := Record(precommits, (height, round), validatorId.value, Some(h));
      }
      ExaminePrecommits();
    }

    method ExaminePrevotes()
      requires Valid()
      modifies this
      ensures Valid()
      ensures State() == CheckPrevotes(Cfg(), validatorId, old(State())).local
      ensures outbox == old(outbox) + CheckPrevotes(Cfg(), validatorId, old(State())).sent
    {
      if phase != PREVOTE { return; }
      var winner := QuorumWinner(BallotAt(prevotes, (height, round)));
      if winner.Some? {
        BroadcastPrecommit(winner.value);
      }
    }

    method BroadcastPrevote(h: Hash)
      requires Valid()
      modifies this
      ensures Valid()
      ensures var voted := old(State()).(prevotes := RecordOwn(old(prevotes), (old(height), old(round)), validatorId,
              Some(h)));
              && State() == CheckPrevotes(Cfg(), validatorId, voted).local
              && outbox == old(outbox) + [Prevote(old(height), old(round), validatorId, Some(h))]
                           + CheckPrevotes(Cfg(), validatorId, voted).sent
    {
      Broadcast(Prevote(height, round, validatorId, Some(h)));
      if validatorId.Some? {
        prevotes := Record(prevotes, (height, round), validatorId.value, Some(h));
      }
      ExaminePrevotes();
    }

    method OnProposal(m: Message)
      requires Valid() && m.Proposal?
      modifies this
      ensures Valid()
      ensures State() == HandleProposal(Cfg(), validatorId, old(State()), m).local
      ensures outbox == old(outbox) + HandleProposal(Cfg(), validatorId, old(State()), m).sent
    {
      hide CheckPrevotes;
      if m.height != height || m.round != round { return; }
      if m.proposer != ProposerFor(validators, height, round) { return; }
      proposal := Some(m.value);
      values := values[hash(m.value) := m.value];
      if phase == PROPOSE {
        phase := PREVOTE;
        BroadcastPrevote(hash(m.value));
      }
    }

    method OnPrevote(m: Message)
      requires Valid() && m.Prevote?
      modifies this
      ensures Valid()
      ensures State() == Handle(Cfg(), validatorId, old(State()), m).local
      ensures outbox == old(outbox) + Handle(Cfg(), validatorId, old(State()), m).sent
    {
      hide CheckPrevotes;
      if m.height != height || m.round != round { return; }
      if m.validator.None? || m.validator.value !in validators { return; }
      prevotes := Record(prevotes, (height, round), m.validator.value, m.blockHash);
      ExaminePrevotes();
    }

    method OnPrecommit(m: Message)
      requires Valid() && m.Precommit?
      modifies this
      ensures Valid()
      ensures State() == Handle(Cfg(), validatorId, old(State()), m).local
      ensures outbox == old(outbox) + Handle(Cfg(), validatorId, old(State()), m).sent
    {
      hide CheckPrecommits;
      if m.height != height || m.round != round { return; }
      if m.validator.None? || m.validator.value !in validators { return; }
      precommits := Record(precommits, (height, round), m.validator.value, m.blockHash);
      ExaminePrecommits();
    }

    method Observe(m: Message)
      requires Valid()
      modifies this
      ensures Valid()
      ensures State() == Handle(Cfg(), validatorId, old(State()), m).local
      ensures outbox == old(outbox) + Handle(Cfg(), validatorId, old(State()), m).sent
    {
      hide CheckPrevotes, CheckPrecommits;
      match m
      case Proposal(_, _, _, _) => OnProposal(m);
      case Prevote(_, _, _, _) => OnPrevote(m);
      case Precommit(_, _, _, _) => OnPrecommit(m);
    }

    /** `ok` is false exactly when the engine raises for want of a validator set. */
    method ProposeValue(v: Value) returns (ok: bool)
      requires Valid()
      modifies this
      ensures Valid() && ok == (validators != [])
      ensures State() == Propose(Cfg(), validatorId, old(State()), v).local
      ensures outbox == old(outbox) + Propose(Cfg(), validatorId, old(State()), v).sent
      ensures |outbox| > |old(outbox)| <==>
              && validators != [] && old(phase) == PROPOSE
              && validatorId == Some(validators[(old(height) + old(round)) % |validators|])
    {
      if validators == [] { return false; }
      ok := true;
      if validatorId.None? || ProposerFor(validators, height, round) != validatorId || phase != PROPOSE { return; }
      var m := Proposal(height, round, validatorId, v);
      Broadcast(m);
      Observe(m);
    }
  }
}
