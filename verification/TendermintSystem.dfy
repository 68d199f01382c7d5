/** A network of Tendermint nodes: correct nodes run the engine, everything else may be
    forged under any name but a correct validator's, and any message ever sent may be
    delivered to anybody, at any time, any number of times, or never. */
module TendermintSystem {
  import opened Common
  import opened Tendermint

  /** `correct` holds the correct nodes: validators, and observers outside the validator set. */
  datatype System = System(cfg: Config, correct: set<Id>) {
    ghost predicate Valid() {
      && Distinct(cfg.validators)
      && 3 * |Faulty()| < |cfg.validators|
    }

    ghost function Members(): set<Id> { Elements(cfg.validators) }

    ghost function Faulty(): set<Id> { Members() - correct }

    /** An observer has no validator id. */
    predicate Honest(v: Id) { v in correct && v in cfg.validators }

    function Me(k: Id): Option<Id> { if k in cfg.validators then Some(k) else None }

    function Proposer(h: int): Option<Id> { ProposerFor(cfg.validators, h, 0) }

    ghost predicate Injective() {
      forall a, b :: cfg.hash(a) == cfg.hash(b) ==> a == b
    }
  }

  datatype Global = Global(nodes: map<Id, Local>, sent: set<Message>)

  datatype Action =
    | Deliver(node: Id, message: Message)
    | ProposeAt(node: Id, value: Value)
    | Forge(message: Message)

  function Author(m: Message): Option<Id> {
    match m
    case Proposal(_, _, p, _) => p
    case Prevote(_, _, v, _) => v
    case Precommit(_, _, v, _) => v
  }

  function Start(sys: System): Global {
    Global(map k | k in sys.correct :: INITIAL, {})
  }

  ghost predicate Enabled(sys: System, g: Global, a: Action) {
    match a
    case Deliver(k, m) => k in g.nodes && m in g.sent
    case ProposeAt(k, _) => k in g.nodes
    case Forge(m) => Author(m).Some? ==> !sys.Honest(Author(m).value)
  }

  ghost function Apply(sys: System, g: Global, a: Action): Global
    requires Enabled(sys, g, a)
  {
    match a
    case Deliver(k, m) =>
      var e := Handle(sys.cfg, sys.Me(k), g.nodes[k], m);
      Global(g.nodes[k := e.local], g.sent + Elements(e.sent))
    case ProposeAt(k, v) =>
      var e := Propose(sys.cfg, sys.Me(k), g.nodes[k], v);
      Global(g.nodes[k := e.local], g.sent + Elements(e.sent))
    case Forge(m) => g.(sent := g.sent + {m})
  }

  /** `g` is reached from the start by the given actions. */
  ghost predicate Reaches(sys: System, actions: seq<Action>, g: Global)
    decreases |actions|, 1
  {
    if actions == [] then g == Start(sys)
    else exists before :: StepFrom(sys, actions, before, g)
  }

  ghost predicate StepFrom(sys: System, actions: seq<Action>, before: Global, g: Global)
    requires actions != []
    decreases |actions|, 0
  {
    var n := |actions| - 1;
    Reaches(sys, actions[..n], before) && Enabled(sys, before, actions[n]) && g == Apply(sys, before, actions[n])
  }

  // ------------------------------------------------------------------ quorums

  ghost predicate IsQuorum(sys: System, q: set<Id>) {
    q <= sys.Members() && |q| >= Quorum(|sys.cfg.validators|)
  }

  /** Any two quorums share a correct validator. */
  lemma {:induction false} QuorumsMeet(sys: System, q1: set<Id>, q2: set<Id>) returns (v: Id)
    requires sys.Valid() && IsQuorum(sys, q1) && IsQuorum(sys, q2)
    ensures v in q1 && v in q2 && sys.Honest(v)
  {
    var both := q1 * q2;
    DistinctSize(sys.cfg.validators);
    SubsetSize(q1 + q2, sys.Members());
    assert |q1 + q2| == |q1| + |q2| - |both|;
    if both <= sys.Faulty() {
      SubsetSize(both, sys.Faulty());
      assert false;
    }
    v :| v in both && v !in sys.Faulty();
  }

  ghost predicate PrevotedBy(sys: System, sent: set<Message>, height: int, h: Hash, q: set<Id>) {
    IsQuorum(sys, q) &&
    forall v :: v in q && v in sys.correct ==> Prevote(height, 0, Some(v), Some(h)) in sent
  }

  ghost predicate PrecommittedBy(sys: System, sent: set<Message>, height: int, h: Hash, q: set<Id>) {
    IsQuorum(sys, q) &&
    forall v :: v in q && v in sys.correct ==> Precommit(height, 0, Some(v), Some(h)) in sent
  }

  /** A proposal for `height` that names the scheduled proposer and whose value hashes to `h`. */
  ghost predicate ProposedAs(sys: System, sent: set<Message>, height: int, h: Hash, v: Value) {
    Proposal(height, 0, sys.Proposer(height), v) in sent && sys.cfg.hash(v) == h
  }

  // --------------------------------------------------------------- invariant

  ghost predicate BallotsSent(sys: System, s: Local, sent: set<Message>) {
    && (forall key, v :: key in s.prevotes && v in s.prevotes[key] ==>
          v in sys.cfg.validators &&
          (v in sys.correct ==> Prevote(key.0, key.1, Some(v), s.prevotes[key][v]) in sent))
    && (forall key, v :: key in s.precommits && v in s.precommits[key] ==>
          v in sys.cfg.validators &&
          (v in sys.correct ==> Precommit(key.0, key.1, Some(v), s.precommits[key][v]) in sent))
  }

  ghost predicate CommitsCertified(sys: System, s: Local, sent: set<Message>) {
    && (forall h :: h in s.committed <==> 1 <= h < s.height)
    && s.certified.Keys == s.committed.Keys
    && (forall h :: h in s.certified ==>
          && s.committed[h].Some?
          && (exists q :: PrecommittedBy(sys, sent, h, s.certified[h].hash, q))
          && (!s.certified[h].seen ==>
                && s.committed[h] == s.certified[h].last
                && exists v :: ProposedAs(sys, sent, h, sys.cfg.hash(s.committed[h].value), v))
          && (s.certified[h].seen <==> sys.cfg.hash(s.committed[h].value) == s.certified[h].hash))
  }

  ghost predicate ProposalSeen(sys: System, s: Local, sent: set<Message>) {
    && s.round == 0 && s.height >= 1 && s.phase != COMMIT
    && (forall h :: h in s.values ==> sys.cfg.hash(s.values[h]) == h)
    && (s.phase != PROPOSE ==>
          && s.proposal.Some?
          && Proposal(s.height, 0, sys.Proposer(s.height), s.proposal.value) in sent
          && sys.cfg.hash(s.proposal.value) in s.values)
  }

  /** A correct validator never speaks of the future, nor ahead of its phase. */
  ghost predicate Timely(k: Id, s: Local, sent: set<Message>) {
    forall m :: m in sent && Author(m) == Some(k) ==>
      && m.round == 0 && 1 <= m.height <= s.height
      && (m.height == s.height ==> s.phase != PROPOSE && (m.Precommit? ==> s.phase == PRECOMMIT))
  }

  /** It speaks at most once per kind and height. */
  ghost predicate Once(k: Id, sent: set<Message>) {
    forall m, w :: m in sent && w in sent && Author(m) == Some(k) && Clash(m, w) ==> m == w
  }

  /** It prevotes only what was proposed ... */
  ghost predicate PrevotesBacked(sys: System, k: Id, sent: set<Message>) {
    forall m :: m in sent && Author(m) == Some(k) && m.Prevote? ==> PrevoteBacked(sys, m, sent)
  }

  ghost predicate PrevoteBacked(sys: System, m: Message, sent: set<Message>)
    requires m.Prevote?
  {
    m.blockHash.Some? && exists v :: ProposedAs(sys, sent, m.height, m.blockHash.value, v)
  }

  /** ... and precommits only what a quorum prevoted. */
  ghost predicate PrecommitsBacked(sys: System, k: Id, sent: set<Message>) {
    forall m :: m in sent && Author(m) == Some(k) && m.Precommit? ==> PrecommitBacked(sys, m, sent)
  }

  ghost predicate PrecommitBacked(sys: System, m: Message, sent: set<Message>)
    requires m.Precommit?
  {
    m.blockHash.Some? && exists q :: PrevotedBy(sys, sent, m.height, m.blockHash.value, q)
  }

  ghost predicate OwnMessages(sys: System, k: Id, s: Local, sent: set<Message>) {
    && Timely(k, s, sent)
    && Once(k, sent)
    && PrevotesBacked(sys, k, sent)
    && PrecommitsBacked(sys, k, sent)
  }

  /** Two messages of one author, kind and height. */
  predicate Clash(m: Message, w: Message) {
    Author(m) == Author(w) && m.height == w.height && m.Proposal? == w.Proposal? && m.Prevote? == w.Prevote?
  }

  ghost predicate NodeInv(sys: System, k: Id, s: Local, sent: set<Message>) {
    && BallotsSent(sys, s, sent)
    && CommitsCertified(sys, s, sent)
    && ProposalSeen(sys, s, sent)
    && (sys.Honest(k) ==> OwnMessages(sys, k, s, sent))
  }

  ghost predicate Inv(sys: System, g: Global) {
    && g.nodes.Keys == sys.correct
    && forall k :: k in g.nodes ==> NodeInv(sys, k, g.nodes[k], g.sent)
  }

  // ---------------------------------------------------------------- messages of others

  lemma BallotsFrame(sys: System, s: Local, sent: set<Message>, more: set<Message>)
    requires BallotsSent(sys, s, sent) && sent <= more
    ensures BallotsSent(sys, s, more)
  {
  }

  lemma {:induction false} CommitsFrame(sys: System, s: Local, sent: set<Message>, more: set<Message>)
    requires CommitsCertified(sys, s, sent) && sent <= more
    ensures CommitsCertified(sys, s, more)
  {
    forall h | h in s.certified
      ensures exists q :: PrecommittedBy(sys, more, h, s.certified[h].hash, q)
      ensures !s.certified[h].seen ==> exists v :: ProposedAs(sys, more, h, sys.cfg.hash(s.committed[h].value), v)
    {
      var q :| PrecommittedBy(sys, sent, h, s.certified[h].hash, q);
      assert PrecommittedBy(sys, more, h, s.certified[h].hash, q);
      if !s.certified[h].seen {
        ProposedFrame(sys, sent, more, h, sys.cfg.hash(s.committed[h].value));
      }
    }
  }

  lemma {:induction false} ProposedFrame(sys: System, sent: set<Message>, more: set<Message>, height: int, h: Hash)
    requires sent <= more && exists v :: ProposedAs(sys, sent, height, h, v)
    ensures exists v :: ProposedAs(sys, more, height, h, v)
  {
    var v :| ProposedAs(sys, sent, height, h, v);
    assert ProposedAs(sys, more, height, h, v);
  }

  lemma {:induction false} PrevotedFrame(sys: System, sent: set<Message>, more: set<Message>, height: int, h: Hash)
    requires sent <= more && exists q :: PrevotedBy(sys, sent, height, h, q)
    ensures exists q :: PrevotedBy(sys, more, height, h, q)
  {
    var q :| PrevotedBy(sys, sent, height, h, q);
    assert PrevotedBy(sys, more, height, h, q);
  }

  lemma {:induction false} PrevotesBackedFrame(sys: System, k: Id, sent: set<Message>, more: set<Message>)
    requires PrevotesBacked(sys, k, sent) && sent <= more
    requires forall m :: m in more && m !in sent && Author(m) == Some(k) && m.Prevote? ==> PrevoteBacked(sys, m, more)
    ensures PrevotesBacked(sys, k, more)
  {
    forall m | m in more && Author(m) == Some(k) && m.Prevote? ensures PrevoteBacked(sys, m, more) {
      if m in sent {
        assert PrevoteBacked(sys, m, sent);
        ProposedFrame(sys, sent, more, m.height, m.blockHash.value);
      }
    }
  }

  lemma {:induction false} PrecommitsBackedFrame(sys: System, k: Id, sent: set<Message>, more: set<Message>)
    requires PrecommitsBacked(sys, k, sent) && sent <= more
    requires forall m :: m in more && m !in sent && Author(m) == Some(k) && m.Precommit? ==>
             PrecommitBacked(sys, m, more)
    ensures PrecommitsBacked(sys, k, more)
  {
    forall m | m in more && Author(m) == Some(k) && m.Precommit? ensures PrecommitBacked(sys, m, more) {
      if m in sent {
        assert PrecommitBacked(sys, m, sent);
        PrevotedFrame(sys, sent, more, m.height, m.blockHash.value);
      }
    }
  }

  lemma {:induction false} OnceMore(k: Id, sent: set<Message>, m: Message)
    requires Once(k, sent) && Author(m) == Some(k)
    requires forall w :: w in sent && Author(w) == Some(k) ==> !Clash(w, m)
    ensures Once(k, sent + {m})
  {
    forall w, x | w in sent + {m} && x in sent + {m} && Author(w) == Some(k) && Clash(w, x) ensures w == x {
      assert Clash(x, w);
    }
  }

  lemma {:induction false} OwnFrame(sys: System, k: Id, s: Local, sent: set<Message>, more: set<Message>)
    requires OwnMessages(sys, k, s, sent) && sent <= more
    requires forall m :: m in more && Author(m) == Some(k) ==> m in sent
    ensures OwnMessages(sys, k, s, more)
  {
    PrevotesBackedFrame(sys, k, sent, more);
    PrecommitsBackedFrame(sys, k, sent, more);
  }

  lemma {:induction false} NodeFrame(sys: System, k: Id, s: Local, sent: set<Message>, more: set<Message>)
    requires NodeInv(sys, k, s, sent) && sent <= more
    requires forall m :: m in more && Author(m) == Some(k) && sys.Honest(k) ==> m in sent
    ensures NodeInv(sys, k, s, more)
  {
    BallotsFrame(sys, s, sent, more);
    CommitsFrame(sys, s, sent, more);
    if sys.Honest(k) {
      OwnFrame(sys, k, s, sent, more);
    }
  }

  // ---------------------------------------------------------------- own steps

  /** A quorum hash in a recorded prevote ballot is backed by the correct prevotes sent. */
  lemma {:induction false} PrevoteQuorum(sys: System, s: Local, sent: set<Message>, h: Hash)
    requires BallotsSent(sys, s, sent) && s.round == 0
    requires QuorumHash(BallotAt(s.prevotes, (s.height, 0)), |sys.cfg.validators|) == Some(h)
    ensures exists q :: PrevotedBy(sys, sent, s.height, h, q)
  {
    var q := Supporters(BallotAt(s.prevotes, (s.height, 0)), h);
    assert PrevotedBy(sys, sent, s.height, h, q);
  }

  lemma {:induction false} PrecommitQuorum(sys: System, s: Local, sent: set<Message>, h: Hash)
    requires BallotsSent(sys, s, sent) && s.round == 0
    requires QuorumHash(BallotAt(s.precommits, (s.height, 0)), |sys.cfg.validators|) == Some(h)
    ensures exists q :: PrecommittedBy(sys, sent, s.height, h, q)
  {
    var q := Supporters(BallotAt(s.precommits, (s.height, 0)), h);
    assert PrecommittedBy(sys, sent, s.height, h, q);
  }

  lemma {:induction false} CommitStep(sys: System, k: Id, s: Local, sent: set<Message>, h: Hash)
    requires NodeInv(sys, k, s, sent) && s.phase in {PREVOTE, PRECOMMIT}
    requires QuorumHash(BallotAt(s.precommits, (s.height, 0)), |sys.cfg.validators|) == Some(h)
    ensures NodeInv(sys, k, Commit(s, h), sent)
  {
    hide PrevotesBacked, PrecommitsBacked, QuorumHash;
    PrecommitQuorum(sys, s, sent, h);
    var t := Commit(s, h);
    if h !in s.values {
      assert ProposedAs(sys, sent, s.height, sys.cfg.hash(s.proposal.value), s.proposal.value);
    }
    assert CommitsCertified(sys, t, sent);
  }

  lemma {:induction false} CheckPrecommitsStep(sys: System, k: Id, s: Local, sent: set<Message>)
    requires NodeInv(sys, k, s, sent)
    ensures NodeInv(sys, k, CheckPrecommits(sys.cfg, s), sent)
  {
    if s.phase in {PRECOMMIT, PREVOTE} {
      match QuorumHash(BallotAt(s.precommits, (s.height, s.round)), |sys.cfg.validators|)
      case Some(h) => CommitStep(sys, k, s, sent, h);
      case None =>
    }
  }

  /** Casting a precommit for a hash with a prevote quorum, before the precommits are examined. */
  lemma {:induction false} PrecommitCast(sys: System, k: Id, s: Local, sent: set<Message>, h: Hash, t: Local,
      m: Message)
    requires NodeInv(sys, k, s, sent) && s.phase == PREVOTE
    requires QuorumHash(BallotAt(s.prevotes, (s.height, 0)), |sys.cfg.validators|) == Some(h)
    requires t == s.(phase := PRECOMMIT, precommits := RecordOwn(s.precommits, (s.height, 0), sys.Me(k), Some(h)))
    requires m == Precommit(s.height, 0, sys.Me(k), Some(h))
    ensures NodeInv(sys, k, t, sent + {m})
  {
    hide OwnMessages, PrecommittedBy, ProposedAs, QuorumHash;
    var more := sent + {m};
    BallotsFrame(sys, s, sent, more);
    CommitsFrame(sys, s, sent, more);
    PrevoteQuorum(sys, s, sent, h);
    OwnPrecommitSent(sys, k, s, t, more, h);
    hide BallotsSent;
    if sys.Honest(k) {
      OwnPrecommit(sys, k, s, t, sent, m);
    }
  }

  lemma {:induction false} OwnPrecommitSent(sys: System, k: Id, s: Local, t: Local, more: set<Message>, h: Hash)
    requires BallotsSent(sys, s, more) && Precommit(s.height, 0, sys.Me(k), Some(h)) in more
    requires t.prevotes == s.prevotes && t.precommits == RecordOwn(s.precommits, (s.height, 0), sys.Me(k), Some(h))
    ensures BallotsSent(sys, t, more)
  {
  }

  lemma {:induction false} OwnPrevoteSent(sys: System, k: Id, s: Local, t: Local, more: set<Message>, h: Hash)
    requires BallotsSent(sys, s, more) && Prevote(s.height, 0, sys.Me(k), Some(h)) in more
    requires t.precommits == s.precommits && t.prevotes == RecordOwn(s.prevotes, (s.height, 0), sys.Me(k), Some(h))
    ensures BallotsSent(sys, t, more)
  {
  }

  lemma {:induction false} OwnPrecommit(sys: System, k: Id, s: Local, t: Local, sent: set<Message>, m: Message)
    requires OwnMessages(sys, k, s, sent) && s.phase == PREVOTE && s.height >= 1
    requires t.height == s.height && t.phase == PRECOMMIT
    requires m.Precommit? && m.height == s.height && m.round == 0 && Author(m) == Some(k)
    requires PrecommitBacked(sys, m, sent)
    ensures OwnMessages(sys, k, t, sent + {m})
  {
    var more := sent + {m};
    OnceMore(k, sent, m);
    PrevotedFrame(sys, sent, more, m.height, m.blockHash.value);
    PrevotesBackedFrame(sys, k, sent, more);
    PrecommitsBackedFrame(sys, k, sent, more);
  }

  lemma {:induction false} CheckPrevotesStep(sys: System, k: Id, s: Local, sent: set<Message>)
    requires NodeInv(sys, k, s, sent)
    ensures var e := CheckPrevotes(sys.cfg, sys.Me(k), s);
            NodeInv(sys, k, e.local, sent + Elements(e.sent)) &&
            forall m :: m in e.sent ==> Author(m) == sys.Me(k)
  {
    var e := CheckPrevotes(sys.cfg, sys.Me(k), s);
    if s.phase != PREVOTE {
      assert sent + Elements(e.sent) == sent;
    } else {
      match QuorumHash(BallotAt(s.prevotes, (s.height, s.round)), |sys.cfg.validators|)
      case Some(h) =>
        var t := s.(phase := PRECOMMIT, precommits := RecordOwn(s.precommits, (s.height, 0), sys.Me(k), Some(h)));
        var m := Precommit(s.height, 0, sys.Me(k), Some(h));
        PrecommitCast(sys, k, s, sent, h, t, m);
        CheckPrecommitsStep(sys, k, t, sent + {m});
        assert e == Effect(CheckPrecommits(sys.cfg, t), [m]);
        assert Elements([m]) == {m};
      case None =>
        assert sent + Elements(e.sent) == sent;
    }
  }

  /** Learning the current proposal `p` (sent before, or this node's own) and casting the prevote. */
  lemma {:induction false} PrevoteCast(sys: System, k: Id, s: Local, sent: set<Message>, p: Message, m: Message)
    requires NodeInv(sys, k, s, sent) && s.phase == PROPOSE
    requires p.Proposal? && p.height == s.height && p.round == 0 && p.proposer == sys.Proposer(s.height)
    requires p in sent || p.proposer == sys.Me(k)
    requires m == Prevote(s.height, 0, sys.Me(k), Some(sys.cfg.hash(p.value)))
    ensures NodeInv(sys, k, Prevoted(sys.cfg, sys.Me(k), s, p.value), sent + {p} + {m})
  {
    var t, more := Prevoted(sys.cfg, sys.Me(k), s, p.value), sent + {p} + {m};
    hide OwnMessages, PrecommittedBy;
    BallotsFrame(sys, s, sent, more);
    CommitsFrame(sys, s, sent, more);
    OwnPrevoteSent(sys, k, s, t, more, sys.cfg.hash(p.value));
    hide BallotsSent;
    assert ProposalSeen(sys, t, more);
    if sys.Honest(k) {
      assert ProposedAs(sys, more, s.height, sys.cfg.hash(p.value), p.value);
      OwnPrevote(sys, k, s, t, sent, p, m);
    }
  }

  lemma {:induction false} OwnPrevote(sys: System, k: Id, s: Local, t: Local, sent: set<Message>, p: Message,
      m: Message)
    requires OwnMessages(sys, k, s, sent) && s.phase == PROPOSE && s.height >= 1
    requires t.height == s.height && t.phase == PREVOTE
    requires p.Proposal? && p.height == s.height && p.round == 0
    requires p in sent || Author(p) == Some(k)
    requires m.Prevote? && m.height == s.height && m.round == 0 && Author(m) == Some(k)
    requires PrevoteBacked(sys, m, sent + {p} + {m})
    ensures OwnMessages(sys, k, t, sent + {p} + {m})
  {
    var more := sent + {p} + {m};
    if p !in sent {
      OnceMore(k, sent, p);
    } else {
      assert sent + {p} == sent;
    }
    OnceMore(k, sent + {p}, m);
    PrevotesBackedFrame(sys, k, sent, more);
    PrecommitsBackedFrame(sys, k, sent, more);
  }

  lemma LateProposal(sys: System, k: Id, s: Local, sent: set<Message>, p: Message)
    requires NodeInv(sys, k, s, sent) && p.Proposal? && p in sent && s.phase != PROPOSE
    requires Current(s, p) && p.proposer == sys.Proposer(s.height)
    ensures NodeInv(sys, k, s.(proposal := Some(p.value), values := s.values[sys.cfg.hash(p.value) := p.value]), sent)
  {
  }

  /** Handling a proposal that is in the network or that this node is just making. */
  lemma {:induction false} ProposalStep(sys: System, k: Id, s: Local, sent: set<Message>, p: Message)
    requires NodeInv(sys, k, s, sent) && p.Proposal?
    requires p in sent || (MayPropose(sys.cfg, sys.Me(k), s) && p == Proposal(s.height, s.round, sys.Me(k), p.value))
    ensures var e := HandleProposal(sys.cfg, sys.Me(k), s, p);
            NodeInv(sys, k, e.local, sent + {p} + Elements(e.sent)) &&
            forall m :: m in e.sent ==> Author(m) == sys.Me(k)
  {
    hide BallotsSent, CommitsCertified, OwnMessages;
    var e := HandleProposal(sys.cfg, sys.Me(k), s, p);
    if !Current(s, p) || p.proposer != sys.Proposer(s.height) {
      assert sent + {p} + Elements(e.sent) == sent;
    } else if s.phase != PROPOSE {
      LateProposal(sys, k, s, sent, p);
      assert sent + {p} + Elements(e.sent) == sent;
    } else {
      var t := Prevoted(sys.cfg, sys.Me(k), s, p.value);
      var m := Prevote(s.height, 0, sys.Me(k), Some(sys.cfg.hash(p.value)));
      PrevoteCast(sys, k, s, sent, p, m);
      CheckPrevotesStep(sys, k, t, sent + {p} + {m});
      var f := CheckPrevotes(sys.cfg, sys.Me(k), t);
      assert e == Effect(f.local, [m] + f.sent);
      assert sent + {p} + Elements(e.sent) == sent + {p} + {m} + Elements(f.sent);
    }
  }

  lemma PrevoteHeard(sys: System, k: Id, s: Local, sent: set<Message>, v: Id, h: Option<Hash>)
    requires NodeInv(sys, k, s, sent) && Prevote(s.height, 0, Some(v), h) in sent && v in sys.cfg.validators
    ensures NodeInv(sys, k, s.(prevotes := Record(s.prevotes, (s.height, s.round), v, h)), sent)
  {
  }

  lemma PrecommitHeard(sys: System, k: Id, s: Local, sent: set<Message>, v: Id, h: Option<Hash>)
    requires NodeInv(sys, k, s, sent) && Precommit(s.height, 0, Some(v), h) in sent && v in sys.cfg.validators
    ensures NodeInv(sys, k, s.(precommits := Record(s.precommits, (s.height, s.round), v, h)), sent)
  {
  }

  lemma {:induction false} VoteStep(sys: System, k: Id, s: Local, sent: set<Message>, m: Message)
    requires NodeInv(sys, k, s, sent) && !m.Proposal? && m in sent
    ensures var e := Handle(sys.cfg, sys.Me(k), s, m);
            NodeInv(sys, k, e.local, sent + Elements(e.sent)) &&
            forall w :: w in e.sent ==> Author(w) == sys.Me(k)
  {
    var e := Handle(sys.cfg, sys.Me(k), s, m);
    var v := Author(m);
    if !Current(s, m) || v.None? || v.value !in sys.cfg.validators {
      assert sent + Elements(e.sent) == sent;
    } else if m.Prevote? {
      PrevoteHeard(sys, k, s, sent, v.value, m.blockHash);
      CheckPrevotesStep(sys, k, s.(prevotes := Record(s.prevotes, (s.height, s.round), v.value, m.blockHash)), sent);
    } else {
      PrecommitHeard(sys, k, s, sent, v.value, m.blockHash);
      CheckPrecommitsStep(sys, k, s.(precommits := Record(s.precommits, (s.height, s.round), v.value, m.blockHash)),
        sent);
      assert sent + Elements(e.sent) == sent;
    }
  }

  // ---------------------------------------------------------------- the whole system

  lemma {:induction false} OthersKeep(sys: System, g: Global, k: Id, local: Local, news: set<Message>)
    requires Inv(sys, g) && k in g.nodes
    requires NodeInv(sys, k, local, g.sent + news)
    requires forall m :: m in news ==> Author(m) == sys.Me(k)
    ensures Inv(sys, Global(g.nodes[k := local], g.sent + news))
  {
    hide NodeInv;
    forall j | j in g.nodes && j != k ensures NodeInv(sys, j, g.nodes[j], g.sent + news) {
      NodeFrame(sys, j, g.nodes[j], g.sent, g.sent + news);
    }
  }

  lemma {:induction false} DeliverKeepsInv(sys: System, g: Global, k: Id, m: Message)
    requires Inv(sys, g) && k in g.nodes && m in g.sent
    ensures Inv(sys, Apply(sys, g, Deliver(k, m)))
  {
    var e := Handle(sys.cfg, sys.Me(k), g.nodes[k], m);
    if m.Proposal? {
      ProposalStep(sys, k, g.nodes[k], g.sent, m);
      assert g.sent + {m} == g.sent;
    } else {
      VoteStep(sys, k, g.nodes[k], g.sent, m);
    }
    OthersKeep(sys, g, k, e.local, Elements(e.sent));
  }

  lemma {:induction false} ProposeStep(sys: System, k: Id, s: Local, sent: set<Message>, v: Value)
    requires NodeInv(sys, k, s, sent)
    ensures var e := Propose(sys.cfg, sys.Me(k), s, v);
            NodeInv(sys, k, e.local, sent + Elements(e.sent)) &&
            forall w :: w in e.sent ==> Author(w) == sys.Me(k)
  {
    var e := Propose(sys.cfg, sys.Me(k), s, v);
    if MayPropose(sys.cfg, sys.Me(k), s) {
      var p := Proposal(s.height, s.round, sys.Me(k), v);
      var f := HandleProposal(sys.cfg, sys.Me(k), s, p);
      ProposalStep(sys, k, s, sent, p);
      assert e == Effect(f.local, [p] + f.sent);
      assert sent + Elements(e.sent) == sent + {p} + Elements(f.sent);
    } else {
      assert sent + Elements(e.sent) == sent;
    }
  }

  lemma {:induction false} ProposeKeepsInv(sys: System, g: Global, k: Id, v: Value)
    requires Inv(sys, g) && k in g.nodes
    ensures Inv(sys, Apply(sys, g, ProposeAt(k, v)))
  {
    var e := Propose(sys.cfg, sys.Me(k), g.nodes[k], v);
    ProposeStep(sys, k, g.nodes[k], g.sent, v);
    OthersKeep(sys, g, k, e.local, Elements(e.sent));
  }

  lemma {:induction false} ApplyKeepsInv(sys: System, g: Global, a: Action)
    requires Inv(sys, g) && Enabled(sys, g, a)
    ensures Inv(sys, Apply(sys, g, a))
  {
    match a
    case Deliver(k, m) => DeliverKeepsInv(sys, g, k, m);
    case ProposeAt(k, v) => ProposeKeepsInv(sys, g, k, v);
    case Forge(m) =>
      forall j | j in g.nodes ensures NodeInv(sys, j, g.nodes[j], g.sent + {m}) {
        NodeFrame(sys, j, g.nodes[j], g.sent, g.sent + {m});
      }
  }

  lemma {:induction false} ReachableInv(sys: System, actions: seq<Action>, g: Global)
    requires Reaches(sys, actions, g)
    ensures Inv(sys, g)
  {
    if actions != [] {
      var before :| StepFrom(sys, actions, before, g);
      ReachableInv(sys, actions[..|actions| - 1], before);
      ApplyKeepsInv(sys, before, actions[|actions| - 1]);
    }
  }

  // ---------------------------------------------------------------- theorems

  lemma {:induction false} OwnOf(sys: System, g: Global, k: Id)
    requires Inv(sys, g) && sys.Honest(k)
    ensures k in g.nodes && OwnMessages(sys, k, g.nodes[k], g.sent)
  {
    assert k in g.nodes && NodeInv(sys, k, g.nodes[k], g.sent);
  }

  /** All precommits of correct validators at one height carry one hash. */
  lemma {:induction false} OnePrecommitHash(sys: System, g: Global, height: int, u: Id, w: Id, a: Option<Hash>,
      b: Option<Hash>)
    requires sys.Valid() && Inv(sys, g) && sys.Honest(u) && sys.Honest(w)
    requires Precommit(height, 0, Some(u), a) in g.sent && Precommit(height, 0, Some(w), b) in g.sent
    ensures a == b && a.Some?
  {
    var m, n := Precommit(height, 0, Some(u), a), Precommit(height, 0, Some(w), b);
    OwnOf(sys, g, u);
    OwnOf(sys, g, w);
    assert PrecommitBacked(sys, m, g.sent) && PrecommitBacked(sys, n, g.sent);
    var q1 :| PrevotedBy(sys, g.sent, height, a.value, q1);
    var q2 :| PrevotedBy(sys, g.sent, height, b.value, q2);
    var v := QuorumsMeet(sys, q1, q2);
    OwnOf(sys, g, v);
    assert Clash(Prevote(height, 0, Some(v), a), Prevote(height, 0, Some(v), b));
  }

  /** A certificate holds the precommit of a correct validator. */
  lemma {:induction false} CertificateWitness(sys: System, g: Global, k: Id, height: int) returns (v: Id)
    requires sys.Valid() && Inv(sys, g) && k in g.nodes && height in g.nodes[k].certified
    ensures sys.Honest(v) && Precommit(height, 0, Some(v), Some(g.nodes[k].certified[height].hash)) in g.sent
  {
    assert CommitsCertified(sys, g.nodes[k], g.sent);
    var q :| PrecommittedBy(sys, g.sent, height, g.nodes[k].certified[height].hash, q);
    v := QuorumsMeet(sys, q, q);
  }

  /** Agreement: no two correct nodes ever commit different hashes at a height, whatever the
      order, duplication or loss of messages and whatever the faulty validators send. */
  lemma {:induction false} Agreement(sys: System, actions: seq<Action>, g: Global, i: Id, j: Id, height: int)
    requires sys.Valid() && Reaches(sys, actions, g)
    requires i in g.nodes && j in g.nodes
    requires height in g.nodes[i].certified && height in g.nodes[j].certified
    ensures g.nodes[i].certified[height].hash == g.nodes[j].certified[height].hash
  {
    ReachableInv(sys, actions, g);
    var u := CertificateWitness(sys, g, i, height);
    var w := CertificateWitness(sys, g, j, height);
    OnePrecommitHash(sys, g, height, u, w, Some(g.nodes[i].certified[height].hash),
      Some(g.nodes[j].certified[height].hash));
  }

  /** A node's committed heights are exactly those it has left behind. */
  lemma {:induction false} CommittedHeights(sys: System, actions: seq<Action>, g: Global, k: Id)
    requires Reaches(sys, actions, g) && k in g.nodes
    ensures g.nodes[k].height >= 1
    ensures forall h :: h in g.nodes[k].committed <==> 1 <= h < g.nodes[k].height
    ensures g.nodes[k].certified.Keys == g.nodes[k].committed.Keys
  {
    ReachableInv(sys, actions, g);
    assert CommitsCertified(sys, g.nodes[k], g.sent) && ProposalSeen(sys, g.nodes[k], g.sent);
  }

  /** The hash of a correct precommit was prevoted by a correct validator, hence proposed in
      the name of the scheduled proposer. */
  lemma {:induction false} PrecommitWasProposed(sys: System, g: Global, height: int, u: Id, h: Hash)
    requires sys.Valid() && Inv(sys, g) && sys.Honest(u)
    requires Precommit(height, 0, Some(u), Some(h)) in g.sent
    ensures exists v :: ProposedAs(sys, g.sent, height, h, v)
  {
    var m := Precommit(height, 0, Some(u), Some(h));
    OwnOf(sys, g, u);
    assert PrecommitBacked(sys, m, g.sent);
    var q :| PrevotedBy(sys, g.sent, height, h, q);
    var w := QuorumsMeet(sys, q, q);
    OwnOf(sys, g, w);
    assert PrevoteBacked(sys, Prevote(height, 0, Some(w), Some(h)), g.sent);
  }

  /** Certificates: correct precommits of a height agree on one hash, the hash of a value
      proposed in the name of the scheduled proposer. */
  lemma {:induction false} Certificates(sys: System, actions: seq<Action>, g: Global, height: int, u: Id, w: Id,
      a: Option<Hash>, b: Option<Hash>)
    requires sys.Valid() && Reaches(sys, actions, g) && sys.Honest(u) && sys.Honest(w)
    requires Precommit(height, 0, Some(u), a) in g.sent && Precommit(height, 0, Some(w), b) in g.sent
    ensures a == b && a.Some? && exists v :: ProposedAs(sys, g.sent, height, a.value, v)
  {
    ReachableInv(sys, actions, g);
    OnePrecommitHash(sys, g, height, u, w, a, b);
    PrecommitWasProposed(sys, g, height, u, a.value);
  }

  /** Every committed value hashes to something proposed for that height. */
  lemma {:induction false} CommittedWasProposed(sys: System, g: Global, k: Id, height: int)
    requires sys.Valid() && Inv(sys, g) && k in g.nodes && height in g.nodes[k].certified
    ensures g.nodes[k].committed[height].Some?
    ensures exists v :: ProposedAs(sys, g.sent, height, sys.cfg.hash(g.nodes[k].committed[height].value), v)
  {
    assert CommitsCertified(sys, g.nodes[k], g.sent);
    if g.nodes[k].certified[height].seen {
      var u := CertificateWitness(sys, g, k, height);
      PrecommitWasProposed(sys, g, height, u, g.nodes[k].certified[height].hash);
    }
  }

  /** When the scheduled proposer is correct, every committed value is its single proposal. */
  lemma {:induction false} CorrectProposer(sys: System, actions: seq<Action>, g: Global, k: Id, height: int)
    requires sys.Valid() && sys.Injective() && Reaches(sys, actions, g)
    requires k in g.nodes && height in g.nodes[k].committed
    requires sys.Proposer(height).Some? && sys.Honest(sys.Proposer(height).value)
    ensures g.nodes[k].committed[height].Some?
    ensures Proposal(height, 0, sys.Proposer(height), g.nodes[k].committed[height].value) in g.sent
    ensures forall r, v :: Proposal(height, r, sys.Proposer(height), v) in g.sent ==>
                           v == g.nodes[k].committed[height].value
  {
    ReachableInv(sys, actions, g);
    assert CommitsCertified(sys, g.nodes[k], g.sent);
    CommittedWasProposed(sys, g, k, height);
    var value := g.nodes[k].committed[height].value;
    var v :| ProposedAs(sys, g.sent, height, sys.cfg.hash(value), v);
    var p := sys.Proposer(height).value;
    OwnOf(sys, g, p);
    var m := Proposal(height, 0, Some(p), v);
    assert m in g.sent && v == value;
    forall r, u | Proposal(height, r, Some(p), u) in g.sent ensures u == v {
      assert Clash(m, Proposal(height, r, Some(p), u));
    }
  }

  /** Exactly when a commit yields the certified value: the winning hash was among the values
      seen, which is the guard of the dictionary lookup. */
  lemma {:induction false} CommittedValueExact(sys: System, actions: seq<Action>, g: Global, k: Id, height: int)
    requires Reaches(sys, actions, g) && k in g.nodes && height in g.nodes[k].committed
    ensures g.nodes[k].committed[height].Some? && height in g.nodes[k].certified
    ensures g.nodes[k].certified[height].seen <==>
            sys.cfg.hash(g.nodes[k].committed[height].value) == g.nodes[k].certified[height].hash
  {
    ReachableInv(sys, actions, g);
    assert CommitsCertified(sys, g.nodes[k], g.sent);
  }

  /** Exactly when two correct nodes commit the same value at a height: both had seen the winning
      value, or neither had and the proposals they had last accepted are the same. */
  lemma {:induction false} ValueAgreement(sys: System, actions: seq<Action>, g: Global, i: Id, j: Id, height: int)
    requires sys.Valid() && sys.Injective() && Reaches(sys, actions, g)
    requires i in g.nodes && j in g.nodes
    requires height in g.nodes[i].certified && height in g.nodes[j].certified
    ensures height in g.nodes[i].committed && height in g.nodes[j].committed
    ensures var c, d := g.nodes[i].certified[height], g.nodes[j].certified[height];
            g.nodes[i].committed[height] == g.nodes[j].committed[height] <==>
            (c.seen && d.seen) || (!c.seen && !d.seen && c.last == d.last)
  {
    ReachableInv(sys, actions, g);
    assert CommitsCertified(sys, g.nodes[i], g.sent) && CommitsCertified(sys, g.nodes[j], g.sent);
    CommittedHeights(sys, actions, g, i);
    CommittedHeights(sys, actions, g, j);
    Agreement(sys, actions, g, i, j, height);
    CommittedValueExact(sys, actions, g, i, height);
    CommittedValueExact(sys, actions, g, j, height);
  }

  predicate Extends(s: Local, t: Local, h: int) {
    h in s.committed && h in t.committed && t.committed[h] == s.committed[h]
  }

  lemma {:induction false} CheckKeepsCommits(cfg: Config, me: Option<Id>, s: Local, h: int)
    requires h in s.committed && h < s.height
    ensures Extends(s, CheckPrecommits(cfg, s), h)
    ensures Extends(s, CheckPrevotes(cfg, me, s).local, h)
  {
    hide QuorumHash;
  }

  lemma {:induction false} HandleKeepsCommits(cfg: Config, me: Option<Id>, s: Local, m: Message, h: int)
    requires h in s.committed && h < s.height
    ensures Extends(s, Handle(cfg, me, s, m).local, h)
  {
    hide CheckPrecommits, CheckPrevotes, QuorumHash;
    match m
    case Proposal(_, _, _, v) => CheckKeepsCommits(cfg, me, Prevoted(cfg, me, s, v), h);
    case Prevote(_, _, v, b) =>
      if v.Some? {
        CheckKeepsCommits(cfg, me, s.(prevotes := Record(s.prevotes, (s.height, s.round), v.value, b)), h);
      }
    case Precommit(_, _, v, b) =>
      if v.Some? {
        CheckKeepsCommits(cfg, me, s.(precommits := Record(s.precommits, (s.height, s.round), v.value, b)), h);
      }
  }

  /** A commit is final: no later step changes what a node committed at a height. */
  lemma {:induction false} CommitIsFinal(sys: System, actions: seq<Action>, g: Global, a: Action, k: Id, h: int)
    requires Reaches(sys, actions, g) && Enabled(sys, g, a)
    requires k in g.nodes && h in g.nodes[k].committed
    ensures var t := Apply(sys, g, a);
            k in t.nodes && h in t.nodes[k].committed && t.nodes[k].committed[h] == g.nodes[k].committed[h]
  {
    hide Handle;
    CommittedHeights(sys, actions, g, k);
    match a
    case Deliver(j, m) => HandleKeepsCommits(sys.cfg, sys.Me(k), g.nodes[k], m, h);
    case ProposeAt(j, v) =>
      var s := g.nodes[k];
      HandleKeepsCommits(sys.cfg, sys.Me(k), s, Proposal(s.height, s.round, sys.Me(k), v), h);
    case Forge(m) =>
  }
}
