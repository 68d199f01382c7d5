/** Value agreement is not promised by the engine: a faulty proposer that proposes two values
    makes correct nodes certify one hash and still commit different values. */
module TendermintEquivocation {
  import opened Common
  import opened Tendermint
  import opened TendermintSystem

  /** Four validators, the scheduled proposer of height 1 faulty. */
  ghost predicate Scene(sys: System, a: Id, b: Id, c: Id, d: Id, x: Value, y: Value) {
    && sys.cfg.validators == [a, b, c, d]
    && a != b && a != c && a != d && b != c && b != d && c != d
    && sys.correct == {a, c, d}
    && sys.cfg.hash(x) != sys.cfg.hash(y)
  }

  lemma {:induction false} Extend(sys: System, actions: seq<Action>, g: Global, a: Action)
    requires Reaches(sys, actions, g) && Enabled(sys, g, a)
    ensures Reaches(sys, actions + [a], Apply(sys, g, a))
  {
    assert (actions + [a])[..|actions|] == actions;
    assert StepFrom(sys, actions + [a], g, Apply(sys, g, a));
  }

  lemma {:induction false} NoQuorum(ballot: Ballot, n: nat)
    requires |ballot| < Quorum(n)
    ensures QuorumHash(ballot, n) == None
  {
    forall h ensures |Supporters(ballot, h)| < Quorum(n) {
      SubsetSize(Supporters(ballot, h), ballot.Keys);
    }
  }

  lemma {:induction false} SplitBallot(ballot: Ballot, u: Id, v: Id, w: Id, g: Hash, h: Hash)
    requires u != v && u != w && v != w && g != h
    requires ballot == map[u := Some(g), v := Some(h), w := Some(h)]
    ensures QuorumHash(ballot, 4) == None
  {
    forall k ensures |Supporters(ballot, k)| < 3 {
      if k == g {
        assert Supporters(ballot, k) == {u};
      } else {
        SubsetSize(Supporters(ballot, k), {v, w});
      }
    }
  }

  lemma {:induction false} ThreeVotes(ballot: Ballot, u: Id, v: Id, w: Id, h: Hash)
    requires u != v && u != w && v != w && |ballot| <= 4
    requires u in ballot && v in ballot && w in ballot
    requires ballot[u] == ballot[v] == ballot[w] == Some(h)
    ensures QuorumHash(ballot, 4) == Some(h)
  {
    SubsetSize({u, v, w}, Supporters(ballot, h));
    assert |{u, v, w}| == 3;
    QuorumHashUnique(ballot, 4, h);
  }

  /** A node of height 1 that has handled the proposal of `v`. */
  function At(cfg: Config, phase: Phase, v: Value, prevotes: Ballot, precommits: Ballot): Local {
    Local(1, 0, phase, Some(v), map[(1, 0) := prevotes],
          if precommits == map[] then map[] else map[(1, 0) := precommits],
          map[cfg.hash(v) := v], map[], map[])
  }

  lemma {:induction false} FirstPrevote(sys: System, k: Id, v: Value)
    requires |sys.cfg.validators| == 4 && k in sys.cfg.validators
    ensures Handle(sys.cfg, Some(k), INITIAL, Proposal(1, 0, sys.Proposer(1), v)) ==
            Effect(At(sys.cfg, PREVOTE, v, map[k := Some(sys.cfg.hash(v))], map[]),
                   [Prevote(1, 0, Some(k), Some(sys.cfg.hash(v)))])
  {
    NoQuorum(map[k := Some(sys.cfg.hash(v))], 4);
  }

  lemma MorePrevotes(cfg: Config, k: Id, v: Value, ballot: Ballot, w: Id, h: Hash)
    requires |cfg.validators| == 4 && w in cfg.validators
    requires QuorumHash(ballot[w := Some(h)], 4) == None
    ensures Handle(cfg, Some(k), At(cfg, PREVOTE, v, ballot, map[]), Prevote(1, 0, Some(w), Some(h))) ==
            Effect(At(cfg, PREVOTE, v, ballot[w := Some(h)], map[]), [])
  {
  }

  lemma {:induction false} LastPrevote(cfg: Config, k: Id, v: Value, ballot: Ballot, w: Id, h: Hash)
    requires |cfg.validators| == 4 && w in cfg.validators
    requires QuorumHash(ballot[w := Some(h)], 4) == Some(h)
    ensures Handle(cfg, Some(k), At(cfg, PREVOTE, v, ballot, map[]), Prevote(1, 0, Some(w), Some(h))) ==
            Effect(At(cfg, PRECOMMIT, v, ballot[w := Some(h)], map[k := Some(h)]), [Precommit(1, 0, Some(k), Some(h))])
  {
    NoQuorum(map[k := Some(h)], 4);
  }

  lemma {:induction false} TwoPrecommits(cfg: Config, k: Id, v: Value, ballot: Ballot, u: Id, w: Id, h: Hash)
    requires |cfg.validators| == 4 && u in cfg.validators && w in cfg.validators
    requires k != u && k != w && u != w
    ensures var s0 := At(cfg, PRECOMMIT, v, ballot, map[k := Some(h)]);
            var s1 := Handle(cfg, Some(k), s0, Precommit(1, 0, Some(u), Some(h)));
            var s2 := Handle(cfg, Some(k), s1.local, Precommit(1, 0, Some(w), Some(h)));
            && s1.sent == [] && s2.sent == []
            && 1 in s2.local.committed && s2.local.committed[1] == Some(v)
            && 1 in s2.local.certified
            && s2.local.certified[1] == Certificate(h, h == cfg.hash(v), Some(v))
  {
    FirstPrecommit(cfg, k, v, ballot, u, h);
    LastPrecommit(cfg, k, v, ballot, u, w, h);
    hide Handle, At;
  }

  lemma {:induction false} FirstPrecommit(cfg: Config, k: Id, v: Value, ballot: Ballot, u: Id, h: Hash)
    requires |cfg.validators| == 4 && u in cfg.validators && k != u
    ensures Handle(cfg, Some(k), At(cfg, PRECOMMIT, v, ballot, map[k := Some(h)]), Precommit(1, 0, Some(u), Some(h))) ==
            Effect(At(cfg, PRECOMMIT, v, ballot, map[k := Some(h), u := Some(h)]), [])
  {
    NoQuorum(map[k := Some(h), u := Some(h)], 4);
    hide QuorumHash;
  }

  lemma {:induction false} LastPrecommit(cfg: Config, k: Id, v: Value, ballot: Ballot, u: Id, w: Id, h: Hash)
    requires |cfg.validators| == 4 && w in cfg.validators
    requires k != u && k != w && u != w
    ensures var s1 := At(cfg, PRECOMMIT, v, ballot, map[k := Some(h), u := Some(h)]);
            var s2 := Handle(cfg, Some(k), s1, Precommit(1, 0, Some(w), Some(h)));
            && s2.sent == []
            && 1 in s2.local.committed && s2.local.committed[1] == Some(v)
            && 1 in s2.local.certified
            && s2.local.certified[1] == Certificate(h, h == cfg.hash(v), Some(v))
  {
    ThreeVotes(map[k := Some(h), u := Some(h), w := Some(h)], k, u, w, h);
    hide QuorumHash;
  }

  lemma {:induction false} Deliveries(sys: System, k: Id, m: Message, actions: seq<Action>, g: Global, local: Local,
      sent: seq<Message>)
    returns (more: seq<Action>, next: Global)
    requires Reaches(sys, actions, g) && k in g.nodes && m in g.sent && k in sys.cfg.validators
    requires Handle(sys.cfg, Some(k), g.nodes[k], m) == Effect(local, sent)
    ensures Reaches(sys, more, next)
    ensures next.nodes == g.nodes[k := local] && next.sent == g.sent + Elements(sent)
  {
    Extend(sys, actions, g, Deliver(k, m));
    more, next := actions + [Deliver(k, m)], Apply(sys, g, Deliver(k, m));
  }

  lemma {:induction false} HearProposal(sys: System, k: Id, v: Value, actions: seq<Action>, g: Global)
    returns (more: seq<Action>, next: Global)
    requires |sys.cfg.validators| == 4 && k in sys.cfg.validators
    requires Reaches(sys, actions, g) && k in g.nodes && g.nodes[k] == INITIAL
    requires Proposal(1, 0, sys.Proposer(1), v) in g.sent
    ensures Reaches(sys, more, next)
    ensures next.nodes == g.nodes[k := At(sys.cfg, PREVOTE, v, map[k := Some(sys.cfg.hash(v))], map[])]
    ensures next.sent == g.sent + {Prevote(1, 0, Some(k), Some(sys.cfg.hash(v)))}
  {
    FirstPrevote(sys, k, v);
    var m := Prevote(1, 0, Some(k), Some(sys.cfg.hash(v)));
    more, next := Deliveries(sys, k, Proposal(1, 0, sys.Proposer(1), v), actions, g,
                             At(sys.cfg, PREVOTE, v, map[k := Some(sys.cfg.hash(v))], map[]), [m]);
    assert Elements([m]) == {m};
  }

  lemma {:induction false} HearPrevote(sys: System, k: Id, v: Value, ballot: Ballot, w: Id, h: Hash,
      actions: seq<Action>, g: Global)
    returns (more: seq<Action>, next: Global)
    requires |sys.cfg.validators| == 4 && k in sys.cfg.validators && w in sys.cfg.validators
    requires Reaches(sys, actions, g) && k in g.nodes && g.nodes[k] == At(sys.cfg, PREVOTE, v, ballot, map[])
    requires Prevote(1, 0, Some(w), Some(h)) in g.sent && QuorumHash(ballot[w := Some(h)], 4) == None
    ensures Reaches(sys, more, next) && next.sent == g.sent
    ensures next.nodes == g.nodes[k := At(sys.cfg, PREVOTE, v, ballot[w := Some(h)], map[])]
  {
    MorePrevotes(sys.cfg, k, v, ballot, w, h);
    more, next := Deliveries(sys, k, Prevote(1, 0, Some(w), Some(h)), actions, g,
                             At(sys.cfg, PREVOTE, v, ballot[w := Some(h)], map[]), []);
    assert Elements<Message>([]) == {};
  }

  lemma {:induction false} HearLastPrevote(sys: System, k: Id, v: Value, ballot: Ballot, w: Id, h: Hash,
      actions: seq<Action>, g: Global)
    returns (more: seq<Action>, next: Global)
    requires |sys.cfg.validators| == 4 && k in sys.cfg.validators && w in sys.cfg.validators
    requires Reaches(sys, actions, g) && k in g.nodes && g.nodes[k] == At(sys.cfg, PREVOTE, v, ballot, map[])
    requires Prevote(1, 0, Some(w), Some(h)) in g.sent && QuorumHash(ballot[w := Some(h)], 4) == Some(h)
    ensures Reaches(sys, more, next) && next.sent == g.sent + {Precommit(1, 0, Some(k), Some(h))}
    ensures next.nodes == g.nodes[k := At(sys.cfg, PRECOMMIT, v, ballot[w := Some(h)], map[k := Some(h)])]
  {
    LastPrevote(sys.cfg, k, v, ballot, w, h);
    var m := Precommit(1, 0, Some(k), Some(h));
    more, next := Deliveries(sys, k, Prevote(1, 0, Some(w), Some(h)), actions, g,
                             At(sys.cfg, PRECOMMIT, v, ballot[w := Some(h)], map[k := Some(h)]), [m]);
    assert Elements([m]) == {m};
  }

  lemma {:induction false} HearPrecommits(sys: System, k: Id, v: Value, ballot: Ballot, u: Id, w: Id, h: Hash,
      actions: seq<Action>, g: Global)
    returns (more: seq<Action>, next: Global)
    requires |sys.cfg.validators| == 4 && k in sys.cfg.validators && u in sys.cfg.validators && w in sys.cfg.validators
    requires k != u && k != w && u != w
    requires Reaches(sys, actions, g) && k in g.nodes
    requires g.nodes[k] == At(sys.cfg, PRECOMMIT, v, ballot, map[k := Some(h)])
    requires Precommit(1, 0, Some(u), Some(h)) in g.sent && Precommit(1, 0, Some(w), Some(h)) in g.sent
    ensures Reaches(sys, more, next) && next.sent == g.sent
    ensures next.nodes.Keys == g.nodes.Keys && forall j :: j in g.nodes && j != k ==> next.nodes[j] == g.nodes[j]
    ensures 1 in next.nodes[k].committed && next.nodes[k].committed[1] == Some(v)
    ensures 1 in next.nodes[k].certified && next.nodes[k].certified[1] == Certificate(h, h == sys.cfg.hash(v), Some(v))
  {
    TwoPrecommits(sys.cfg, k, v, ballot, u, w, h);
    var s1 := Handle(sys.cfg, Some(k), g.nodes[k], Precommit(1, 0, Some(u), Some(h)));
    var s2 := Handle(sys.cfg, Some(k), s1.local, Precommit(1, 0, Some(w), Some(h)));
    more, next := Deliveries(sys, k, Precommit(1, 0, Some(u), Some(h)), actions, g, s1.local, []);
    assert Elements<Message>([]) == {};
    more, next := Deliveries(sys, k, Precommit(1, 0, Some(w), Some(h)), more, next, s2.local, []);
  }

  lemma {:induction false} ForgeAll(sys: System, a: Id, b: Id, c: Id, d: Id, x: Value, y: Value)
    returns (actions: seq<Action>, g: Global)
    requires Scene(sys, a, b, c, d, x, y)
    ensures Reaches(sys, actions, g) && g.nodes == Start(sys).nodes
    ensures Proposal(1, 0, Some(b), x) in g.sent && Proposal(1, 0, Some(b), y) in g.sent
    ensures Prevote(1, 0, Some(b), Some(sys.cfg.hash(x))) in g.sent
    ensures Precommit(1, 0, Some(b), Some(sys.cfg.hash(x))) in g.sent
  {
    hide Handle, HandleProposal, Propose;
    var h := sys.cfg.hash(x);
    actions, g := [], Start(sys);
    var forged := [Proposal(1, 0, Some(b), x), Proposal(1, 0, Some(b), y),
                   Prevote(1, 0, Some(b), Some(h)), Precommit(1, 0, Some(b), Some(h))];
    var i := 0;
    while i < 4
      invariant 0 <= i <= 4 && Reaches(sys, actions, g) && g.nodes == Start(sys).nodes
      invariant forall j :: 0 <= j < i ==> forged[j] in g.sent
    {
      Extend(sys, actions, g, Forge(forged[i]));
      actions, g := actions + [Forge(forged[i])], Apply(sys, g, Forge(forged[i]));
      i := i + 1;
    }
    assert forged[0] in g.sent && forged[1] in g.sent && forged[2] in g.sent && forged[3] in g.sent;
  }

  /** Everybody prevotes: `a` and `c` for `x`, `d` for `y`. */
  lemma {:induction false} Prevotes(sys: System, a: Id, b: Id, c: Id, d: Id, x: Value, y: Value)
    returns (actions: seq<Action>, g: Global)
    requires Scene(sys, a, b, c, d, x, y)
    ensures Reaches(sys, actions, g) && a in g.nodes && d in g.nodes
    ensures g.nodes[a] == At(sys.cfg, PREVOTE, x, map[a := Some(sys.cfg.hash(x))], map[])
    ensures g.nodes[d] == At(sys.cfg, PREVOTE, y, map[d := Some(sys.cfg.hash(y))], map[])
    ensures forall v :: v in {a, b, c} ==> Prevote(1, 0, Some(v), Some(sys.cfg.hash(x))) in g.sent
    ensures Precommit(1, 0, Some(b), Some(sys.cfg.hash(x))) in g.sent
  {
    actions, g := ForgeAll(sys, a, b, c, d, x, y);
    assert sys.Proposer(1) == Some(b);
    actions, g := HearProposal(sys, a, x, actions, g);
    actions, g := HearProposal(sys, c, x, actions, g);
    actions, g := HearProposal(sys, d, y, actions, g);
  }

  /** Both deciding nodes see three prevotes for `x` and precommit it. */
  lemma {:induction false} Precommits(sys: System, a: Id, b: Id, c: Id, d: Id, x: Value, y: Value)
    returns (actions: seq<Action>, g: Global, ba: Ballot, bd: Ballot)
    requires Scene(sys, a, b, c, d, x, y)
    ensures Reaches(sys, actions, g) && a in g.nodes && d in g.nodes
    ensures g.nodes[a] == At(sys.cfg, PRECOMMIT, x, ba, map[a := Some(sys.cfg.hash(x))])
    ensures g.nodes[d] == At(sys.cfg, PRECOMMIT, y, bd, map[d := Some(sys.cfg.hash(x))])
    ensures forall v :: v in {a, b, d} ==> Precommit(1, 0, Some(v), Some(sys.cfg.hash(x))) in g.sent
  {
    var h, e := sys.cfg.hash(x), sys.cfg.hash(y);
    actions, g := Prevotes(sys, a, b, c, d, x, y);

    ba := map[a := Some(h)];
    NoQuorum(ba[c := Some(h)], 4);
    actions, g := HearPrevote(sys, a, x, ba, c, h, actions, g);
    ba := ba[c := Some(h)];
    ThreeVotes(ba[b := Some(h)], a, b, c, h);
    actions, g := HearLastPrevote(sys, a, x, ba, b, h, actions, g);
    ba := ba[b := Some(h)];

    bd := map[d := Some(e)];
    NoQuorum(bd[a := Some(h)], 4);
    actions, g := HearPrevote(sys, d, y, bd, a, h, actions, g);
    bd := bd[a := Some(h)];
    assert bd[c := Some(h)] == map[d := Some(e), a := Some(h), c := Some(h)];
    SplitBallot(bd[c := Some(h)], d, a, c, e, h);
    actions, g := HearPrevote(sys, d, y, bd, c, h, actions, g);
    bd := bd[c := Some(h)];
    ThreeVotes(bd[b := Some(h)], a, b, c, h);
    actions, g := HearLastPrevote(sys, d, y, bd, b, h, actions, g);
    bd := bd[b := Some(h)];
  }

  /** For any four validators and any two values of different hashes there is a run in which
      two correct nodes hold the same certificate and different committed values. */
  lemma {:induction false} ValuesMayDiffer(sys: System, a: Id, b: Id, c: Id, d: Id, x: Value, y: Value)
    returns (actions: seq<Action>, g: Global)
    requires Scene(sys, a, b, c, d, x, y)
    ensures sys.Valid() && Reaches(sys, actions, g)
    ensures a in g.nodes && d in g.nodes
    ensures 1 in g.nodes[a].committed && 1 in g.nodes[d].committed
    ensures 1 in g.nodes[a].certified && 1 in g.nodes[d].certified
    ensures g.nodes[a].certified[1] == Certificate(sys.cfg.hash(x), true, Some(x))
    ensures g.nodes[d].certified[1] == Certificate(sys.cfg.hash(x), false, Some(y))
    ensures g.nodes[a].committed[1] == Some(x) && g.nodes[d].committed[1] == Some(y) && x != y
  {
    hide Handle, Supporters, Reaches, At;
    var ba, bd;
    actions, g, ba, bd := Precommits(sys, a, b, c, d, x, y);
    actions, g := HearPrecommits(sys, a, x, ba, d, b, sys.cfg.hash(x), actions, g);
    actions, g := HearPrecommits(sys, d, y, bd, a, b, sys.cfg.hash(x), actions, g);
    assert sys.Faulty() == {b};
    assert Distinct(sys.cfg.validators);
  }
}
