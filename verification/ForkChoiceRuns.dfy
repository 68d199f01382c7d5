/** Runs of the fork-aware chain: convergence, fork-choice progress and finality. */
module ForkChoiceRuns {
  import opened Common
  import opened ForkChoice

  datatype Offer = Offer(id: Id, parent: Id, work: int, payload: string)

  /** What a block says about itself; heights and cumulative work are derived. */
  datatype Declared = Declared(parent: Option<Id>, work: int, payload: string)

  function Blocks(t: Tree): map<Id, Declared> {
    map b | b in t :: Declared(t[b].parent, t[b].work, t[b].payload)
  }

  /** add_block, seen on the graph alone: unknown parents and known ids change nothing. */
  function Add(t: Tree, o: Offer): Tree {
    if o.parent in t && o.id !in t then t[o.id := Child(t, o.parent, o.work, o.payload)] else t
  }

  function Run(start: Tree, offers: seq<Offer>): Tree {
    if offers == [] then start
    else Add(Run(start, offers[..|offers| - 1]), offers[|offers| - 1])
  }

  ghost predicate Positive(offers: seq<Offer>) {
    forall o :: o in offers ==> o.work >= 1
  }

  lemma {:induction false} RunWellFormed(start: Tree, g: Id, offers: seq<Offer>)
    requires WellFormed(start, g)
    ensures WellFormed(Run(start, offers), g)
    ensures Heavy(start, g) && Positive(offers) ==> Heavy(Run(start, offers), g)
    ensures forall b :: b in start ==> b in Run(start, offers) && Run(start, offers)[b] == start[b]
  {
    if offers != [] {
      var n := |offers| - 1;
      RunWellFormed(start, g, offers[..n]);
      assert offers[n] in offers;
      assert forall o :: o in offers[..n] ==> o in offers;
      var t := Run(start, offers[..n]);
      if offers[n].parent in t && offers[n].id !in t {
        ExtendWellFormed(t, g, offers[n].id, offers[n].parent, offers[n].work, offers[n].payload);
      }
    }
  }

  // ------------------------------------------------------------------ convergence

  lemma {:induction false} SameBlock(t: Tree, u: Tree, g: Id, b: Id)
    requires WellFormed(t, g) && WellFormed(u, g) && Blocks(t) == Blocks(u)
    requires t[g].height == u[g].height && b in t
    ensures b in u && t[b] == u[b]
    decreases t[b].height - t[g].height
  {
    assert b in Blocks(t) && Blocks(t)[b] == Blocks(u)[b];
    if b != g {
      assert Attached(t, t[b]) && Attached(u, u[b]);
      SameBlock(t, u, g, t[b].parent.value);
    } else {
      assert g in Blocks(u);
    }
  }

  lemma {:induction false} SameTree(t: Tree, u: Tree, g: Id)
    requires WellFormed(t, g) && WellFormed(u, g) && Blocks(t) == Blocks(u)
    requires t[g].height == u[g].height
    ensures t == u
  {
    forall b | b in t ensures b in u && t[b] == u[b] {
      SameBlock(t, u, g, b);
    }
    forall b | b in u ensures b in t {
      SameBlock(u, t, g, b);
    }
  }

  /** Two nodes that hold the same blocks agree on everything: heights, work, links, tips and
      canonical chain, whatever the order in which the blocks arrived. */
  lemma {:induction false} Convergence(s: State, r: State, g: Id)
    requires Consistent(s, g) && Consistent(r, g)
    requires Blocks(s.nodes) == Blocks(r.nodes) && s.nodes[g].height == r.nodes[g].height
    ensures s == r
  {
    SameTree(s.nodes, r.nodes, g);
    SelectedUnique(s.nodes, s.canonical[|s.canonical| - 1], r.canonical[|r.canonical| - 1]);
  }

  /** Every offer is new and its parent has arrived before it. */
  ghost predicate ParentFirst(start: Tree, offers: seq<Offer>) {
    offers == [] ||
    var front := offers[..|offers| - 1];
    ParentFirst(start, front) && Fits(Run(start, front), offers[|offers| - 1])
  }

  predicate Fits(t: Tree, o: Offer) { o.parent in t && o.id !in t }

  ghost predicate Held(t: Tree, o: Offer) {
    o.id in t && Declared(t[o.id].parent, t[o.id].work, t[o.id].payload) == Declared(Some(o.parent), o.work, o.payload)
  }

  ghost predicate HoldsExactly(t: Tree, start: Tree, offers: seq<Offer>) {
    && (forall b :: b in start ==> b in t && t[b] == start[b])
    && (forall o :: o in offers ==> Held(t, o))
    && (forall b :: b in t && b !in start ==> exists o :: o in offers && o.id == b)
  }

  /** A parent-first run holds its start and its offers, and nothing else. */
  lemma {:induction false} RunBlocks(start: Tree, offers: seq<Offer>)
    requires ParentFirst(start, offers)
    ensures HoldsExactly(Run(start, offers), start, offers)
  {
    if offers != [] {
      var front, o := offers[..|offers| - 1], offers[|offers| - 1];
      RunBlocks(start, front);
      HoldsOneMore(Run(start, front), start, front, o);
      assert offers == front + [o];
    }
  }

  lemma {:induction false} HoldsOneMore(t: Tree, start: Tree, front: seq<Offer>, o: Offer)
    requires HoldsExactly(t, start, front) && Fits(t, o)
    ensures HoldsExactly(Add(t, o), start, front + [o])
  {
    var u, offers := Add(t, o), front + [o];
    forall x | x in offers ensures Held(u, x) {
      assert x in front ==> Held(t, x);
    }
    forall b | b in u && b !in start ensures exists x :: x in offers && x.id == b {
      if b == o.id {
        assert o in offers;
      } else {
        var x :| x in front && x.id == b;
        assert x in offers;
      }
    }
  }

  /** Any two parent-first orders of the same blocks build the same graph. */
  lemma {:induction false} OrderIndependent(start: Tree, g: Id, one: seq<Offer>, two: seq<Offer>)
    requires WellFormed(start, g)
    requires ParentFirst(start, one) && ParentFirst(start, two)
    requires forall o :: o in one <==> o in two
    ensures Run(start, one) == Run(start, two)
  {
    RunWellFormed(start, g, one);
    RunWellFormed(start, g, two);
    RunBlocks(start, one);
    RunBlocks(start, two);
    SameBlocks(Run(start, one), Run(start, two), start, one, two);
    SameTree(Run(start, one), Run(start, two), g);
  }

  lemma {:induction false} SameBlocks(t: Tree, u: Tree, start: Tree, one: seq<Offer>, two: seq<Offer>)
    requires HoldsExactly(t, start, one) && HoldsExactly(u, start, two)
    requires forall o :: o in one <==> o in two
    ensures Blocks(t) == Blocks(u)
  {
    SubBlocks(t, u, start, one, two);
    SubBlocks(u, t, start, two, one);
    MapEquality(Blocks(t), Blocks(u));
  }

  lemma {:induction false} SubBlocks(t: Tree, u: Tree, start: Tree, one: seq<Offer>, two: seq<Offer>)
    requires HoldsExactly(t, start, one) && HoldsExactly(u, start, two)
    requires forall o :: o in one ==> o in two
    ensures forall b :: b in Blocks(t) ==> b in Blocks(u) && Blocks(t)[b] == Blocks(u)[b]
  {
    forall b | b in t ensures b in u && Blocks(t)[b] == Blocks(u)[b] {
      if b !in start {
        var o :| o in one && o.id == b;
        assert Held(t, o) && Held(u, o);
      }
    }
  }

  // ------------------------------------------------------------------ tip and finality

  ghost function Best(t: Tree, g: Id): (b: Id)
    requires WellFormed(t, g)
    ensures Selected(t, b)
  {
    assert exists b :: Selected(t, b) by {
      TipsNonEmpty(t, g);
      var b := BestExists(t, Tips(t));
      assert Selected(t, b);
    }
    var b :| Selected(t, b);
    b
  }

  /** After any run the tip is the best of all blocks exactly when no block with children is better, and
      always after blocks that all add work. */
  lemma {:induction false} RunBest(start: Tree, g: Id, offers: seq<Offer>)
    requires WellFormed(start, g)
    ensures WellFormed(Run(start, offers), g)
    ensures var t := Run(start, offers);
            && (IsBest(t, Best(t, g)) <==> forall c :: c in t && Children(t, c) != {} ==> Better(t, Best(t, g), c))
            && (Heavy(start, g) && Positive(offers) ==> IsBest(t, Best(t, g)))
  {
    RunWellFormed(start, g, offers);
    hide Selected, Heavy, Run;
    BestTipIsBest(Run(start, offers), g, Best(Run(start, offers), g));
  }

  ghost function Canonical(t: Tree, g: Id): (path: seq<Id>)
    requires WellFormed(t, g)
    ensures path != [] && path[0] == g
  {
    PathTo(t, g, Best(t, g))
  }

  lemma {:induction false} AddWellFormed(t: Tree, g: Id, o: Offer)
    requires WellFormed(t, g)
    ensures WellFormed(Add(t, o), g)
  {
    if Fits(t, o) {
      ExtendWellFormed(t, g, o.id, o.parent, o.work, o.payload);
    }
  }

  /** A step at which the tip's work does not fall. */
  ghost predicate KeepsTipWork(t: Tree, g: Id, o: Offer)
    requires WellFormed(t, g)
  {
    Fits(t, o) ==> KeepsWork(t, Best(t, g), o.parent, o.work)
  }

  /** Over a whole run the tip's work never decreases while no block takes work away. */
  lemma {:induction false} TipWorkGrows(start: Tree, g: Id, offers: seq<Offer>, k: nat)
    requires WellFormed(start, g) && k <= |offers| && forall o :: o in offers[k..] ==> o.work >= 0
    requires WellFormed(Run(start, offers[..k]), g) && WellFormed(Run(start, offers), g)
    ensures var t, u := Run(start, offers[..k]), Run(start, offers);
            u[Best(u, g)].cumWork >= t[Best(t, g)].cumWork
    decreases |offers|
  {
    if k == |offers| {
      assert offers[..k] == offers;
    } else {
      var n := |offers| - 1;
      var front := offers[..n];
      assert front[..k] == offers[..k] && offers[k..] == front[k..] + [offers[n]];
      RunWellFormed(start, g, front);
      TipWorkGrows(start, g, front, k);
      assert offers[n] in offers[k..];
      AddTip(Run(start, front), g, offers[n]);
    }
  }

  /** A step keeps the tip's work exactly when KeepsTipWork says so. */
  lemma {:induction false} AddTip(t: Tree, g: Id, o: Offer)
    requires WellFormed(t, g) && WellFormed(Add(t, o), g)
    ensures var u := Add(t, o);
            && (o.work >= 1 ==> Best(u, g) == Best(t, g) || Best(u, g) == o.id)
            && (u[Best(u, g)].cumWork >= t[Best(t, g)].cumWork <==> KeepsTipWork(t, g, o))
  {
    var u := Add(t, o);
    if Fits(t, o) {
      TipMovesToNewBlock(t, g, o.id, o.parent, o.work, o.payload, Best(t, g), Best(u, g));
    } else {
      SelectedUnique(t, Best(t, g), Best(u, g));
    }
  }

  /** The longest-chain engines: genesis at height 0 without work, every block of work 1. */
  ghost predicate UnitWork(t: Tree, g: Id) {
    WellFormed(t, g) && t[g].height == 0 && t[g].work == 0 && forall b :: b in t && b != g ==> t[b].work == 1
  }

  lemma {:induction false} WorkIsHeight(t: Tree, g: Id, b: Id)
    requires UnitWork(t, g) && b in t
    ensures t[b].cumWork == t[b].height >= 0
    decreases t[b].height - t[g].height
  {
    if b != g {
      assert Attached(t, t[b]);
      WorkIsHeight(t, g, t[b].parent.value);
    }
  }

  /** The canonical prefix that the engine treats as decided. */
  ghost function Finalized(t: Tree, g: Id, confirmations: nat): seq<Id>
    requires WellFormed(t, g)
  {
    Buried(Canonical(t, g), confirmations)
  }

  function Buried(path: seq<Id>, confirmations: nat): seq<Id> {
    if |path| <= confirmations then [] else path[..|path| - confirmations]
  }

  lemma {:induction false} BuriedExtends(p: seq<Id>, q: seq<Id>, confirmations: nat)
    requires |q| >= |p| && CommonLength(p, q) >= 1
    ensures Buried(p, confirmations) <= Buried(q, confirmations) <==> |p| - CommonLength(p, q) <= confirmations
  {
    var n, c := CommonLength(p, q), confirmations;
    assert p[..n] == q[..n];
    if |p| > c && |p| - n <= c {
      assert p[..|p| - c] == p[..n][..|p| - c];
      assert q[..|q| - c][..|p| - c] == q[..n][..|p| - c];
    } else if |p| > c {
      assert n < |p| && p[..|p| - c][n] == p[n] != q[n] == q[..|q| - c][n];
    }
  }

  /** How many canonical blocks a step takes back. */
  ghost function Reverted(t: Tree, u: Tree, g: Id): int
    requires WellFormed(t, g) && WellFormed(u, g)
  {
    |Canonical(t, g)| - CommonLength(Canonical(t, g), Canonical(u, g))
  }

  /** A step extends the finalized prefix exactly when it reverts at most `confirmations` blocks. */
  lemma {:induction false} FinalityStep(t: Tree, g: Id, o: Offer, confirmations: nat)
    requires UnitWork(t, g) && o.work == 1
    ensures WellFormed(Add(t, o), g) && UnitWork(Add(t, o), g)
    ensures Finalized(t, g, confirmations) <= Finalized(Add(t, o), g, confirmations) <==>
            Reverted(t, Add(t, o), g) <= confirmations
  {
    AddWellFormed(t, g, o);
    var u := Add(t, o);
    AddTip(t, g, o);
    WorkIsHeight(t, g, Best(t, g));
    WorkIsHeight(u, g, Best(u, g));
    PathLength(t, g, Best(t, g));
    PathLength(u, g, Best(u, g));
    OldPathKept(t, g, o);
    PathsShare(u, g, Best(t, g), Best(u, g));
    BuriedExtends(Canonical(t, g), Canonical(u, g), confirmations);
  }

  lemma {:induction false} OldPathKept(t: Tree, g: Id, o: Offer)
    requires WellFormed(t, g) && WellFormed(Add(t, o), g)
    ensures Best(t, g) in Add(t, o) && PathTo(Add(t, o), g, Best(t, g)) == Canonical(t, g)
  {
    if Fits(t, o) {
      ExtendPath(t, g, o.id, Child(t, o.parent, o.work, o.payload), Best(t, g));
    }
  }

  /** The successive graphs of an engine that adds blocks of work 1. */
  ghost predicate History(g: Id, trees: seq<Tree>) {
    && trees != [] && UnitWork(trees[0], g)
    && forall i :: 0 <= i < |trees| - 1 ==> Follows(trees[i], trees[i + 1])
  }

  ghost predicate Follows(t: Tree, u: Tree) {
    exists o: Offer :: o.work == 1 && u == Add(t, o)
  }

  ghost predicate Shallow(t: Tree, u: Tree, g: Id, confirmations: nat) {
    WellFormed(t, g) && WellFormed(u, g) && Reverted(t, u, g) <= confirmations
  }

  lemma {:induction false} HistoryUnitWork(g: Id, trees: seq<Tree>, i: nat)
    requires History(g, trees) && i < |trees|
    ensures UnitWork(trees[i], g)
  {
    if i > 0 {
      HistoryUnitWork(g, trees, i - 1);
      assert Follows(trees[i - 1], trees[i - 1 + 1]);
      var o: Offer :| o.work == 1 && trees[i] == Add(trees[i - 1], o);
      FinalityStep(trees[i - 1], g, o, 0);
    }
  }

  lemma UnitWorkWellFormed(t: Tree, g: Id)
    requires UnitWork(t, g)
    ensures WellFormed(t, g)
  {
  }

  lemma {:induction false} GrowsOnce(t: Tree, u: Tree, g: Id, confirmations: nat)
    requires UnitWork(t, g) && Follows(t, u) && Shallow(t, u, g, confirmations)
    ensures Finalized(t, g, confirmations) <= Finalized(u, g, confirmations)
  {
    var o: Offer :| o.work == 1 && u == Add(t, o);
    FinalityStep(t, g, o, confirmations);
  }

  /** Finality: while no step reverts more than `confirmations` blocks, the decided prefix is
      only ever extended. */
  lemma {:induction false} FinalizedGrows(g: Id, trees: seq<Tree>, i: nat, j: nat, confirmations: nat)
    requires History(g, trees) && i <= j < |trees|
    requires forall k :: i <= k < j ==> Shallow(trees[k], trees[k + 1], g, confirmations)
    ensures WellFormed(trees[i], g) && WellFormed(trees[j], g)
    ensures Finalized(trees[i], g, confirmations) <= Finalized(trees[j], g, confirmations)
  {
    hide Finalized, UnitWork, Reverted;
    HistoryUnitWork(g, trees, i);
    HistoryUnitWork(g, trees, j);
    UnitWorkWellFormed(trees[i], g);
    UnitWorkWellFormed(trees[j], g);
    if i < j {
      HistoryUnitWork(g, trees, j - 1);
      UnitWorkWellFormed(trees[j - 1], g);
      FinalizedGrows(g, trees, i, j - 1, confirmations);
      assert Follows(trees[j - 1], trees[j - 1 + 1]) && Shallow(trees[j - 1], trees[j - 1 + 1], g, confirmations);
      GrowsOnce(trees[j - 1], trees[j], g, confirmations);
      PrefixTransitive(Finalized(trees[i], g, confirmations), Finalized(trees[j - 1], g, confirmations),
                       Finalized(trees[j], g, confirmations));
    }
  }

  lemma {:induction false} PrefixTransitive(a: seq<Id>, b: seq<Id>, c: seq<Id>)
    requires a <= b && b <= c
    ensures a <= c
  {
    assert c[..|a|] == b[..|a|];
  }
}
