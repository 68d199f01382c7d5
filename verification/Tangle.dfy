/** The DAGcoin tangle: cumulative weight by depth-first search, and sticky confirmation. */
module Tangle {
  import opened Common
  import opened Order

  type Id = string

  datatype Tx = Tx(parents: seq<Id>, weight: int, conflictId: Option<string>, children: set<Id>)

  type Graph = map<Id, Tx>

  const GENESIS: Id := "genesis"

  /** `children` mirrors `parents`, and every parent is known. */
  ghost predicate WellFormed(g: Graph) {
    && GENESIS in g && g[GENESIS].parents == [] && g[GENESIS].conflictId == None
    && (forall x :: x in g ==> g[x].weight > 0 && Elements(g[x].parents) <= g.Keys)
    && (forall x :: x in g ==> g[x].children == ApprovedBy(g, x))
  }

  /** The transactions that approve x directly. */
  ghost function ApprovedBy(g: Graph, x: Id): set<Id> {
    set c | c in g && x in g[c].parents
  }

  // ------------------------------------------------------------------ approval, direct and indirect

  /** A chain of direct approvals, each element approved by the next. */
  ghost predicate Path(g: Graph, p: seq<Id>) {
    p != [] && p[|p| - 1] in g &&
    (|p| == 1 || (Path(g, p[..|p| - 1]) && p[|p| - 1] in g[p[|p| - 2]].children))
  }

  ghost predicate PathBetween(g: Graph, p: seq<Id>, a: Id, b: Id) {
    Path(g, p) && p[0] == a && p[|p| - 1] == b
  }

  ghost predicate Approves(g: Graph, a: Id, b: Id) {
    exists p :: PathBetween(g, p, a, b)
  }

  /** x and everything that approves it, directly or not. */
  ghost function Approvers(g: Graph, x: Id): set<Id> {
    set y | y in g && Approves(g, x, y)
  }

  function Weights(g: Graph, s: set<Id>): map<Id, int> {
    map x | x in s && x in g :: g[x].weight
  }

  /** The total weight of the approvers, each counted once. */
  ghost function CumulativeWeight(g: Graph, x: Id): int {
    Sum(Weights(g, Approvers(g, x)))
  }

  lemma {:induction false} ApproversHere(g: Graph, x: Id)
    requires x in g
    ensures x in Approvers(g, x)
  {
    assert PathBetween(g, [x], x, x);
  }

  lemma {:induction false} ApproversStep(g: Graph, a: Id, x: Id, c: Id)
    requires x in Approvers(g, a) && c in g && c in g[x].children
    ensures c in Approvers(g, a)
  {
    var p :| PathBetween(g, p, a, x);
    assert (p + [c])[..|p|] == p;
    assert PathBetween(g, p + [c], a, c);
  }

  /** Whatever contains x and is closed under approval contains every approver. */
  lemma {:induction false} ClosedContains(g: Graph, s: set<Id>, p: seq<Id>)
    requires Path(g, p) && p[0] in s
    requires forall x :: x in s && x in g ==> g[x].children <= s
    ensures p[|p| - 1] in s
  {
    if |p| > 1 {
      ClosedContains(g, s, p[..|p| - 1]);
      assert p[..|p| - 1][|p| - 2] == p[|p| - 2];
    }
  }

  lemma {:induction false} ClosedContainsApprovers(g: Graph, s: set<Id>, a: Id)
    requires a in s && forall x :: x in s && x in g ==> g[x].children <= s
    ensures Approvers(g, a) <= s
  {
    forall b | b in Approvers(g, a) ensures b in s {
      var p :| PathBetween(g, p, a, b);
      ClosedContains(g, s, p);
    }
  }

  // ------------------------------------------------------------------ adding a transaction

  function Link(g: Graph, id: Id, parents: seq<Id>, weight: int, conflictId: Option<string>): Graph {
    map x | x in g.Keys + {id} ::
      if x == id then Tx(parents, weight, conflictId, {})
      else g[x].(children := g[x].children + if x in parents then {id} else {})
  }

  lemma {:induction false} LinkWellFormed(g: Graph, id: Id, parents: seq<Id>, weight: int, conflictId: Option<string>)
    requires WellFormed(g) && id !in g && weight > 0 && Elements(parents) <= g.Keys
    ensures WellFormed(Link(g, id, parents, weight, conflictId))
  {
    var u := Link(g, id, parents, weight, conflictId);
    forall x | x in u ensures u[x].children == ApprovedBy(u, x) {
      if x == id {
        forall c | c in u ensures x !in u[c].parents {
          assert c in g ==> x !in Elements(g[c].parents);
          assert c == id ==> x !in Elements(parents);
        }
      } else {
        assert forall c :: c in g ==> (x in u[c].parents <==> x in g[c].parents);
      }
    }
  }

  /** Old paths stay, and the only new ones end at the new transaction. */
  lemma {:induction false} OldPath(g: Graph, id: Id, parents: seq<Id>, weight: int, conflictId: Option<string>,
      p: seq<Id>)
    requires WellFormed(g) && id !in g && Elements(parents) <= g.Keys
    ensures var u := Link(g, id, parents, weight, conflictId);
            Path(g, p) <==> Path(u, p) && p[|p| - 1] != id
  {
    if |p| > 1 {
      OldPath(g, id, parents, weight, conflictId, p[..|p| - 1]);
      assert p[..|p| - 1][|p| - 2] == p[|p| - 2];
    }
  }

  lemma {:induction false} OldApproves(g: Graph, id: Id, parents: seq<Id>, weight: int, conflictId: Option<string>,
      a: Id, b: Id)
    requires WellFormed(g) && id !in g && Elements(parents) <= g.Keys && b != id
    ensures Approves(g, a, b) <==> Approves(Link(g, id, parents, weight, conflictId), a, b)
  {
    var u := Link(g, id, parents, weight, conflictId);
    if p :| PathBetween(g, p, a, b) {
      OldPath(g, id, parents, weight, conflictId, p);
      assert PathBetween(u, p, a, b);
    }
    if p :| PathBetween(u, p, a, b) {
      OldPath(g, id, parents, weight, conflictId, p);
      assert PathBetween(g, p, a, b);
    }
  }

  /** The ancestors of the new transaction: those that a parent approves, or are one. */
  ghost predicate Reaches(g: Graph, parents: seq<Id>, a: Id) {
    exists q :: q in parents && Approves(g, a, q)
  }

  lemma {:induction false} NewApproves(g: Graph, id: Id, parents: seq<Id>, weight: int, conflictId: Option<string>,
      a: Id)
    requires WellFormed(g) && id !in g && Elements(parents) <= g.Keys && a in g
    ensures Approves(Link(g, id, parents, weight, conflictId), a, id) <==> Reaches(g, parents, a)
  {
    var u := Link(g, id, parents, weight, conflictId);
    if p :| PathBetween(u, p, a, id) {
      var front, q := p[..|p| - 1], p[|p| - 2];
      assert front[|front| - 1] == q;
      OldPath(g, id, parents, weight, conflictId, front);
      assert PathBetween(g, front, a, q);
      assert Approves(g, a, q);
      assert q in g && id in u[q].children && id !in g[q].children;
    }
    if q :| q in parents && Approves(g, a, q) {
      var p :| PathBetween(g, p, a, q);
      OldPath(g, id, parents, weight, conflictId, p);
      assert q in Elements(parents);
      assert (p + [id])[..|p|] == p;
      assert PathBetween(u, p + [id], a, id);
    }
  }

  /** Adding a transaction raises the cumulative weight of exactly its ancestors, by its weight. */
  lemma {:induction false} AddRaisesAncestors(g: Graph, id: Id, parents: seq<Id>, weight: int,
      conflictId: Option<string>, a: Id)
    requires WellFormed(g) && id !in g && Elements(parents) <= g.Keys && a in g
    ensures CumulativeWeight(Link(g, id, parents, weight, conflictId), a) ==
            CumulativeWeight(g, a) + if Reaches(g, parents, a) then weight else 0
  {
    hide Approves, WellFormed, Reaches;
    var u := Link(g, id, parents, weight, conflictId);
    NewApproves(g, id, parents, weight, conflictId, a);
    forall b | b in g ensures Approves(u, a, b) <==> Approves(g, a, b) {
      OldApproves(g, id, parents, weight, conflictId, a, b);
    }
    var old_ := Weights(g, Approvers(g, a));
    if Reaches(g, parents, a) {
      assert Approvers(u, a) == Approvers(g, a) + {id};
      assert Weights(u, Approvers(u, a)) == old_[id := weight];
      SumUpdate(old_, id, weight);
    } else {
      assert Approvers(u, a) == Approvers(g, a);
      assert Weights(u, Approvers(u, a)) == old_;
    }
  }

  /** The new transaction starts with its own weight. */
  lemma {:induction false} NewWeight(g: Graph, id: Id, parents: seq<Id>, weight: int, conflictId: Option<string>)
    requires WellFormed(g) && id !in g && Elements(parents) <= g.Keys
    ensures CumulativeWeight(Link(g, id, parents, weight, conflictId), id) == weight
  {
    var u := Link(g, id, parents, weight, conflictId);
    ApproversHere(u, id);
    ClosedContainsApprovers(u, {id}, id);
    assert Approvers(u, id) == {id};
    var none: map<Id, int> := map[];
    assert Weights(u, {id}) == none[id := weight];
    SumUpdate(none, id, weight);
  }
}
