/** The DAGcoin engine: tips, conflict sets, and confirmation flags that are never withdrawn. */
module TangleEngine {
  import opened Common
  import opened Order
  import opened Tangle

  datatype AddOutcome = Known | BadWeight | UnknownParent | Added(parents: seq<Id>)

  ghost function TipsOf(g: Graph): set<Id> {
    set x | x in g && g[x].children == {}
  }

  ghost function Rivals(g: Graph, c: string): set<Id> {
    set x | x in g && g[x].conflictId == Some(c)
  }

  /** Heavier than every other member of its conflict set; free of conflict counts as leading. */
  ghost predicate Leads(g: Graph, x: Id)
    requires x in g
  {
    g[x].conflictId.Some? ==>
      forall r :: r in Rivals(g, g[x].conflictId.value) && r != x ==> CumulativeWeight(g, r) < CumulativeWeight(g, x)
  }

  /** What a reevaluation confirms. */
  ghost function Confirmable(g: Graph, threshold: int): set<Id> {
    set x | x in g && x != GENESIS && CumulativeWeight(g, x) >= threshold && Leads(g, x)
  }

  ghost predicate ConflictFree(g: Graph, x: Id) {
    x in g && x != GENESIS && g[x].conflictId.None?
  }

  datatype State = State(txs: Graph, tips: set<Id>, conflicts: map<string, set<Id>>, confirmed: set<Id>)

  /** Tips and conflict sets are exact, and a conflict-free transaction is confirmed if and only
      if its cumulative weight has reached the threshold. */
  ghost predicate Consistent(s: State, threshold: int) {
    && WellFormed(s.txs)
    && s.tips == TipsOf(s.txs)
    && ConflictsExact(s.txs, s.conflicts)
    && s.confirmed <= s.txs.Keys - {GENESIS}
    && (forall x :: x in s.confirmed ==> CumulativeWeight(s.txs, x) >= threshold)
    && (forall x :: ConflictFree(s.txs, x) && CumulativeWeight(s.txs, x) >= threshold ==> x in s.confirmed)
  }

  ghost predicate ConflictsExact(g: Graph, conflicts: map<string, set<Id>>) {
    forall c :: (if c in conflicts then conflicts[c] else {}) == Rivals(g, c)
  }

  lemma {:induction false} LinkTips(g: Graph, id: Id, parents: seq<Id>, weight: int, conflictId: Option<string>)
    requires WellFormed(g) && id !in g && Elements(parents) <= g.Keys
    ensures TipsOf(Link(g, id, parents, weight, conflictId)) == TipsOf(g) - Elements(parents) + {id}
  {
    var u := Link(g, id, parents, weight, conflictId);
    forall x | x in g ensures u[x].children == {} <==> g[x].children == {} && x !in parents {
      if x in parents {
        assert id in u[x].children;
      }
    }
  }

  lemma {:induction false} LinkConflicts(g: Graph, conflicts: map<string, set<Id>>, id: Id, parents: seq<Id>,
      weight: int, conflictId: Option<string>)
    requires ConflictsExact(g, conflicts) && id !in g
    ensures ConflictsExact(Link(g, id, parents, weight, conflictId), Enrol(conflicts, id, conflictId))
  {
    var u := Link(g, id, parents, weight, conflictId);
    forall c ensures Rivals(u, c) == Rivals(g, c) + if conflictId == Some(c) then {id} else {} {
    }
  }

  /** The transaction joins its conflict set, if it names one. */
  function Enrol(conflicts: map<string, set<Id>>, id: Id, conflictId: Option<string>): map<string, set<Id>> {
    if conflictId.None? then conflicts
    else
      var c := conflictId.value;
      conflicts[c := (if c in conflicts then conflicts[c] else {}) + {id}]
  }

  /** Weights only grow, so flags set earlier stay justified. */
  lemma {:induction false} ReevaluateConsistent(s: State, threshold: int, id: Id, parents: seq<Id>, weight: int,
      conflictId: Option<string>)
    requires Consistent(s, threshold) && id !in s.txs && weight > 0 && Elements(parents) <= s.txs.Keys
    ensures var u := Link(s.txs, id, parents, weight, conflictId);
            Consistent(State(u, s.tips - Elements(parents) + {id}, Enrol(s.conflicts, id, conflictId),
                             s.confirmed + Confirmable(u, threshold)), threshold)
  {
    var u := Link(s.txs, id, parents, weight, conflictId);
    LinkWellFormed(s.txs, id, parents, weight, conflictId);
    LinkTips(s.txs, id, parents, weight, conflictId);
    LinkConflicts(s.txs, s.conflicts, id, parents, weight, conflictId);
    forall x | x in s.confirmed ensures CumulativeWeight(u, x) >= threshold {
      AddRaisesAncestors(s.txs, id, parents, weight, conflictId, x);
    }
  }

  class DAGcoin {
    const confirmationWeight: int
    var txs: Graph
    var tips: set<Id>
    var conflicts: map<string, set<Id>>
    var confirmed: set<Id>

    ghost function Snapshot(): State reads this { State(txs, tips, conflicts, confirmed) }

    ghost predicate Valid() reads this { Consistent(Snapshot(), confirmationWeight) && confirmationWeight > 0 }

    constructor (confirmationWeight: int)
      requires confirmationWeight > 0
      ensures Valid() && this.confirmationWeight == confirmationWeight
      ensures txs == map[GENESIS := Tx([], 1, None, {})] && confirmed == {}
    {
      this.confirmationWeight := confirmationWeight;
      txs := map[GENESIS := Tx([], 1, None, {})];
      tips := {GENESIS};
      conflicts := map[];
      confirmed := {};
      new;
      assert ApprovedBy(txs, GENESIS) == {};
    }

    /** Depth-first search over the approvers: each is popped many times but counted once. */
    method CumulativeWeightOf(x: Id) returns (total: int)
      requires WellFormed(txs) && x in txs
      ensures total == CumulativeWeight(txs, x)
    {
      hide WellFormed, Search, CumulativeWeight, Approvers, Weights, Elements;
      var seen: set<Id> := {};
      var stack := [x];
      total := 0;
      SearchStarts(txs, x);
      while stack != []
        invariant Search(txs, x, seen, stack, total)
        decreases |txs.Keys - seen|, |stack|
      {
        var cur := stack[|stack| - 1];
        ghost var before := stack;
        stack := stack[..|stack| - 1];
        assert before == stack + [cur];
        if cur in seen || cur !in txs {
          SearchSkips(txs, x, seen, stack, cur, total);
          continue;
        }
        var children := ListSet(txs[cur].children);
        SearchVisits(txs, x, seen, stack, cur, children, total);
        Shrinks(txs.Keys, seen, cur);
        seen := seen + {cur};
        total := total + txs[cur].weight;
        stack := stack + children;
      }
      SearchEnds(txs, x, seen, total);
    }

    method IsConflictLeader(x: Id) returns (leads: bool)
      requires WellFormed(txs) && ConflictsExact(txs, conflicts) && x in txs && txs[x].conflictId.Some?
      ensures leads == Leads(txs, x)
    {
      var c := txs[x].conflictId.value;
      var left := if c in conflicts then conflicts[c] else {};
      ghost var rivals := Rivals(txs, c);
      assert left == rivals;
      var mine := CumulativeWeightOf(x);
      while left != {}
        invariant left <= rivals
        invariant forall r :: r in rivals && r !in left && r != x ==> CumulativeWeight(txs, r) < mine
        decreases |left|
      {
        var rival :| rival in left;
        left := left - {rival};
        if rival == x { continue; }
        var w := CumulativeWeightOf(rival);
        if w >= mine { return false; }
      }
      return true;
    }

    method Reevaluate()
      requires WellFormed(txs) && ConflictsExact(txs, conflicts)
      modifies this`confirmed
      ensures confirmed == old(confirmed) + Confirmable(txs, confirmationWeight)
    {
      hide WellFormed, ConflictsExact, CumulativeWeight, Leads, Confirmable;
      var left := txs.Keys;
      ghost var all := Confirmable(txs, confirmationWeight);
      ConfirmableKnown(txs, confirmationWeight);
      while left != {}
        invariant left <= txs.Keys
        invariant confirmed == old(confirmed) + (all - left)
        decreases |left|
      {
        var x :| x in left;
        left := left - {x};
        ConfirmableMember(txs, confirmationWeight, x);
        if x in confirmed || x == GENESIS { continue; }
        var w := CumulativeWeightOf(x);
        if w < confirmationWeight { continue; }
        if txs[x].conflictId.Some? {
          var leads := IsConflictLeader(x);
          if !leads { continue; }
        } else {
          FreeLeads(txs, x);
        }
        confirmed := confirmed + {x};
      }
    }

    method SelectTips(count: nat) returns (l: seq<Id>)
      ensures l == FirstTips(tips, count)
    {
      var ordered := SortSet(tips);
      if ordered == [] {
        assert Elements(ordered) == {};
        return [GENESIS];
      }
      assert ordered[0] in Elements(ordered);
      return if |ordered| <= count then ordered else ordered[..count];
    }

    /** add_tx; an empty or missing parent list stands for the first two tips. */
    method AddTx(id: Id, parents: Option<seq<Id>>, weight: int, conflictId: Option<string>) returns (r: AddOutcome)
      requires Valid()
      modifies this
      ensures Valid()
      ensures var a, s := Arrival(id, parents, weight, conflictId), old(Snapshot());
              && Snapshot() == After(s, a, confirmationWeight)
              && r == if id in s.txs then Known
                      else if weight <= 0 then BadWeight
                      else if Acceptable(s, a) then Added(ParentsFor(s, a))
                      else UnknownParent
    {
      hide Link, Confirmable, Enrol, ApprovedBy, TipsOf, CumulativeWeight;
      if id in txs { return Known; }
      if weight <= 0 { return BadWeight; }
      var ps: seq<Id>;
      if parents.Some? && parents.value != [] {
        ps := parents.value;
      } else {
        ps := SelectTips(2);
      }
      for i := 0 to |ps|
        invariant forall j :: 0 <= j < i ==> ps[j] in txs
      {
        assert ps[i] in Elements(ps);
        if ps[i] !in txs { return UnknownParent; }
      }
      ReevaluateConsistent(Snapshot(), confirmationWeight, id, ps, weight, conflictId);
      LinkWellFormed(txs, id, ps, weight, conflictId);
      LinkConflicts(txs, conflicts, id, ps, weight, conflictId);
      hide Consistent;
      Insert(id, ps, weight, conflictId);
      Reevaluate();
      return Added(ps);
    }

    method Insert(id: Id, ps: seq<Id>, weight: int, conflictId: Option<string>)
      requires id !in txs && Elements(ps) <= txs.Keys
      modifies this`txs, this`tips, this`conflicts
      ensures txs == Link(old(txs), id, ps, weight, conflictId)
      ensures tips == old(tips) - Elements(ps) + {id}
      ensures conflicts == Enrol(old(conflicts), id, conflictId)
    {
      hide Link;
      var tx := Tx(ps, weight, conflictId, {});
      txs := txs[id := tx];
      LinkNone(old(txs), id, weight, conflictId, tx);
      for i := 0 to |ps|
        invariant txs == Link(old(txs), id, ps[..i], weight, conflictId)[id := tx]
        invariant tips == old(tips) - Elements(ps[..i])
        invariant conflicts == old(conflicts)
      {
        var p := ps[i];
        assert p in Elements(ps);
        assert ps[..i + 1] == ps[..i] + [p];
        LinkOne(old(txs), id, ps[..i], p, weight, conflictId, tx);
        txs := txs[p := txs[p].(children := txs[p].children + {id})];
        tips := tips - {p};
      }
      assert ps[..|ps|] == ps;
      LinkAll(old(txs), id, ps, weight, conflictId);
      tips := tips + {id};
      conflicts := Enrol(conflicts, id, conflictId);
    }
  }

  lemma {:induction false} LinkNone(g: Graph, id: Id, weight: int, conflictId: Option<string>, tx: Tx)
    requires id !in g
    ensures g[id := tx] == Link(g, id, [], weight, conflictId)[id := tx]
  {
    var empty := Link(g, id, [], weight, conflictId);
    forall x | x in g ensures empty[x] == g[x] {
      assert g[x].children + {} == g[x].children;
    }
  }

  lemma {:induction false} LinkOne(g: Graph, id: Id, ps: seq<Id>, p: Id, weight: int, conflictId: Option<string>,
      tx: Tx)
    requires id !in g && p in g
    ensures var before := Link(g, id, ps, weight, conflictId)[id := tx];
            && p in before
            && before[p := before[p].(children := before[p].children + {id})] ==
               Link(g, id, ps + [p], weight, conflictId)[id := tx]
  {
    var before, after := Link(g, id, ps, weight, conflictId)[id := tx],
      Link(g, id, ps + [p], weight, conflictId)[id := tx];
    var now := before[p := before[p].(children := before[p].children + {id})];
    forall x | x in now ensures x in after && now[x] == after[x] {
      assert x in ps + [p] <==> x in ps || x == p;
    }
    MapEquality(now, after);
  }

  lemma LinkAll(g: Graph, id: Id, ps: seq<Id>, weight: int, conflictId: Option<string>)
    ensures Link(g, id, ps, weight, conflictId)[id := Tx(ps, weight, conflictId, {})] ==
              Link(g, id, ps, weight, conflictId)
  {
  }

  lemma ConfirmableMember(g: Graph, threshold: int, x: Id)
    requires x in g
    ensures x in Confirmable(g, threshold) <==> x != GENESIS && CumulativeWeight(g, x) >= threshold && Leads(g, x)
  {
  }

  lemma ConfirmableKnown(g: Graph, threshold: int)
    ensures Confirmable(g, threshold) <= g.Keys
  {
  }

  lemma FreeLeads(g: Graph, x: Id)
    requires x in g && g[x].conflictId.None?
    ensures Leads(g, x)
  {
  }

  // ------------------------------------------------------------------ the depth-first search

  /** Everything visited or on the stack approves x, and whatever approves a visited
      transaction is visited or on the stack. */
  ghost predicate Search(g: Graph, x: Id, seen: set<Id>, stack: seq<Id>, total: int) {
    && seen <= Approvers(g, x)
    && (forall y :: y in stack && y in g ==> y in Approvers(g, x))
    && (x in seen || x in stack)
    && (forall y, c :: y in seen && c in g[y].children ==> c in seen || c in stack)
    && total == Sum(Weights(g, seen))
  }

  lemma {:induction false} SearchStarts(g: Graph, x: Id)
    requires x in g
    ensures Search(g, x, {}, [x], 0)
  {
    ApproversHere(g, x);
  }

  lemma {:induction false} SearchSkips(g: Graph, x: Id, seen: set<Id>, stack: seq<Id>, cur: Id, total: int)
    requires WellFormed(g) && Search(g, x, seen, stack + [cur], total) && x in g && (cur in seen || cur !in g)
    ensures Search(g, x, seen, stack, total)
  {
    forall y, c | y in seen && c in g[y].children ensures c in seen || c in stack {
      assert c in ApprovedBy(g, y);
      assert c in seen || c in stack + [cur];
    }
  }

  lemma {:induction false} SearchVisits(g: Graph, x: Id, seen: set<Id>, stack: seq<Id>, cur: Id, children: seq<Id>,
      total: int)
    requires WellFormed(g) && Search(g, x, seen, stack + [cur], total) && cur in g && cur !in seen
    requires Elements(children) == g[cur].children
    ensures Search(g, x, seen + {cur}, stack + children, total + g[cur].weight)
  {
    assert seen <= g.Keys;
    hide Approvers;
    assert cur in stack + [cur];
    VisitChildren(g, x, cur);
    SumUpdate(Weights(g, seen), cur, g[cur].weight);
    assert Weights(g, seen + {cur}) == Weights(g, seen)[cur := g[cur].weight];
    forall y | y in stack + children && y in g ensures y in Approvers(g, x) {
      if y !in stack {
        assert y in Elements(children);
      } else {
        assert y in stack + [cur];
      }
    }
    forall y, c | y in seen + {cur} && c in g[y].children ensures c in seen + {cur} || c in stack + children {
      if y == cur {
        assert c in Elements(children);
      } else {
        assert c in seen || c in stack + [cur];
      }
    }
    if x !in seen && x != cur {
      assert x in stack;
    }
  }

  lemma {:induction false} SearchEnds(g: Graph, x: Id, seen: set<Id>, total: int)
    requires Search(g, x, seen, [], total)
    ensures total == CumulativeWeight(g, x)
  {
    ClosedContainsApprovers(g, seen, x);
    assert seen == Approvers(g, x);
  }

  lemma {:induction false} VisitChildren(g: Graph, x: Id, cur: Id)
    requires WellFormed(g) && cur in Approvers(g, x)
    ensures g[cur].children <= Approvers(g, x)
  {
    forall c | c in g[cur].children ensures c in Approvers(g, x) {
      assert c in ApprovedBy(g, cur);
      ApproversStep(g, x, cur, c);
    }
  }

  // ------------------------------------------------------------------ what every state promises

  /** What a transaction declares; children are derived. */
  datatype Declared = Declared(parents: seq<Id>, weight: int, conflictId: Option<string>)

  function Declarations(g: Graph): map<Id, Declared> {
    map x | x in g :: Declared(g[x].parents, g[x].weight, g[x].conflictId)
  }

  /** Two nodes that hold the same transactions agree on links, tips, weights and on every
      conflict-free confirmation, whatever the order of arrival. */
  lemma {:induction false} OrderIndependent(s: State, r: State, threshold: int)
    requires Consistent(s, threshold) && Consistent(r, threshold)
    requires Declarations(s.txs) == Declarations(r.txs)
    ensures s.txs == r.txs && s.tips == r.tips
    ensures forall x :: x in s.txs ==> CumulativeWeight(s.txs, x) == CumulativeWeight(r.txs, x)
    ensures forall x :: ConflictFree(s.txs, x) ==> (x in s.confirmed <==> x in r.confirmed)
  {
    var g, u := s.txs, r.txs;
    forall x | x in g ensures x in u && g[x] == u[x] {
      assert x in Declarations(g);
      SameApproval(g, u, x);
    }
    forall x | x in u ensures x in g {
      assert x in Declarations(u);
    }
    assert g == u;
  }

  lemma {:induction false} SameApproval(g: Graph, u: Graph, x: Id)
    requires Declarations(g) == Declarations(u)
    ensures ApprovedBy(g, x) == ApprovedBy(u, x)
    ensures x in g ==> x in u && Declarations(g)[x] == Declarations(u)[x]
  {
    assert x in Declarations(g) <==> x in Declarations(u);
    forall c ensures c in g && x in g[c].parents <==> c in u && x in u[c].parents {
      assert c in Declarations(g) <==> c in Declarations(u);
      if c in g {
        assert Declarations(g)[c] == Declarations(u)[c];
      }
    }
  }

  // ------------------------------------------------------------------ runs

  /** A call of add_tx. */
  datatype Arrival = Arrival(id: Id, parents: Option<seq<Id>>, weight: int, conflictId: Option<string>)

  /** The first tips in sorted order, or genesis. */
  ghost function FirstTips(tips: set<Id>, count: nat): seq<Id> {
    var all := SortedList(tips);
    if tips == {} then [GENESIS] else if |all| <= count then all else all[..count]
  }

  ghost predicate Explicit(a: Arrival) { a.parents.Some? && a.parents.value != [] }

  /** The parents an arrival gets. */
  ghost function ParentsFor(s: State, a: Arrival): seq<Id> {
    if Explicit(a) then a.parents.value else FirstTips(s.tips, 2)
  }

  ghost predicate Acceptable(s: State, a: Arrival) {
    a.id !in s.txs && a.weight > 0 && Elements(ParentsFor(s, a)) <= s.txs.Keys
  }

  /** The state AddTx leaves behind. */
  ghost function After(s: State, a: Arrival, threshold: int): State {
    if !Acceptable(s, a) then s
    else
      var ps := ParentsFor(s, a);
      var u := Link(s.txs, a.id, ps, a.weight, a.conflictId);
      State(u, s.tips - Elements(ps) + {a.id}, Enrol(s.conflicts, a.id, a.conflictId),
        s.confirmed + Confirmable(u, threshold))
  }

  ghost function Replay(arrivals: seq<Arrival>, threshold: int): State {
    if arrivals == [] then State(map[GENESIS := Tx([], 1, None, {})], {GENESIS}, map[], {})
    else After(Replay(arrivals[..|arrivals| - 1], threshold), arrivals[|arrivals| - 1], threshold)
  }

  lemma {:induction false} ReplayConsistent(arrivals: seq<Arrival>, threshold: int)
    ensures Consistent(Replay(arrivals, threshold), threshold)
  {
    if arrivals == [] {
      var g: Graph := map[GENESIS := Tx([], 1, None, {})];
      assert ApprovedBy(g, GENESIS) == {};
      assert TipsOf(g) == {GENESIS};
      assert forall x :: !ConflictFree(g, x);
    } else {
      hide Consistent;
      var before, a := Replay(arrivals[..|arrivals| - 1], threshold), arrivals[|arrivals| - 1];
      ReplayConsistent(arrivals[..|arrivals| - 1], threshold);
      if Acceptable(before, a) {
        ReevaluateConsistent(before, threshold, a.id, ParentsFor(before, a), a.weight, a.conflictId);
      }
    }
  }

  /** After every run of calls, with explicit or defaulted parents, refused ones included: a transaction
      free of conflict is confirmed if and only if its cumulative weight has reached the threshold. */
  lemma {:induction false} ConfirmedExactly(arrivals: seq<Arrival>, threshold: int, x: Id)
    requires ConflictFree(Replay(arrivals, threshold).txs, x)
    ensures var s := Replay(arrivals, threshold); x in s.confirmed <==> CumulativeWeight(s.txs, x) >= threshold
  {
    ReplayConsistent(arrivals, threshold);
  }

  /** Once confirmed, always confirmed; and a member of a conflict set had the weight and led its set
      at some moment of the run. */
  lemma {:induction false} ConfirmedOnce(arrivals: seq<Arrival>, threshold: int, x: Id)
    requires x in Replay(arrivals, threshold).confirmed
    ensures exists n :: 0 <= n <= |arrivals| && x in Confirmable(Replay(arrivals[..n], threshold).txs, threshold)
    ensures forall more :: x in Replay(arrivals + more, threshold).confirmed
  {
    hide Confirmable, Link, Enrol, Acceptable;
    EarnedThen(arrivals, threshold, x);
    forall more ensures x in Replay(arrivals + more, threshold).confirmed {
      FlagStays(arrivals, more, threshold, x);
    }
  }

  lemma {:induction false} EarnedThen(arrivals: seq<Arrival>, threshold: int, x: Id)
    requires x in Replay(arrivals, threshold).confirmed
    ensures exists n :: 0 <= n <= |arrivals| && x in Confirmable(Replay(arrivals[..n], threshold).txs, threshold)
  {
    hide Confirmable, Link, Enrol, Acceptable;
    if arrivals != [] {
      var k := |arrivals| - 1;
      if x in Replay(arrivals[..k], threshold).confirmed {
        EarnedThen(arrivals[..k], threshold, x);
        var n :| 0 <= n <= k && x in Confirmable(Replay(arrivals[..k][..n], threshold).txs, threshold);
        assert arrivals[..k][..n] == arrivals[..n];
      } else {
        assert arrivals[..k + 1] == arrivals;
      }
    }
  }

  lemma {:induction false} FlagStays(arrivals: seq<Arrival>, more: seq<Arrival>, threshold: int, x: Id)
    requires x in Replay(arrivals, threshold).confirmed
    ensures x in Replay(arrivals + more, threshold).confirmed
  {
    hide Confirmable, Link, Enrol, Acceptable;
    if more == [] {
      assert arrivals + more == arrivals;
    } else {
      var k := |more| - 1;
      FlagStays(arrivals, more[..k], threshold, x);
      assert (arrivals + more)[..|arrivals + more| - 1] == arrivals + more[..k];
    }
  }

  /** Parents first, every transaction new when it arrives. */
  ghost predicate AllAccepted(arrivals: seq<Arrival>, threshold: int) {
    arrivals == [] ||
    (AllAccepted(arrivals[..|arrivals| - 1], threshold) &&
     Acceptable(Replay(arrivals[..|arrivals| - 1], threshold), arrivals[|arrivals| - 1]))
  }

  /** The arrivals as they are broadcast: with the parents they got. */
  ghost function Resolved(arrivals: seq<Arrival>, threshold: int): seq<Arrival> {
    if arrivals == [] then []
    else
      var n := |arrivals| - 1;
      var a := arrivals[n];
      Resolved(arrivals[..n], threshold) + [a.(parents := Some(ParentsFor(Replay(arrivals[..n], threshold), a)))]
  }

  lemma {:induction false} FirstTipsSome(tips: set<Id>)
    ensures FirstTips(tips, 2) != []
  {
    if tips != {} {
      var x :| x in tips;
      assert x in Elements(SortedList(tips));
    }
  }

  /** What a node broadcasts makes another node's tangle equal to its own. */
  lemma {:induction false} ResolvedReplay(arrivals: seq<Arrival>, threshold: int)
    requires AllAccepted(arrivals, threshold)
    ensures var explicit := Resolved(arrivals, threshold);
            && Replay(explicit, threshold) == Replay(arrivals, threshold) && AllAccepted(explicit, threshold)
            && AllExplicit(explicit)
  {
    hide FirstTips, Link, Enrol, Confirmable;
    if arrivals != [] {
      var n := |arrivals| - 1;
      var s, front := Replay(arrivals[..n], threshold), Resolved(arrivals[..n], threshold);
      var a := arrivals[n];
      var b := a.(parents := Some(ParentsFor(s, a)));
      ResolvedReplay(arrivals[..n], threshold);
      FirstTipsSome(s.tips);
      assert (front + [b])[..|front + [b]| - 1] == front;
      assert ParentsFor(s, b) == ParentsFor(s, a);
    }
  }

  function DeclaredBy(a: Arrival): Declared {
    Declared(if a.parents.Some? then a.parents.value else [], a.weight, a.conflictId)
  }

  ghost predicate AllExplicit(arrivals: seq<Arrival>) { forall a :: a in arrivals ==> Explicit(a) }

  ghost function Announced(arrivals: seq<Arrival>): map<Id, Declared> {
    if arrivals == [] then map[GENESIS := Declared([], 1, None)]
    else
      var a := arrivals[|arrivals| - 1];
      Announced(arrivals[..|arrivals| - 1])[a.id := DeclaredBy(a)]
  }

  lemma {:induction false} ReplayHolds(arrivals: seq<Arrival>, threshold: int)
    requires AllAccepted(arrivals, threshold) && AllExplicit(arrivals)
    ensures Declarations(Replay(arrivals, threshold).txs) == Announced(arrivals)
  {
    if arrivals != [] {
      ReplayHolds(arrivals[..|arrivals| - 1], threshold);
      var g, a := Replay(arrivals[..|arrivals| - 1], threshold).txs, arrivals[|arrivals| - 1];
      assert a in arrivals;
      var u := Link(g, a.id, a.parents.value, a.weight, a.conflictId);
      assert Declarations(u) == Declarations(g)[a.id := DeclaredBy(a)];
    }
  }

  /** An id is announced exactly when some arrival carries it, and with what that arrival says. */
  ghost predicate SaysExactly(t: map<Id, Declared>, arrivals: seq<Arrival>, id: Id) {
    && GENESIS in t && t[GENESIS] == Declared([], 1, None)
    && (id in t <==> id == GENESIS || exists a :: a in arrivals && a.id == id)
    && forall a :: a in arrivals && a.id == id ==>
         id != GENESIS && id in t && t[id] == DeclaredBy(a)
  }

  lemma {:induction false} AnnouncedExactly(arrivals: seq<Arrival>, threshold: int, id: Id)
    requires AllAccepted(arrivals, threshold) && AllExplicit(arrivals)
    ensures SaysExactly(Announced(arrivals), arrivals, id)
  {
    if arrivals != [] {
      hide SaysExactly, Acceptable, Replay;
      var front, z := arrivals[..|arrivals| - 1], arrivals[|arrivals| - 1];
      assert arrivals == front + [z];
      FrontExplicit(arrivals);
      hide AllExplicit;
      AnnouncedExactly(front, threshold, id);
      NotYetAnnounced(front, threshold, z);
      hide Announced;
      SaysOneMore(Announced(front), front, z, id);
    }
  }

  lemma FrontExplicit(arrivals: seq<Arrival>)
    requires AllExplicit(arrivals) && arrivals != []
    ensures AllExplicit(arrivals[..|arrivals| - 1])
  {
  }

  lemma {:induction false} NotYetAnnounced(front: seq<Arrival>, threshold: int, z: Arrival)
    requires AllAccepted(front, threshold) && AllExplicit(front)
    requires Acceptable(Replay(front, threshold), z)
    ensures z.id !in Announced(front)
  {
    hide Announced, Replay, AllAccepted;
    ReplayHolds(front, threshold);
  }

  lemma {:induction false} SaysOneMore(t: map<Id, Declared>, front: seq<Arrival>, z: Arrival, id: Id)
    requires SaysExactly(t, front, id) && z.id !in t
    ensures SaysExactly(t[z.id := DeclaredBy(z)], front + [z], id)
  {
    assert z in front + [z];
    if a :| a in front && a.id == id {
      assert a in front + [z];
    }
  }

  /** The same transactions with the same parents, in any two parent-first orders: same tangle, same
      tips, same conflict-free confirmations. */
  lemma {:induction false} ArrivalOrder(p: seq<Arrival>, q: seq<Arrival>, threshold: int)
    requires AllAccepted(p, threshold) && AllAccepted(q, threshold)
    requires forall a :: a in Resolved(p, threshold) <==> a in Resolved(q, threshold)
    ensures var s, r := Replay(p, threshold), Replay(q, threshold);
            && s.txs == r.txs && s.tips == r.tips
            && (forall x :: ConflictFree(s.txs, x) ==> (x in s.confirmed <==> x in r.confirmed))
  {
    ResolvedReplay(p, threshold);
    ResolvedReplay(q, threshold);
    ExplicitOrder(Resolved(p, threshold), Resolved(q, threshold), threshold);
  }

  lemma {:induction false} ExplicitOrder(p: seq<Arrival>, q: seq<Arrival>, threshold: int)
    requires AllAccepted(p, threshold) && AllAccepted(q, threshold)
    requires (forall a :: a in p <==> a in q) && AllExplicit(p)
    ensures var s, r := Replay(p, threshold), Replay(q, threshold);
            && s.txs == r.txs && s.tips == r.tips
            && (forall x :: ConflictFree(s.txs, x) ==> (x in s.confirmed <==> x in r.confirmed))
  {
    hide Announced, AllAccepted, SaysExactly, Replay, Consistent;
    forall id ensures id in Announced(p) <==> id in Announced(q)
              ensures id in Announced(p) ==> id in Announced(q) && Announced(p)[id] == Announced(q)[id] {
      AnnouncedExactly(p, threshold, id);
      AnnouncedExactly(q, threshold, id);
      SaysSame(Announced(p), Announced(q), p, q, id);
    }
    MapEquality(Announced(p), Announced(q));
    ReplayHolds(p, threshold);
    ReplayHolds(q, threshold);
    ReplayConsistent(p, threshold);
    ReplayConsistent(q, threshold);
    OrderIndependent(Replay(p, threshold), Replay(q, threshold), threshold);
  }

  lemma {:induction false} SaysSame(t: map<Id, Declared>, u: map<Id, Declared>, p: seq<Arrival>, q: seq<Arrival>,
      id: Id)
    requires forall a :: a in p <==> a in q
    requires SaysExactly(t, p, id) && SaysExactly(u, q, id)
    ensures id in t <==> id in u
    ensures id in t ==> t[id] == u[id]
  {
  }
}
