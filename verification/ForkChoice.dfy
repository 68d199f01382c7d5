/** The reusable fork-aware chain: a block graph with heaviest-chain fork choice. */
module ForkChoice {
  import opened Common
  import opened Order

  type Id = string

  datatype Block = Block(parent: Option<Id>, height: int, work: int, cumWork: int, payload: string)

  type Tree = map<Id, Block>

  datatype AddResult =
    | UnknownParent
    | ForkChoiceResult(added: bool, reorg: bool, newTip: Id, extended: seq<Id>, reverted: seq<Id>)

  // ------------------------------------------------------------------ the tree of blocks

  ghost predicate WellFormed(t: Tree, g: Id) {
    && g in t && t[g].parent == None && t[g].cumWork == t[g].work
    && (forall b :: b in t && b != g ==> Attached(t, t[b]))
    && (forall b :: b in t ==> t[b].height >= t[g].height)
  }

  ghost predicate Attached(t: Tree, n: Block) {
    && n.parent.Some? && n.parent.value in t
    && n.height == t[n.parent.value].height + 1
    && n.cumWork == t[n.parent.value].cumWork + n.work
  }

  /** Every block but genesis adds work, as the longest-chain engines have it. */
  ghost predicate Heavy(t: Tree, g: Id) { forall b :: b in t && b != g ==> t[b].work >= 1 }

  ghost function Children(t: Tree, p: Id): set<Id> {
    set c | c in t && t[c].parent == Some(p)
  }

  ghost function Tips(t: Tree): set<Id> {
    set b | b in t && Children(t, b) == {}
  }

  /** The blocks from genesis to `b`. */
  ghost function PathTo(t: Tree, g: Id, b: Id): (path: seq<Id>)
    requires WellFormed(t, g) && b in t
    ensures path != [] && path[|path| - 1] == b && path[0] == g
    decreases t[b].height - t[g].height
  {
    if b == g then [g] else PathTo(t, g, t[b].parent.value) + [b]
  }

  predicate Better(t: Tree, a: Id, b: Id)
    requires a in t && b in t
  {
    if t[a].cumWork != t[b].cumWork then t[a].cumWork > t[b].cumWork else Less(a, b)
  }

  /** The canonical tip: most cumulative work, then the smallest id, among the tips. */
  ghost predicate Selected(t: Tree, b: Id) { BestOf(t, Tips(t), b) }

  /** The same among all blocks. */
  ghost predicate IsBest(t: Tree, b: Id) {
    b in t && forall c :: c in t && c != b ==> Better(t, b, c)
  }

  ghost predicate BestOf(t: Tree, s: set<Id>, b: Id)
    requires s <= t.Keys
  {
    b in s && forall c :: c in s && c != b ==> Better(t, b, c)
  }

  lemma {:induction false} BetterTransitive(t: Tree, a: Id, b: Id, c: Id)
    requires a in t && b in t && c in t && Better(t, a, b) && Better(t, b, c)
    ensures Better(t, a, c)
  {
    if t[a].cumWork == t[c].cumWork {
      LessTransitive(a, b, c);
    }
  }

  lemma {:induction false} BestExists(t: Tree, s: set<Id>) returns (b: Id)
    requires s <= t.Keys && s != {}
    ensures BestOf(t, s, b)
    decreases |s|
  {
    b :| b in s;
    var rest := s - {b};
    if rest != {} {
      var c := BestExists(t, rest);
      LessTotal(b, c);
      if Better(t, c, b) {
        b := c;
      } else {
        forall d | d in s && d != b ensures Better(t, b, d) {
          if d != c {
            BetterTransitive(t, b, c, d);
          }
        }
      }
    }
  }

  lemma {:induction false} SelectedUnique(t: Tree, a: Id, b: Id)
    requires Selected(t, a) && Selected(t, b)
    ensures a == b
  {
    LessAsymmetric(a, b);
  }

  /** Looking at the tips is enough exactly when no block with children is better than the best tip,
      as it is where every block adds work. */
  lemma {:induction false} BestTipIsBest(t: Tree, g: Id, b: Id)
    requires WellFormed(t, g) && Selected(t, b)
    ensures IsBest(t, b) <==> forall c :: c in t && Children(t, c) != {} ==> Better(t, b, c)
    ensures Heavy(t, g) ==> IsBest(t, b)
  {
    if IsBest(t, b) {
      forall c | c in t && Children(t, c) != {} ensures Better(t, b, c) {
        assert c !in Tips(t) && c != b;
      }
    }
    if Heavy(t, g) {
      HeavyTip(t, g, b);
    }
  }

  lemma {:induction false} HeavyTip(t: Tree, g: Id, b: Id)
    requires WellFormed(t, g) && Heavy(t, g) && Selected(t, b)
    ensures IsBest(t, b)
  {
    var m := BestExists(t, t.Keys);
    BestIsTip(t, g, m);
    if m != b {
      LessAsymmetric(m, b);
      assert false;
    }
  }

  lemma {:induction false} BestIsTip(t: Tree, g: Id, m: Id)
    requires WellFormed(t, g) && Heavy(t, g) && IsBest(t, m)
    ensures m in Tips(t)
  {
    forall c | c in t ensures t[c].parent != Some(m) {
      assert c != m ==> Better(t, m, c);
      assert c != g ==> Attached(t, t[c]);
    }
    assert Children(t, m) == {};
  }

  // ------------------------------------------------------------------ paths

  lemma {:induction false} PathPrefix(t: Tree, g: Id, b: Id, i: nat)
    requires WellFormed(t, g) && b in t && i < |PathTo(t, g, b)|
    ensures PathTo(t, g, b)[i] in t
    ensures PathTo(t, g, b)[..i + 1] == PathTo(t, g, PathTo(t, g, b)[i])
    ensures t[PathTo(t, g, b)[i]].height == t[g].height + i
    decreases t[b].height - t[g].height
  {
    var path := PathTo(t, g, b);
    if b == g {
      assert path[..i + 1] == path;
    } else {
      var p := t[b].parent.value;
      var up := PathTo(t, g, p);
      if i < |up| {
        PathPrefix(t, g, p, i);
        assert path[..i + 1] == up[..i + 1];
      } else {
        PathPrefix(t, g, p, |up| - 1);
        assert path[..i + 1] == path;
      }
    }
  }

  /** A block at index i of its path has height i above genesis: index equals height. */
  lemma {:induction false} PathLength(t: Tree, g: Id, b: Id)
    requires WellFormed(t, g) && b in t
    ensures |PathTo(t, g, b)| == t[b].height - t[g].height + 1
  {
    PathPrefix(t, g, b, |PathTo(t, g, b)| - 1);
  }

  function CommonLength(a: seq<Id>, b: seq<Id>): (n: nat)
    ensures n <= |a| && n <= |b| && a[..n] == b[..n]
    ensures n < |a| && n < |b| ==> a[n] != b[n]
  {
    if a == [] || b == [] || a[0] != b[0] then 0
    else
      var n := CommonLength(a[1..], b[1..]);
      assert a[..n + 1] == [a[0]] + a[1..][..n] && b[..n + 1] == [b[0]] + b[1..][..n];
      n + 1
  }

  lemma {:induction false} CommonAtLeast(p: seq<Id>, q: seq<Id>, k: nat)
    requires k <= |p| && k <= |q| && p[..k] == q[..k]
    ensures CommonLength(p, q) >= k
  {
    assert forall i :: 0 <= i < k ==> p[i] == p[..k][i] == q[..k][i] == q[i];
  }

  /** What is left of a list without the members of a set. */
  function Without(a: seq<Id>, other: set<Id>): seq<Id> {
    if a == [] then []
    else (if a[0] in other then [] else [a[0]]) + Without(a[1..], other)
  }

  lemma {:induction false} WithoutSuffix(a: seq<Id>, other: set<Id>, n: nat)
    requires n <= |a|
    requires forall i :: 0 <= i < |a| ==> (a[i] in other <==> i < n)
    ensures Without(a, other) == a[n..]
  {
    if a != [] {
      WithoutSuffix(a[1..], other, if n == 0 then 0 else n - 1);
      if n > 0 {
        assert a[1..][n - 1..] == a[n..];
      } else {
        assert a == [a[0]] + a[1..];
      }
    }
  }

  /** Two paths of one tree share exactly a non-empty prefix. */
  lemma {:induction false} PathsShare(t: Tree, g: Id, a: Id, b: Id)
    requires WellFormed(t, g) && a in t && b in t
    ensures var p, q := PathTo(t, g, a), PathTo(t, g, b);
            var n := CommonLength(p, q);
            n >= 1 && forall i :: 0 <= i < |p| ==> (p[i] in Elements(q) <==> i < n)
  {
    hide Attached;
    var p, q := PathTo(t, g, a), PathTo(t, g, b);
    var n := CommonLength(p, q);
    forall i | 0 <= i < |p| ensures p[i] in Elements(q) <==> i < n {
      if i < n {
        assert p[i] == p[..n][i] == q[..n][i];
      } else if p[i] in q {
        var j :| 0 <= j < |q| && q[j] == p[i];
        PathPrefix(t, g, a, i);
        PathPrefix(t, g, b, j);
        CommonAtLeast(p, q, i + 1);
      }
    }
  }

  // ------------------------------------------------------------------ adding a block

  function Child(t: Tree, p: Id, work: int, payload: string): Block
    requires p in t
  {
    Block(Some(p), t[p].height + 1, work, t[p].cumWork + work, payload)
  }

  lemma ExtendWellFormed(t: Tree, g: Id, id: Id, p: Id, work: int, payload: string)
    requires WellFormed(t, g) && id !in t && p in t
    ensures WellFormed(t[id := Child(t, p, work, payload)], g)
  {
  }

  lemma {:induction false} ExtendTips(t: Tree, g: Id, id: Id, p: Id, work: int, payload: string)
    requires WellFormed(t, g) && id !in t && p in t
    ensures var u := t[id := Child(t, p, work, payload)];
            && Tips(u) == Tips(t) + {id} - {p}
            && Children(u, id) == {}
            && Children(u, p) == Children(t, p) + {id}
            && forall b :: b in t && b != p ==> Children(u, b) == Children(t, b)
  {
    var u := t[id := Child(t, p, work, payload)];
    assert forall c :: c in t ==> t[c].parent != Some(id);
    assert Children(u, id) == {};
    assert Children(u, p) == Children(t, p) + {id};
    forall b | b in t && b != p ensures Children(u, b) == Children(t, b) {
    }
    assert id in Children(u, p);
  }

  lemma {:induction false} ExtendPath(t: Tree, g: Id, id: Id, n: Block, b: Id)
    requires WellFormed(t, g) && WellFormed(t[id := n], g) && id !in t && b in t
    ensures PathTo(t[id := n], g, b) == PathTo(t, g, b)
    decreases t[b].height - t[g].height
  {
    if b != g {
      ExtendPath(t, g, id, n, t[b].parent.value);
    }
  }

  /** Exactly when the tip's work does not fall: the new block extends another branch, takes no work
      away, or another tip had as much. */
  ghost predicate KeepsWork(t: Tree, tip: Id, p: Id, work: int)
    requires tip in t
  {
    p != tip || work >= 0 || exists c :: c in Tips(t) && c != tip && t[c].cumWork == t[tip].cumWork
  }

  /** An addition on another branch, or of positive work, keeps the tip or moves it to the new block;
      and over any work, negative included, the tip's work falls exactly when KeepsWork fails. */
  lemma {:induction false} TipMovesToNewBlock(t: Tree, g: Id, id: Id, p: Id, work: int, payload: string, tip: Id,
      next: Id)
    requires WellFormed(t, g) && id !in t && p in t && Selected(t, tip)
    requires Selected(t[id := Child(t, p, work, payload)], next)
    ensures p != tip || work >= 1 ==> next == tip || next == id
    ensures t[id := Child(t, p, work, payload)][next].cumWork >= t[tip].cumWork <==> KeepsWork(t, tip, p, work)
  {
    var u := t[id := Child(t, p, work, payload)];
    ExtendTips(t, g, id, p, work, payload);
    hide WellFormed, Tips;
    assert next in Tips(t) || next == id;
    assert next in Tips(t) && next != tip ==> Better(t, tip, next);
    assert next != id ==> Better(u, next, id);
    if p != tip {
      assert next != tip ==> Better(u, next, tip);
      if next != tip && next != id {
        LessAsymmetric(next, tip);
      }
    } else if work < 0 && KeepsWork(t, tip, p, work) {
      var c :| c in Tips(t) && c != tip && t[c].cumWork == t[tip].cumWork;
      assert c != next ==> Better(u, next, c);
    }
  }

  /** The selected tip, on work and ids alone: every other tip has less cumulative work, or as much and a
      larger id. */
  lemma {:induction false} SelectedExactly(t: Tree, b: Id)
    ensures Selected(t, b) <==>
            && b in t && Children(t, b) == {}
            && forall c :: c in t && Children(t, c) == {} && c != b ==>
                 t[c].cumWork < t[b].cumWork || (t[c].cumWork == t[b].cumWork && Less(b, c))
  {
    hide Children;
    if Selected(t, b) {
      forall c | c in t && Children(t, c) == {} && c != b
        ensures t[c].cumWork < t[b].cumWork || (t[c].cumWork == t[b].cumWork && Less(b, c))
      {
        assert c in Tips(t) && Better(t, b, c);
      }
    }
  }

  /** A block on another branch takes the tip exactly when its branch is heavier, or as heavy and its id is
      the smaller. */
  lemma {:induction false} TakesTip(t: Tree, g: Id, id: Id, p: Id, work: int, payload: string, tip: Id, next: Id)
    requires WellFormed(t, g) && id !in t && p in t && p != tip && Selected(t, tip)
    requires Selected(t[id := Child(t, p, work, payload)], next)
    ensures next == if t[p].cumWork + work > t[tip].cumWork
                       || (t[p].cumWork + work == t[tip].cumWork && Less(id, tip)) then id else tip
  {
    var u := t[id := Child(t, p, work, payload)];
    TipMovesToNewBlock(t, g, id, p, work, payload, tip, next);
    ExtendTips(t, g, id, p, work, payload);
    SelectedExactly(u, next);
    hide WellFormed, Children, Tips;
    assert tip in Tips(u) && id in Tips(u);
    LessAsymmetric(id, tip);
  }

  // ------------------------------------------------------------------ the class

  datatype State = State(nodes: Tree, children: map<Id, set<Id>>, tips: set<Id>, canonical: seq<Id>)

  /** The links are exact and the canonical list is the path to some block. */
  ghost predicate Linked(s: State, g: Id) {
    && WellFormed(s.nodes, g)
    && s.children == (map b | b in s.nodes :: Children(s.nodes, b))
    && s.tips == Tips(s.nodes)
    && s.canonical != [] && s.canonical[|s.canonical| - 1] in s.nodes
    && s.canonical == PathTo(s.nodes, g, s.canonical[|s.canonical| - 1])
  }

  /** Everything cached is what recomputing from the set of blocks would give. */
  ghost predicate Consistent(s: State, g: Id) {
    Linked(s, g) && Selected(s.nodes, s.canonical[|s.canonical| - 1])
  }

  /** The graph with a new block hung under `p`; the canonical list is not yet reconsidered. */
  function Hang(s: State, id: Id, p: Id, work: int, payload: string): State
    requires p in s.nodes && p in s.children
  {
    State(s.nodes[id := Child(s.nodes, p, work, payload)],
          s.children[p := s.children[p] + {id}][id := {}],
          s.tips + {id} - {p}, s.canonical)
  }

  lemma {:induction false} HangLinked(s: State, g: Id, id: Id, p: Id, work: int, payload: string)
    requires Linked(s, g) && id !in s.nodes && p in s.nodes
    ensures Linked(Hang(s, id, p, work, payload), g)
  {
    hide WellFormed, PathTo, Tips;
    var n := Child(s.nodes, p, work, payload);
    ExtendWellFormed(s.nodes, g, id, p, work, payload);
    ExtendTips(s.nodes, g, id, p, work, payload);
    hide Children;
    ExtendPath(s.nodes, g, id, n, s.canonical[|s.canonical| - 1]);
  }

  class ForkAwareChain {
    const genesis: Id
    var nodes: Tree
    var children: map<Id, set<Id>>
    var tips: set<Id>
    var canonical: seq<Id>

    ghost function Snapshot(): State reads this { State(nodes, children, tips, canonical) }

    ghost predicate Valid() reads this { Consistent(Snapshot(), genesis) }

    function Tip(): Id
      requires canonical != []
      reads this
    {
      canonical[|canonical| - 1]
    }

    constructor (genesisId: Id, height: int, work: int, payload: string)
      ensures Valid() && genesis == genesisId && canonical == [genesisId]
      ensures nodes == map[genesisId := Block(None, height, work, work, payload)]
    {
      genesis := genesisId;
      nodes := map[genesisId := Block(None, height, work, work, payload)];
      children := map[genesisId := {}];
      tips := {genesisId};
      canonical := [genesisId];
      new;
      LoneGenesis(nodes, genesis);
    }

    method ChainTo(tip: Id) returns (path: seq<Id>)
      requires WellFormed(nodes, genesis) && tip in nodes
      ensures path == PathTo(nodes, genesis, tip)
    {
      var rev: seq<Id> := [];
      var cur := Some(tip);
      while cur.Some?
        invariant cur.Some? ==> cur.value in nodes
        invariant cur.Some? ==> PathTo(nodes, genesis, tip) == PathTo(nodes, genesis, cur.value) + Reverse(rev)
        invariant cur.None? ==> PathTo(nodes, genesis, tip) == Reverse(rev)
        decreases if cur.Some? then nodes[cur.value].height - nodes[genesis].height + 1 else 0
      {
        var id := cur.value;
        assert Reverse(rev + [id]) == [id] + Reverse(rev);
        rev := rev + [id];
        cur := nodes[id].parent;
      }
      return Reverse(rev);
    }

    method BestTip() returns (best: Id)
      requires tips <= nodes.Keys
      ensures if tips == {} then best == genesis else BestOf(nodes, tips, best)
    {
      var found: Option<Id> := None;
      var left := tips;
      ghost var seen: set<Id> := {};
      while left != {}
        invariant seen + left == tips && seen !! left
        invariant if found.None? then seen == {} else BestOf(nodes, seen, found.value)
        decreases |left|
      {
        var tip :| tip in left;
        if found.None? {
          found := Some(tip);
        } else {
          BestSoFar(nodes, seen, found.value, tip);
          if Better(nodes, tip, found.value) {
            found := Some(tip);
          }
        }
        MoveAcross(seen, left, tip);
        left, seen := left - {tip}, seen + {tip};
      }
      assert seen == tips;
      return if found.Some? then found.value else genesis;
    }

    method Link(id: Id, parent: Id, work: int, payload: string)
      requires parent in nodes && parent in children && id != parent
      modifies this
      ensures Snapshot() == Hang(old(Snapshot()), id, parent, work, payload)
    {
      var p := nodes[parent];
      nodes := nodes[id := Block(Some(parent), p.height + 1, work, p.cumWork + work, payload)];
      children := children[parent := children[parent] + {id}];
      children := children[id := {}];
      tips := tips + {id};
      tips := tips - {parent};
    }

    /** Moves the canonical list to the best tip and reports the difference. */
    method Reselect() returns (r: AddResult)
      requires Linked(Snapshot(), genesis)
      modifies this`canonical
      ensures canonical != [] && Selected(nodes, Tip()) && canonical == PathTo(nodes, genesis, Tip())
      ensures r == Report(old(canonical), canonical)
    {
      assert tips <= nodes.Keys && canonical == PathTo(nodes, genesis, Tip());
      hide WellFormed, Selected, BestOf, CommonLength, PathTo, Tips;
      var oldCanonical := canonical;
      var best := BestTip();
      Reselected(Snapshot(), genesis, best);
      if best == oldCanonical[|oldCanonical| - 1] {
        return ForkChoiceResult(true, false, best, [], []);
      }
      var newCanonical := ChainTo(best);
      var reverted := Without(oldCanonical, set h | h in newCanonical);
      var extended := Without(newCanonical, set h | h in oldCanonical);
      canonical := newCanonical;
      return ForkChoiceResult(true, reverted != [], best, extended, reverted);
    }

    method AddBlock(id: Id, parent: Id, work: int, payload: string) returns (r: AddResult)
      requires Valid()
      modifies this
      ensures Valid()
      ensures parent !in old(nodes) ==> r == UnknownParent && Snapshot() == old(Snapshot())
      ensures parent in old(nodes) && id in old(nodes) ==>
                r == ForkChoiceResult(false, false, Tip(), [], []) && Snapshot() == old(Snapshot())
      ensures parent in old(nodes) && id !in old(nodes) ==>
                && nodes == old(nodes)[id := Child(old(nodes), parent, work, payload)]
                && (parent != old(Tip()) || work >= 1 ==> Tip() == old(Tip()) || Tip() == id)
                && CommonLength(old(canonical), canonical) >= 1
                && r == Report(old(canonical), canonical)
    {
      if parent !in nodes { return UnknownParent; }
      if id in nodes { return ForkChoiceResult(false, false, Tip(), [], []); }
      HangLinked(Snapshot(), genesis, id, parent, work, payload);
      Link(id, parent, work, payload);
      ghost var linked := Snapshot();
      r := Reselect();
      ReselectedShares(linked, genesis, Tip());
      TipMovesToNewBlock(old(nodes), genesis, id, parent, work, payload, old(Tip()), Tip());
    }
  }

  function Reverse(s: seq<Id>): seq<Id> {
    if s == [] then [] else [s[|s| - 1]] + Reverse(s[..|s| - 1])
  }

  lemma SamePath(p: seq<Id>)
    ensures CommonLength(p, p) == |p|
  {
  }

  lemma {:induction false} BestSoFar(t: Tree, s: set<Id>, b: Id, c: Id)
    requires s <= t.Keys && BestOf(t, s, b) && c in t && c !in s
    ensures BestOf(t, s + {c}, if Better(t, c, b) then c else b)
  {
    if Better(t, c, b) {
      forall d | d in s && d != c ensures Better(t, c, d) {
        if d != b {
          BetterTransitive(t, c, b, d);
        }
      }
    } else {
      LessTotal(b, c);
    }
  }

  /** old = common ++ reverted, new = common ++ extended. */
  function Report(p: seq<Id>, q: seq<Id>): AddResult
    requires q != []
  {
    var n := CommonLength(p, q);
    ForkChoiceResult(true, n < |p|, q[|q| - 1], q[n..], p[n..])
  }

  /** A report splits both chains after their longest common beginning. */
  lemma {:induction false} ReportExactly(p: seq<Id>, q: seq<Id>)
    requires q != []
    ensures var r := Report(p, q);
            && r.ForkChoiceResult? && r.added && r.newTip == q[|q| - 1] && (r.reorg <==> r.reverted != [])
            && |r.reverted| <= |p| && |r.extended| <= |q| && |p| - |r.reverted| == |q| - |r.extended|
            && p == p[..|p| - |r.reverted|] + r.reverted && q == p[..|p| - |r.reverted|] + r.extended
            && (r.reverted != [] && r.extended != [] ==> r.reverted[0] != r.extended[0])
  {
    var n := CommonLength(p, q);
    assert p == p[..n] + p[n..] && q == q[..n] + q[n..];
  }

  /** What moving the canonical list to the best tip achieves. */
  lemma {:induction false} Reselected(s: State, g: Id, best: Id)
    requires Linked(s, g) && if s.tips == {} then best == g else BestOf(s.nodes, s.tips, best)
    ensures Selected(s.nodes, best)
    ensures var p, q := s.canonical, PathTo(s.nodes, g, best);
            && (best == p[|p| - 1] ==> p == q)
            && ForkChoiceResult(true, Without(p, Elements(q)) != [], best, Without(q, Elements(p)),
                 Without(p, Elements(q))) == Report(p, q)
            && Report(p, p) == ForkChoiceResult(true, false, p[|p| - 1], [], [])
  {
    hide WellFormed, CommonLength, Without, Better, Children;
    TipsNonEmpty(s.nodes, g);
    assert best in s.nodes;
    hide BestOf, Tips;
    DiffIsSuffix(s.nodes, g, s.canonical[|s.canonical| - 1], best);
    SamePath(s.canonical);
  }

  lemma {:induction false} ReselectedShares(s: State, g: Id, best: Id)
    requires Linked(s, g) && Selected(s.nodes, best)
    ensures Consistent(s.(canonical := PathTo(s.nodes, g, best)), g)
    ensures CommonLength(s.canonical, PathTo(s.nodes, g, best)) >= 1
  {
    hide WellFormed, CommonLength, Children, Better;
    DiffIsSuffix(s.nodes, g, s.canonical[|s.canonical| - 1], best);
  }

  lemma MoveAcross(a: set<Id>, b: set<Id>, x: Id)
    requires a !! b && x in b
    ensures (a + {x}) + (b - {x}) == a + b && (a + {x}) !! (b - {x})
  {
  }

  /** The highest block is a tip. */
  lemma {:induction false} TipsNonEmpty(t: Tree, g: Id)
    requires WellFormed(t, g)
    ensures Tips(t) != {}
  {
    var m := HighestExists(t, t.Keys);
    forall c | c in t ensures t[c].parent != Some(m) {
      assert c != g ==> Attached(t, t[c]);
    }
    assert Children(t, m) == {};
    assert m in Tips(t);
  }

  lemma {:induction false} HighestExists(t: Tree, s: set<Id>) returns (m: Id)
    requires s <= t.Keys && s != {}
    ensures m in s && forall b :: b in s ==> t[b].height <= t[m].height
    decreases s
  {
    m :| m in s;
    if s != {m} {
      var k := HighestExists(t, s - {m});
      if t[k].height > t[m].height {
        m := k;
      }
    }
  }

  lemma {:induction false} LoneGenesis(t: Tree, g: Id)
    requires t.Keys == {g} && t[g].parent == None && t[g].cumWork == t[g].work
    ensures Consistent(State(t, map[g := {}], {g}, [g]), g)
  {
    assert Children(t, g) == {};
    assert Tips(t) == {g};
  }

  /** Reorg diff: old canonical = common ++ reverted and new canonical = common ++ extended. */
  lemma {:induction false} DiffIsSuffix(t: Tree, g: Id, a: Id, b: Id)
    requires WellFormed(t, g) && a in t && b in t
    ensures var p, q := PathTo(t, g, a), PathTo(t, g, b);
            var n := CommonLength(p, q);
            && CommonLength(q, p) == n >= 1
            && Without(p, Elements(q)) == p[n..]
            && Without(q, Elements(p)) == q[n..]
  {
    var p, q := PathTo(t, g, a), PathTo(t, g, b);
    PathsShare(t, g, a, b);
    PathsShare(t, g, b, a);
    CommonSymmetric(p, q);
    WithoutSuffix(p, Elements(q), CommonLength(p, q));
    WithoutSuffix(q, Elements(p), CommonLength(p, q));
  }

  lemma {:induction false} CommonSymmetric(p: seq<Id>, q: seq<Id>)
    ensures CommonLength(p, q) == CommonLength(q, p)
  {
    if p != [] && q != [] && p[0] == q[0] {
      CommonSymmetric(p[1..], q[1..]);
    }
  }
}
