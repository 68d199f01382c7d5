/** Rivals in one conflict set: exactly what a query accepts, and exactly when two members of a set
    end up accepted. */
module AvalancheRivals {
  import opened Common
  import opened Avalanche
  import opened AvalancheEngine

  // ------------------------------------------------------------------ what a vertex still needs

  /** b holds x and, of every vertex it holds, the known parents outside `base`. */
  ghost predicate NeedClosed(vs: map<Id, Vertex>, base: set<Id>, x: Id, b: set<Id>) {
    x in b && forall y, p :: y in b && y in vs && p in vs[y].parents && p in vs && p !in base ==> p in b
  }

  ghost predicate InEvery(vs: map<Id, Vertex>, base: set<Id>, x: Id, y: Id) {
    forall b: set<Id> :: NeedClosed(vs, base, x, b) ==> y in b
  }

  /** x and its known ancestors up to those in `base`: what has to be accepted before x can be. */
  ghost function Needs(vs: map<Id, Vertex>, base: set<Id>, x: Id): set<Id> {
    set y | y in vs && InEvery(vs, base, x, y)
  }

  lemma {:induction false} NeedsClosed(vs: map<Id, Vertex>, base: set<Id>, x: Id)
    requires x in vs
    ensures NeedClosed(vs, base, x, Needs(vs, base, x))
  {
    forall y, p | y in Needs(vs, base, x) && p in vs[y].parents && p in vs && p !in base
      ensures p in Needs(vs, base, x)
    {
      forall b: set<Id> | NeedClosed(vs, base, x, b) ensures p in b {
        assert y in b;
      }
    }
  }

  lemma NeedsLeast(vs: map<Id, Vertex>, base: set<Id>, x: Id, b: set<Id>)
    requires NeedClosed(vs, base, x, b)
    ensures Needs(vs, base, x) <= b
  {
  }

  /** The rank falls along every parent outside `base`: there is no cycle to wait for. */
  ghost predicate Descends(vs: map<Id, Vertex>, base: set<Id>, need: set<Id>, rank: map<Id, nat>) {
    forall y :: y in need ==> y in rank && DescendsAt(vs, base, rank, y)
  }

  ghost predicate DescendsAt(vs: map<Id, Vertex>, base: set<Id>, rank: map<Id, nat>, y: Id)
    requires y in rank
  {
    y in vs && forall p :: p in vs[y].parents && p in vs && p !in base ==> p in rank && rank[p] < rank[y]
  }

  // ------------------------------------------------------------------ exactly what a closure accepts

  /** A closure accepts in some order: each new vertex after its known parents. */
  lemma {:induction false} ClosureRanked(t: Settings, s: State, base: set<Id>) returns (rank: map<Id, nat>)
    ensures Descends(s.vertices, base, Closure(t, s, base) - base, rank)
    decreases |s.vertices.Keys - base|
  {
    hide Ready, Descends;
    if exists x :: x !in base && CanAccept(t, s, base, x) {
      var x :| x !in base && CanAccept(t, s, base, x) && Closure(t, s, base) == Closure(t, s, base + {x});
      Shrinks(s.vertices.Keys, base, x);
      var later := ClosureRanked(t, s, base + {x});
      rank := RankFirst(s.vertices, base, Closure(t, s, base), x, later);
    } else {
      rank := map[];
      NothingDescends(s.vertices, base, Closure(t, s, base) - base, rank);
    }
  }

  lemma NothingDescends(vs: map<Id, Vertex>, base: set<Id>, need: set<Id>, rank: map<Id, nat>)
    requires need == {}
    ensures Descends(vs, base, need, rank)
  {
  }

  /** x, whose known parents are all in `base`, comes before everything else. */
  lemma {:induction false} RankFirst(vs: map<Id, Vertex>, base: set<Id>, all: set<Id>, x: Id, later: map<Id, nat>)
    returns (rank: map<Id, nat>)
    requires x in vs && forall p :: p in vs[x].parents && p in vs ==> p in base
    requires Descends(vs, base + {x}, all - (base + {x}), later)
    ensures Descends(vs, base, all - base, rank)
  {
    rank := map y | y in later.Keys + {x} :: if y == x then 0 else later[y] + 1;
    forall y | y in all - base ensures y in rank && DescendsAt(vs, base, rank, y) {
      assert y != x ==> y in later && DescendsAt(vs, base + {x}, later, y);
    }
  }

  /** In any state, x outside `base` is accepted by the closure if and only if x and all it needs are
      ready, and no cycle of parents is in the way. */
  lemma {:induction false} AcceptedExactly(t: Settings, s: State, base: set<Id>, x: Id)
    requires x in s.vertices && x !in base
    ensures x in Closure(t, s, base) <==>
            && (forall y :: y in Needs(s.vertices, base, x) ==> Ready(t, s, y))
            && exists rank :: Descends(s.vertices, base, Needs(s.vertices, base, x), rank)
  {
    var all, need := Closure(t, s, base), Needs(s.vertices, base, x);
    if x in all {
      NewNeedClosed(t, s, base, x);
      NeedsLeast(s.vertices, base, x, all - base);
      forall y | y in need ensures Ready(t, s, y) {
        ClosureExact(t, s, base, y);
      }
      var rank := ClosureRanked(t, s, base);
      assert Descends(s.vertices, base, need, rank);
    }
    if (forall y :: y in need ==> Ready(t, s, y)) && exists rank :: Descends(s.vertices, base, need, rank) {
      var rank :| Descends(s.vertices, base, need, rank);
      NeedsClosed(s.vertices, base, x);
      NeededAccepted(t, s, base, x, rank, x);
    }
  }

  lemma {:induction false} NewNeedClosed(t: Settings, s: State, base: set<Id>, x: Id)
    requires x in Closure(t, s, base) - base
    ensures NeedClosed(s.vertices, base, x, Closure(t, s, base) - base)
  {
    var all := Closure(t, s, base);
    forall y, p | y in all - base && y in s.vertices && p in s.vertices[y].parents && p in s.vertices && p !in base
      ensures p in all - base
    {
      ClosureExact(t, s, base, y);
      assert ParentsAccepted(s, all, y);
    }
  }

  lemma {:induction false} NeededAccepted(t: Settings, s: State, base: set<Id>, x: Id, rank: map<Id, nat>, y: Id)
    requires x in s.vertices && y in Needs(s.vertices, base, x)
    requires forall z :: z in Needs(s.vertices, base, x) ==> Ready(t, s, z)
    requires Descends(s.vertices, base, Needs(s.vertices, base, x), rank)
    ensures y in Closure(t, s, base)
    decreases rank[y]
  {
    var all := Closure(t, s, base);
    NeedsClosed(s.vertices, base, x);
    ClosureIsLeast(t, s, base);
    assert y in rank && DescendsAt(s.vertices, base, rank, y);
    forall p | p in s.vertices[y].parents && p in s.vertices ensures p in all {
      if p !in base {
        NeededAccepted(t, s, base, x, rank, p);
      }
    }
    assert CanAccept(t, s, all, y);
  }

  /** When the known parents of b are accepted, one query accepts b exactly when the Snowball step
      leaves b preferred with its set's counter at the threshold: a rival accepted earlier is not
      looked at. */
  lemma {:induction false} AcceptedIff(t: Settings, s: State, x: Id, votes: int, b: Id)
    requires Sound(s) && x in s.vertices && b !in s.accepted && ParentsAccepted(s, s.accepted, b)
    ensures b in RecordQuery(t, s, x, votes).accepted <==> Ready(t, Snowball(t, s, x, votes), b)
  {
    var v := Snowball(t, s, x, votes);
    ClosureExact(t, v, v.accepted, b);
    ClosureIsLeast(t, v, v.accepted);
  }

  /** What b needs: everything it needs is ready after the Snowball step of the query, and no cycle of
      parents is in the way. */
  ghost predicate Earns(t: Settings, s: State, x: Id, votes: int, b: Id)
    requires Located(s, x)
  {
    && (forall y :: y in Needs(s.vertices, s.accepted, b) ==> Ready(t, Snowball(t, s, x, votes), y))
    && exists rank :: Descends(s.vertices, s.accepted, Needs(s.vertices, s.accepted, b), rank)
  }

  /** In any state a query accepts b if and only if b was accepted or earns it. */
  lemma {:induction false} EarnedIff(t: Settings, s: State, x: Id, votes: int, b: Id)
    requires Located(s, x) && b in s.vertices
    ensures b in RecordQuery(t, s, x, votes).accepted <==> b in s.accepted || Earns(t, s, x, votes, b)
  {
    hide Needs, Descends, Ready;
    var v := Snowball(t, s, x, votes);
    ClosureIsLeast(t, v, v.accepted);
    if b !in s.accepted {
      AcceptedExactly(t, v, s.accepted, b);
    }
  }

  // ------------------------------------------------------------------ at most one of a set

  predicate Rivals(s: State, a: Id, b: Id) {
    a in s.vertices && b in s.vertices && a != b && s.vertices[a].conflictId == s.vertices[b].conflictId
  }

  /** No conflict set has two accepted members. */
  ghost predicate AtMostOne(s: State) {
    forall a, b :: a in s.accepted && b in s.accepted ==> !Rivals(s, a, b)
  }

  /** The query would accept a rival of an accepted vertex. */
  ghost predicate Clashes(t: Settings, s: State, x: Id, votes: int)
    requires Located(s, x)
  {
    exists a, b :: a in s.accepted && b !in s.accepted && Rivals(s, a, b) && Earns(t, s, x, votes, b)
  }

  /** Exactly when a query keeps at most one accepted member in every set. */
  lemma {:induction false} QueryKeepsOne(t: Settings, s: State, x: Id, votes: int)
    requires Sound(s) && Located(s, x) && AtMostOne(s)
    ensures AtMostOne(RecordQuery(t, s, x, votes)) <==> !Clashes(t, s, x, votes)
  {
    hide AtMostOne, Clashes, Sound, RecordQuery;
    if Clashes(t, s, x, votes) {
      ClashBreaks(t, s, x, votes);
    } else {
      NoClashKeeps(t, s, x, votes);
    }
  }

  lemma {:induction false} ClashBreaks(t: Settings, s: State, x: Id, votes: int)
    requires Sound(s) && Located(s, x) && Clashes(t, s, x, votes)
    ensures !AtMostOne(RecordQuery(t, s, x, votes))
  {
    hide Sound, RecordQuery, Earns;
    var u := RecordQuery(t, s, x, votes);
    QueryGrows(t, s, x, votes);
    var a, b :| a in s.accepted && b !in s.accepted && Rivals(s, a, b) && Earns(t, s, x, votes, b);
    EarnedIff(t, s, x, votes, b);
    assert Rivals(u, a, b) && a in u.accepted && b in u.accepted;
  }

  lemma {:induction false} NoClashKeeps(t: Settings, s: State, x: Id, votes: int)
    requires Sound(s) && Located(s, x) && AtMostOne(s) && !Clashes(t, s, x, votes)
    ensures AtMostOne(RecordQuery(t, s, x, votes))
  {
    hide Sound, RecordQuery, Clashes;
    var u := RecordQuery(t, s, x, votes);
    QueryGrows(t, s, x, votes);
    forall a, b | a in u.accepted && b in u.accepted ensures !Rivals(u, a, b) {
      assert Rivals(u, a, b) <==> Rivals(s, a, b);
      NoNewRival(t, s, x, votes, a, b);
      NoNewRival(t, s, x, votes, b, a);
      if a !in s.accepted && b !in s.accepted {
        NewAreNoRivals(t, s, x, votes, a, b);
      }
    }
  }

  lemma {:induction false} NewAreNoRivals(t: Settings, s: State, x: Id, votes: int, a: Id, b: Id)
    requires Located(s, x)
    requires a in RecordQuery(t, s, x, votes).accepted - s.accepted
    requires b in RecordQuery(t, s, x, votes).accepted - s.accepted
    ensures !Rivals(s, a, b)
  {
    var v := Snowball(t, s, x, votes);
    OneNewMember(t, v, v.accepted, a, b);
    hide Closure;
  }

  lemma {:induction false} NoNewRival(t: Settings, s: State, x: Id, votes: int, a: Id, b: Id)
    requires Located(s, x) && AtMostOne(s) && !Clashes(t, s, x, votes)
    requires b in RecordQuery(t, s, x, votes).accepted
    ensures a in s.accepted ==> !Rivals(s, a, b)
  {
    hide Earns, RecordQuery;
    if b in s.vertices {
      EarnedIff(t, s, x, votes, b);
    }
  }

  /** A step that is no clashing query. */
  ghost predicate Harmless(t: Settings, s: State, e: Event) {
    e.Query? && Located(s, e.x) ==> !Clashes(t, s, e.x, e.votes)
  }

  /** No event of the run is a clashing query. */
  ghost predicate AllHarmless(t: Settings, events: seq<Event>) {
    events == [] ||
    (AllHarmless(t, events[..|events| - 1]) && Harmless(t, Replay(t, events[..|events| - 1]), events[|events| - 1]))
  }

  /** Exactly when a whole run accepts at most one member of every set: none of its queries accepts a
      rival of what was accepted before. */
  lemma {:induction false} RunKeepsOne(t: Settings, events: seq<Event>)
    ensures AtMostOne(Replay(t, events)) <==> AllHarmless(t, events)
  {
    hide AtMostOne, Harmless, Apply;
    if events == [] {
      NoneAccepted();
    } else {
      RunKeepsOne(t, events[..|events| - 1]);
      StepKeepsOne(t, events[..|events| - 1], events[|events| - 1]);
    }
  }

  lemma NoneAccepted()
    ensures AtMostOne(INITIAL)
  {
  }

  lemma {:induction false} StepKeepsOne(t: Settings, events: seq<Event>, e: Event)
    ensures var s := Replay(t, events); AtMostOne(Apply(t, s, e)) <==> AtMostOne(s) && Harmless(t, s, e)
  {
    hide AtMostOne, Clashes, Sound;
    var s := Replay(t, events);
    ReplaySound(t, events);
    match e
    case Add(x, parents, conflictId) => AddKeepsOne(s, x, parents, conflictId);
    case Query(x, votes) =>
      if Located(s, x) {
        QueryGrows(t, s, x, votes);
        GrowthKeepsRivals(s, RecordQuery(t, s, x, votes));
        if AtMostOne(s) {
          QueryKeepsOne(t, s, x, votes);
        }
      }
  }

  lemma {:induction false} AddKeepsOne(s: State, x: Id, parents: seq<Id>, conflictId: Option<string>)
    requires Sound(s)
    ensures AtMostOne(AddTx(s, x, parents, conflictId)) <==> AtMostOne(s)
  {
    hide SetSound;
    var u := AddTx(s, x, parents, conflictId);
    assert u.accepted == s.accepted;
    forall a, b | a in s.accepted && b in s.accepted ensures Rivals(u, a, b) <==> Rivals(s, a, b) {
      assert a in s.vertices && b in s.vertices;
    }
  }

  lemma {:induction false} QueryGrows(t: Settings, s: State, x: Id, votes: int)
    requires Sound(s) && Located(s, x)
    ensures var u := RecordQuery(t, s, x, votes); s.accepted <= u.accepted && u.vertices == s.vertices
  {
    hide Sound;
    QuerySound(t, s, x, votes);
  }

  lemma {:induction false} GrowthKeepsRivals(s: State, u: State)
    requires s.accepted <= u.accepted && u.vertices == s.vertices
    ensures AtMostOne(u) ==> AtMostOne(s)
  {
    if AtMostOne(u) {
      forall a, b | a in s.accepted && b in s.accepted ensures !Rivals(s, a, b) {
        assert Rivals(s, a, b) ==> Rivals(u, a, b);
      }
    }
  }

  // ------------------------------------------------------------------ parents first

  /** In a run with parents first the order of arrival ranks the vertices. */
  lemma {:induction false} RunRanked(t: Settings, events: seq<Event>) returns (rank: map<Id, nat>)
    requires ParentsFirst(t, events)
    ensures var vs := Replay(t, events).vertices;
            && rank.Keys == vs.Keys && Descends(vs, {}, vs.Keys, rank)
            && forall y :: y in rank ==> rank[y] < |events|
  {
    if events == [] {
      rank := map[];
    } else {
      var s, e := Replay(t, events[..|events| - 1]), events[|events| - 1];
      var vs := Replay(t, events).vertices;
      var before := RunRanked(t, events[..|events| - 1]);
      AcceptedWithAncestors(t, events[..|events| - 1]);
      rank := if e.Add? && e.x !in s.vertices then before[e.x := |events| - 1] else before;
      forall y | y in vs ensures y in rank && DescendsAt(vs, {}, rank, y) {
        assert y in before ==> DescendsAt(s.vertices, {}, before, y);
      }
    }
  }

  /** With parents first no cycle is in the way: b earns acceptance when all it needs is ready. */
  lemma {:induction false} EarnsInOrder(t: Settings, events: seq<Event>, x: Id, votes: int, b: Id)
    requires ParentsFirst(t, events) && Located(Replay(t, events), x)
    ensures var s := Replay(t, events);
            Earns(t, s, x, votes, b) <==>
            forall y :: y in Needs(s.vertices, s.accepted, b) ==> Ready(t, Snowball(t, s, x, votes), y)
  {
    hide Ready, Snowball;
    var s := Replay(t, events);
    var rank := RunRanked(t, events);
    var need := Needs(s.vertices, s.accepted, b);
    forall y | y in need ensures y in rank && DescendsAt(s.vertices, s.accepted, rank, y) {
      assert y in s.vertices.Keys && DescendsAt(s.vertices, {}, rank, y);
    }
    assert Descends(s.vertices, s.accepted, need, rank);
  }

  /** With parents first, what b needs are b and those of its ancestors that are not accepted. */
  lemma {:induction false} NeedsAreAncestors(t: Settings, events: seq<Event>, b: Id, ancestors: set<Id>)
    requires ParentsFirst(t, events)
    requires var s := Replay(t, events); b in s.vertices && b !in s.accepted && IsAncestors(s.vertices, b, ancestors)
    ensures var s := Replay(t, events); Needs(s.vertices, s.accepted, b) == {b} + (ancestors - s.accepted)
  {
    var s := Replay(t, events);
    var vs, base := s.vertices, s.accepted;
    AcceptedWithAncestors(t, events);
    NeedsLeast(vs, base, b, {b} + (ancestors - base));
    NeedsClosed(vs, base, b);
    var need := Needs(vs, base, b);
    assert UpClosed(vs, b, need + base);
    assert ancestors <= need + base;
  }

  /** With parents first a query accepts b if and only if b was accepted, or b and those of the ancestors
      that the engine's own search finds that are not accepted are ready after the Snowball step. */
  lemma {:induction false} EarnedByAncestors(t: Settings, events: seq<Event>, x: Id, votes: int, b: Id,
      ancestors: set<Id>)
    requires ParentsFirst(t, events)
    requires var s := Replay(t, events); Located(s, x) && b in s.vertices && IsAncestors(s.vertices, b, ancestors)
    ensures var s := Replay(t, events);
            var v := Snowball(t, s, x, votes);
            b in RecordQuery(t, s, x, votes).accepted <==>
            b in s.accepted || (Ready(t, v, b) && forall a :: a in ancestors && a !in s.accepted ==> Ready(t, v, a))
  {
    EarnedIff(t, Replay(t, events), x, votes, b);
    EarnsInOrder(t, events, x, votes, b);
    if b !in Replay(t, events).accepted {
      NeedsAreAncestors(t, events, b, ancestors);
    }
  }

  // ------------------------------------------------------------------ two rivals can both be accepted

  const TWO_RIVALS: seq<Event> := [
    Event.Add("a", [], Some("c")), Event.Add("b", [], Some("c")),
    Query("a", 1), Query("a", 0), Query("a", 1), Query("b", 1), Query("b", 1), Query("b", 1)]

  const SMALL := Settings(1, 1, 2)

  function Pair(da: nat, db: nat, pref: Id, last: Option<Id>, cnt: nat, accepted: set<Id>): State {
    State(map["a" := Vertex([], "c"), "b" := Vertex([], "c")], map["a" := da, "b" := db],
          map["c" := ConflictSet(["a", "b"], pref, last, cnt)], accepted)
  }

  /** In the pair, a query accepts the preference exactly when the counter is at the threshold. */
  lemma {:induction false} PairQuery(s: State, x: Id, votes: int, da: nat, db: nat, pref: Id, last: Option<Id>,
      cnt: nat, accepted: set<Id>)
    requires x in s.vertices && Located(s, x) && (pref == "a" || pref == "b")
    requires Snowball(SMALL, s, x, votes) == Pair(da, db, pref, last, cnt, accepted)
    ensures RecordQuery(SMALL, s, x, votes) ==
              Pair(da, db, pref, last, cnt, if cnt >= 2 then accepted + {pref} else accepted)
  {
    var v := Snowball(SMALL, s, x, votes);
    var all := Closure(SMALL, v, accepted);
    ClosureIsLeast(SMALL, v, accepted);
    forall y ensures y in all <==> y in accepted || (cnt >= 2 && y == pref) {
      ClosureExact(SMALL, v, accepted, y);
    }
    assert all == if cnt >= 2 then accepted + {pref} else accepted;
  }

  lemma {:induction false} ReplayAppend(t: Settings, events: seq<Event>, e: Event)
    ensures Replay(t, events + [e]) == Apply(t, Replay(t, events), e)
  {
    assert (events + [e])[..|events|] == events;
  }

  lemma {:induction false} TwoRivalsAdded()
    ensures Replay(SMALL, TWO_RIVALS[..2]) == Pair(0, 0, "a", None, 0, {})
  {
    var e0, e1 := Event.Add("a", [], Some("c")), Event.Add("b", [], Some("c"));
    ReplayAppend(SMALL, [], e0);
    ReplayAppend(SMALL, [e0], e1);
    assert TWO_RIVALS[..2] == [] + [e0] + [e1];
    var one := AddTx(INITIAL, "a", [], Some("c"));
    assert "a" != "b";
    assert one == State(map["a" := Vertex([], "c")], map["a" := 0], map["c" := ConflictSet(["a"], "a", None, 0)], {});
    assert ["a"] + ["b"] == ["a", "b"];
    assert AddTx(one, "b", [], Some("c")) == Pair(0, 0, "a", None, 0, {});
  }

  /** The Snowball step of the pair, written out. */
  ghost predicate PairStep(x: Id, votes: int, da: nat, db: nat, pref: Id, last: Option<Id>, cnt: nat, da': nat,
      db': nat, pref': Id, last': Option<Id>, cnt': nat) {
    if votes >= 1 then
      && da' == (if x == "a" then da + 1 else da) && db' == (if x == "b" then db + 1 else db)
      && pref' == (if (if x == "a" then da' else db') > (if pref == "a" then da' else db') then x else pref)
      && last' == Some(x) && cnt' == (if last == Some(x) then cnt + 1 else 1)
    else da' == da && db' == db && pref' == pref && last' == last && cnt' == 0
  }

  lemma {:induction false} PairSnowball(x: Id, votes: int, da: nat, db: nat, pref: Id, last: Option<Id>, cnt: nat,
      accepted: set<Id>)
    returns (da': nat, db': nat, pref': Id, last': Option<Id>, cnt': nat)
    requires (x == "a" || x == "b") && (pref == "a" || pref == "b")
    ensures PairStep(x, votes, da, db, pref, last, cnt, da', db', pref', last', cnt')
    ensures Located(Pair(da, db, pref, last, cnt, accepted), x)
    ensures Snowball(SMALL, Pair(da, db, pref, last, cnt, accepted), x, votes) ==
              Pair(da', db', pref', last', cnt', accepted)
    ensures pref' == "a" || pref' == "b"
  {
    var s := Pair(da, db, pref, last, cnt, accepted);
    assert "a" != "b";
    var v := Snowball(SMALL, s, x, votes);
    da', db' := v.d["a"], v.d["b"];
    pref', last', cnt' := v.conflicts["c"].pref, v.conflicts["c"].last, v.conflicts["c"].cnt;
    assert v.d == map["a" := da', "b" := db'];
  }

  lemma {:induction false} TwoRivalsQuery(n: nat, da: nat, db: nat, pref: Id, last: Option<Id>, cnt: nat,
      accepted: set<Id>)
    returns (da': nat, db': nat, pref': Id, last': Option<Id>, cnt': nat)
    requires 2 <= n < |TWO_RIVALS| && TWO_RIVALS[n].Query? && (TWO_RIVALS[n].x == "a" || TWO_RIVALS[n].x == "b")
    requires pref == "a" || pref == "b"
    requires Replay(SMALL, TWO_RIVALS[..n]) == Pair(da, db, pref, last, cnt, accepted)
    ensures PairStep(TWO_RIVALS[n].x, TWO_RIVALS[n].votes, da, db, pref, last, cnt, da', db', pref', last', cnt')
    ensures Replay(SMALL, TWO_RIVALS[..n + 1]) ==
            Pair(da', db', pref', last', cnt', if cnt' >= 2 then accepted + {pref'} else accepted)
  {
    hide Snowball, Replay, Pair, PairStep, RecordQuery;
    var s, e := Pair(da, db, pref, last, cnt, accepted), TWO_RIVALS[n];
    da', db', pref', last', cnt' := PairSnowball(e.x, e.votes, da, db, pref, last, cnt, accepted);
    PairQuery(s, e.x, e.votes, da', db', pref', last', cnt', accepted);
    ReplayAppend(SMALL, TWO_RIVALS[..n], e);
    assert TWO_RIVALS[..n] + [e] == TWO_RIVALS[..n + 1];
  }

  /** Acceptance does not exclude a rival: here "a" is accepted while the successes counted are
      those of "b", and one more success of "b" accepts "b" as well. */
  lemma {:induction false} BothRivalsAccepted()
    ensures "a" in Replay(SMALL, TWO_RIVALS[..7]).accepted && TWO_RIVALS[6] == Query("b", 1)
    ensures Replay(SMALL, TWO_RIVALS).accepted == {"a", "b"}
    ensures Replay(SMALL, TWO_RIVALS).vertices == map["a" := Vertex([], "c"), "b" := Vertex([], "c")]
  {
    hide Replay, Pair;
    TwoRivalsAdded();
    var da, db, pref, last, cnt := TwoRivalsQuery(2, 0, 0, "a", None, 0, {});
    da, db, pref, last, cnt := TwoRivalsQuery(3, da, db, pref, last, cnt, {});
    da, db, pref, last, cnt := TwoRivalsQuery(4, da, db, pref, last, cnt, {});
    da, db, pref, last, cnt := TwoRivalsQuery(5, da, db, pref, last, cnt, {});
    da, db, pref, last, cnt := TwoRivalsQuery(6, da, db, pref, last, cnt, {});
    assert {} + {"a"} == {"a"};
    PairShows(da, db, pref, last, cnt, {"a"});
    da, db, pref, last, cnt := TwoRivalsQuery(7, da, db, pref, last, cnt, {"a"});
    PairShows(da, db, pref, last, cnt, {"a"} + {"b"});
    assert TWO_RIVALS[..8] == TWO_RIVALS;
  }

  lemma PairShows(da: nat, db: nat, pref: Id, last: Option<Id>, cnt: nat, accepted: set<Id>)
    ensures var s := Pair(da, db, pref, last, cnt, accepted);
            s.accepted == accepted && s.vertices == map["a" := Vertex([], "c"), "b" := Vertex([], "c")]
  {
  }
}
