/** Avalanche: Snowball counters per conflict set and a fixpoint loop of acceptances over a DAG. */
module Avalanche {
  import opened Common

  type Id = string

  datatype Vertex = Vertex(parents: seq<Id>, conflictId: string)

  /** A set comes into being with its first member, which it then prefers. */
  datatype ConflictSet = ConflictSet(members: seq<Id>, pref: Id, last: Option<Id>, cnt: nat)

  datatype Settings = Settings(quorum: int, beta1: int, beta2: int)

  datatype State = State(vertices: map<Id, Vertex>, d: map<Id, nat>, conflicts: map<string, ConflictSet>,
    accepted: set<Id>)

  const INITIAL := State(map[], map[], map[], {})

  // ------------------------------------------------------------------ steps

  function AddTx(s: State, x: Id, parents: seq<Id>, conflictId: Option<string>): State {
    if x in s.vertices then s
    else
      var c := if conflictId.Some? then conflictId.value else x;
      var k := if c in s.conflicts then s.conflicts[c].(members := s.conflicts[c].members + [x])
        else ConflictSet([x], x, None, 0);
      State(s.vertices[x := Vertex(parents, c)], s.d[x := 0], s.conflicts[c := k], s.accepted)
  }

  predicate Located(s: State, x: Id) {
    x in s.vertices && x in s.d && s.vertices[x].conflictId in s.conflicts
  }

  /** A conflict set after a success of x, whose confidence is now dx. */
  function Succeeded(k: ConflictSet, x: Id, dx: nat, best: nat): ConflictSet {
    ConflictSet(k.members, if dx > best then x else k.pref, Some(x), if k.last == Some(x) then k.cnt + 1 else 1)
  }

  /** One Snowball step for x. */
  function Snowball(t: Settings, s: State, x: Id, votes: int): State
    requires Located(s, x)
  {
    var c := s.vertices[x].conflictId;
    var k := s.conflicts[c];
    if votes >= t.quorum then
      var dx := s.d[x] + 1;
      var best := if k.pref == x then dx else if k.pref in s.d then s.d[k.pref] else 0;
      s.(d := s.d[x := dx], conflicts := s.conflicts[c := Succeeded(k, x, dx, best)])
    else
      s.(conflicts := s.conflicts[c := k.(cnt := 0)])
  }

  /** x is the preference of its set and the set's counter has reached its threshold. */
  predicate Ready(t: Settings, s: State, x: Id) {
    x in s.vertices && s.vertices[x].conflictId in s.conflicts &&
    var k := s.conflicts[s.vertices[x].conflictId];
    k.pref == x && k.cnt >= if |k.members| == 1 then t.beta1 else t.beta2
  }

  predicate ParentsAccepted(s: State, accepted: set<Id>, x: Id) {
    x in s.vertices && forall p :: p in s.vertices[x].parents && p in s.vertices ==> p in accepted
  }

  predicate CanAccept(t: Settings, s: State, accepted: set<Id>, x: Id) {
    Ready(t, s, x) && ParentsAccepted(s, accepted, x)
  }

  ghost predicate Closed(t: Settings, s: State, accepted: set<Id>) {
    forall x :: CanAccept(t, s, accepted, x) ==> x in accepted
  }

  /** Accept until nothing more can be accepted. */
  ghost function Closure(t: Settings, s: State, accepted: set<Id>): set<Id>
    decreases |s.vertices.Keys - accepted|
  {
    if exists x :: x !in accepted && CanAccept(t, s, accepted, x) then
      var x :| x !in accepted && CanAccept(t, s, accepted, x);
      Shrinks(s.vertices.Keys, accepted, x);
      Closure(t, s, accepted + {x})
    else accepted
  }

  ghost function RecordQuery(t: Settings, s: State, x: Id, votes: int): State {
    if !Located(s, x) then s
    else
      var u := Snowball(t, s, x, votes);
      u.(accepted := Closure(t, u, u.accepted))
  }

  // ------------------------------------------------------------------ the acceptance loop

  /** The least superset of `base` that is closed under acceptance. */
  ghost predicate LeastClosed(t: Settings, s: State, base: set<Id>, result: set<Id>) {
    base <= result && Closed(t, s, result) && forall b :: base <= b && Closed(t, s, b) ==> result <= b
  }

  lemma {:induction false} ClosureIsLeast(t: Settings, s: State, base: set<Id>)
    ensures LeastClosed(t, s, base, Closure(t, s, base))
    decreases |s.vertices.Keys - base|
  {
    if exists x :: x !in base && CanAccept(t, s, base, x) {
      var x :| x !in base && CanAccept(t, s, base, x) && Closure(t, s, base) == Closure(t, s, base + {x});
      Shrinks(s.vertices.Keys, base, x);
      ClosureIsLeast(t, s, base + {x});
      forall b | base <= b && Closed(t, s, b) ensures Closure(t, s, base) <= b {
        assert CanAccept(t, s, b, x);
      }
    }
  }

  /** Any order of acceptances that stops only when nothing is left ends in the same set. */
  lemma LeastClosedUnique(t: Settings, s: State, base: set<Id>, a: set<Id>, b: set<Id>)
    requires LeastClosed(t, s, base, a) && LeastClosed(t, s, base, b)
    ensures a == b
  {
  }

  /** Exactly what a closure accepts: whatever was accepted, and every ready vertex whose known
      parents the closure itself accepts. */
  lemma {:induction false} ClosureExact(t: Settings, s: State, base: set<Id>, x: Id)
    ensures x in Closure(t, s, base) <==> x in base || CanAccept(t, s, Closure(t, s, base), x)
  {
    var all := Closure(t, s, base);
    ClosureIsLeast(t, s, base);
    if x in all && x !in base && !CanAccept(t, s, all, x) {
      forall y | CanAccept(t, s, all - {x}, y) ensures y in all - {x} {
        assert CanAccept(t, s, all, y);
      }
      assert Closed(t, s, all - {x}) && base <= all - {x};
    }
  }

  /** One closure accepts at most one new member of a conflict set: its preference. */
  lemma {:induction false} OneNewMember(t: Settings, s: State, base: set<Id>, x: Id, y: Id)
    requires x in Closure(t, s, base) && x !in base && y in Closure(t, s, base) && y !in base
    ensures Ready(t, s, x)
            && (x in s.vertices && y in s.vertices && s.vertices[x].conflictId == s.vertices[y].conflictId ==> x == y)
  {
    ClosureExact(t, s, base, x);
    ClosureExact(t, s, base, y);
  }

  // ------------------------------------------------------------------ what every step keeps

  /** The preference is a member of maximal confidence, and the counter never exceeds the
      confidence of the member it counts. */
  ghost predicate SetSound(s: State, c: string)
    requires c in s.conflicts
  {
    var k := s.conflicts[c];
    && Distinct(k.members) && k.pref in k.members && k.pref in s.d
    && (forall m :: m in k.members ==>
         m in s.vertices && m in s.d && s.vertices[m].conflictId == c && s.d[m] <= s.d[k.pref])
    && (if k.last.None? then k.cnt == 0 else k.last.value in k.members && k.cnt <= s.d[k.last.value])
  }

  /** Every vertex is listed in its own conflict set, and every set is sound. */
  ghost predicate Sound(s: State) {
    && s.d.Keys == s.vertices.Keys
    && (forall x :: x in s.vertices ==> Located(s, x) && x in s.conflicts[s.vertices[x].conflictId].members)
    && (forall c :: c in s.conflicts ==> SetSound(s, c))
    && s.accepted <= s.vertices.Keys
  }

  lemma {:induction false} MembersGrow(members: seq<Id>, x: Id)
    requires Distinct(members) && x !in members
    ensures Distinct(members + [x]) && x in members + [x]
    ensures forall m :: m in members + [x] <==> m in members || m == x
  {
    assert (members + [x])[|members|] == x;
  }

  lemma {:induction false} AddSetSound(s: State, x: Id, parents: seq<Id>, conflictId: Option<string>, c: string)
    requires Sound(s) && x !in s.vertices && c in AddTx(s, x, parents, conflictId).conflicts
    ensures SetSound(AddTx(s, x, parents, conflictId), c)
    ensures AddTx(s, x, parents, conflictId).vertices[x].conflictId == c ==>
              x in AddTx(s, x, parents, conflictId).conflicts[c].members
  {
    var u := AddTx(s, x, parents, conflictId);
    if c == u.vertices[x].conflictId {
      JoinedSetSound(s, u, x, c);
    } else {
      OtherSetSound(s, u, x, c);
    }
  }

  lemma {:induction false} JoinedSetSound(s: State, u: State, x: Id, c: string)
    requires Sound(s) && x !in s.vertices && c in u.conflicts
    requires u.vertices.Keys == s.vertices.Keys + {x} && u.d == s.d[x := 0] && u.vertices[x].conflictId == c
    requires forall m :: m in s.vertices ==> u.vertices[m] == s.vertices[m]
    requires u.conflicts[c] == if c in s.conflicts then s.conflicts[c].(members := s.conflicts[c].members + [x])
                               else ConflictSet([x], x, None, 0)
    ensures SetSound(u, c) && x in u.conflicts[c].members
  {
    hide Distinct, Located;
    if c in s.conflicts {
      assert SetSound(s, c);
      hide Sound;
      MembersGrow(s.conflicts[c].members, x);
    } else {
      hide Sound;
      OneDistinct(x);
    }
  }

  lemma OneDistinct(x: Id)
    ensures Distinct([x])
  {
  }

  lemma {:induction false} OtherSetSound(s: State, u: State, x: Id, c: string)
    requires Sound(s) && x !in s.vertices && c in s.conflicts
    requires u.vertices.Keys == s.vertices.Keys + {x} && u.d == s.d[x := 0]
    requires forall m :: m in s.vertices ==> u.vertices[m] == s.vertices[m]
    requires c in u.conflicts && u.conflicts[c] == s.conflicts[c]
    ensures SetSound(u, c)
  {
    hide Distinct, Located;
    assert SetSound(s, c);
    hide Sound;
  }

  lemma {:induction false} AddSound(s: State, x: Id, parents: seq<Id>, conflictId: Option<string>)
    requires Sound(s)
    ensures Sound(AddTx(s, x, parents, conflictId))
  {
    hide SetSound;
    if x !in s.vertices {
      var u := AddTx(s, x, parents, conflictId);
      forall c | c in u.conflicts ensures SetSound(u, c) {
        AddSetSound(s, x, parents, conflictId, c);
      }
      AddSetSound(s, x, parents, conflictId, u.vertices[x].conflictId);
    }
  }

  /** A Snowball step changes one set and one confidence. */
  lemma {:induction false} SnowballSet(t: Settings, s: State, x: Id, votes: int)
    requires Sound(s) && x in s.vertices
    ensures var u, c := Snowball(t, s, x, votes), s.vertices[x].conflictId;
            c in u.conflicts && SetSound(u, c)
  {
    hide Distinct;
    var c := s.vertices[x].conflictId;
    assert x in s.conflicts[c].members && SetSound(s, c);
    hide Sound;
  }

  lemma {:induction false} SnowballOthers(t: Settings, s: State, x: Id, votes: int, c: string)
    requires Sound(s) && x in s.vertices && c in s.conflicts && c != s.vertices[x].conflictId
    ensures var u := Snowball(t, s, x, votes); c in u.conflicts && SetSound(u, c)
  {
    hide Distinct;
    assert SetSound(s, c);
    assert x !in s.conflicts[c].members;
  }

  lemma {:induction false} SnowballSound(t: Settings, s: State, x: Id, votes: int)
    requires Sound(s) && x in s.vertices
    ensures Sound(Snowball(t, s, x, votes))
  {
    hide SetSound;
    var u := Snowball(t, s, x, votes);
    SnowballSet(t, s, x, votes);
    forall c | c in u.conflicts ensures SetSound(u, c) {
      if c != s.vertices[x].conflictId {
        SnowballOthers(t, s, x, votes, c);
      }
    }
  }

  /** Acceptance is never undone, and after a query nothing acceptable is left waiting. */
  lemma {:induction false} QuerySound(t: Settings, s: State, x: Id, votes: int)
    requires Sound(s)
    ensures var u := RecordQuery(t, s, x, votes);
            Sound(u) && s.accepted <= u.accepted && (x in s.vertices ==> Closed(t, u, u.accepted))
  {
    if x in s.vertices {
      var v, u := Snowball(t, s, x, votes), RecordQuery(t, s, x, votes);
      SnowballSound(t, s, x, votes);
      ClosureIsLeast(t, v, v.accepted);
      forall y ensures y in u.accepted ==> y in u.vertices {
        ClosureExact(t, v, v.accepted, y);
      }
      forall y | CanAccept(t, u, u.accepted, y) ensures y in u.accepted {
        assert CanAccept(t, v, u.accepted, y);
      }
      forall c | c in u.conflicts ensures SetSound(u, c) {
        assert SetSound(v, c);
      }
    }
  }

  // ------------------------------------------------------------------ runs

  datatype Event = Add(x: Id, parents: seq<Id>, conflictId: Option<string>) | Query(x: Id, votes: int)

  ghost function Apply(t: Settings, s: State, e: Event): State {
    match e
    case Add(x, parents, conflictId) => AddTx(s, x, parents, conflictId)
    case Query(x, votes) => RecordQuery(t, s, x, votes)
  }

  ghost function Replay(t: Settings, events: seq<Event>): State {
    if events == [] then INITIAL
    else Apply(t, Replay(t, events[..|events| - 1]), events[|events| - 1])
  }

  lemma {:induction false} ApplySound(t: Settings, s: State, e: Event)
    requires Sound(s)
    ensures Sound(Apply(t, s, e)) && s.accepted <= Apply(t, s, e).accepted
  {
    match e
    case Add(x, parents, conflictId) => AddSound(s, x, parents, conflictId);
    case Query(x, votes) => QuerySound(t, s, x, votes);
  }

  lemma {:induction false} ReplaySound(t: Settings, events: seq<Event>)
    ensures Sound(Replay(t, events))
  {
    if events != [] {
      ReplaySound(t, events[..|events| - 1]);
      ApplySound(t, Replay(t, events[..|events| - 1]), events[|events| - 1]);
    }
  }

  // ------------------------------------------------------------------ ancestors

  /** Parents are known when a vertex arrives. */
  ghost predicate ParentsFirst(t: Settings, events: seq<Event>) {
    events == [] ||
    (ParentsFirst(t, events[..|events| - 1]) &&
     var e := events[|events| - 1];
     e.Add? ==> forall p :: p in e.parents ==> p in Replay(t, events[..|events| - 1]).vertices)
  }

  ghost predicate AncestorClosed(s: State) {
    && (forall x, p :: x in s.vertices && p in s.vertices[x].parents ==> p in s.vertices)
    && (forall x, p :: x in s.accepted && x in s.vertices && p in s.vertices[x].parents ==> p in s.accepted)
  }

  /** With parents added before children, whatever is accepted has all its parents, and so all
      its ancestors, accepted. */
  lemma {:induction false} AcceptedWithAncestors(t: Settings, events: seq<Event>)
    requires ParentsFirst(t, events)
    ensures AncestorClosed(Replay(t, events))
  {
    if events != [] {
      var s, e := Replay(t, events[..|events| - 1]), events[|events| - 1];
      AcceptedWithAncestors(t, events[..|events| - 1]);
      ReplaySound(t, events[..|events| - 1]);
      if e.Query? && e.x in s.vertices {
        QueryKeepsAncestors(t, s, e.x, e.votes);
      }
    }
  }

  lemma {:induction false} QueryKeepsAncestors(t: Settings, s: State, x: Id, votes: int)
    requires Sound(s) && x in s.vertices && AncestorClosed(s)
    ensures AncestorClosed(RecordQuery(t, s, x, votes))
  {
    var v, u := Snowball(t, s, x, votes), RecordQuery(t, s, x, votes);
    ClosureIsLeast(t, v, v.accepted);
    forall y, p | y in u.accepted && y in u.vertices && p in u.vertices[y].parents ensures p in u.accepted {
      ClosureExact(t, v, v.accepted, y);
      if y in s.accepted {
        assert p in s.accepted;
      } else {
        assert ParentsAccepted(v, u.accepted, y);
      }
    }
  }

  // ------------------------------------------------------------------ rivals

  function Confidence(s: State, x: Id): int {
    if x in s.d then s.d[x] else 0
  }

  function Preference(s: State, x: Id): Id
    requires Located(s, x)
  {
    s.conflicts[s.vertices[x].conflictId].pref
  }

  /** Either a is still preferred, or the preference has gathered more than `floor`. */
  ghost predicate Floor(s: State, a: Id, floor: int) {
    Located(s, a) && Confidence(s, a) >= floor &&
    (Preference(s, a) == a || Confidence(s, Preference(s, a)) > floor)
  }

  lemma {:induction false} FloorHolds(t: Settings, s: State, e: Event, a: Id, floor: int)
    requires Sound(s) && Floor(s, a, floor)
    ensures Floor(Apply(t, s, e), a, floor) && Apply(t, s, e).vertices[a] == s.vertices[a]
  {
    match e
    case Add(x, parents, conflictId) => FloorAdd(s, x, parents, conflictId, a, floor);
    case Query(x, votes) =>
      if x in s.vertices {
        FloorSnowball(t, s, x, votes, a, floor);
      }
  }

  lemma {:induction false} FloorAdd(s: State, x: Id, parents: seq<Id>, conflictId: Option<string>, a: Id, floor: int)
    requires Sound(s) && Floor(s, a, floor)
    ensures Floor(AddTx(s, x, parents, conflictId), a, floor)
    ensures AddTx(s, x, parents, conflictId).vertices[a] == s.vertices[a]
  {
    hide Distinct;
    var u, c := AddTx(s, x, parents, conflictId), s.vertices[a].conflictId;
    assert SetSound(s, c);
    var best := s.conflicts[c].pref;
    assert best in s.d && a in s.d && s.d.Keys == s.vertices.Keys;
    hide SetSound, Sound;
    assert u.vertices[a] == s.vertices[a] && u.d[a] == s.d[a] && u.d[best] == s.d[best];
    assert c in u.conflicts && u.conflicts[c].pref == best;
    hide AddTx;
  }

  lemma {:induction false} FloorSnowball(t: Settings, s: State, x: Id, votes: int, a: Id, floor: int)
    requires Sound(s) && Floor(s, a, floor) && x in s.vertices
    ensures Floor(Snowball(t, s, x, votes), a, floor)
  {
    SetBounds(s, a);
    SetBounds(s, x);
    hide Sound;
    var u := Snowball(t, s, x, votes);
    if s.vertices[a].conflictId != s.vertices[x].conflictId {
      assert u.conflicts[s.vertices[a].conflictId] == s.conflicts[s.vertices[a].conflictId];
      assert Preference(s, a) != x;
    } else {
      assert Confidence(u, a) >= Confidence(s, a);
    }
  }

  lemma {:induction false} SetBounds(s: State, x: Id)
    requires Sound(s) && x in s.vertices
    ensures Located(s, x) && s.conflicts[s.vertices[x].conflictId].pref in s.d
    ensures var k := s.conflicts[s.vertices[x].conflictId];
            && k.pref in s.vertices && s.vertices[k.pref].conflictId == s.vertices[x].conflictId
                 && s.d[x] <= s.d[k.pref]
  {
    hide Distinct;
    assert SetSound(s, s.vertices[x].conflictId);
  }

  lemma {:induction false} FloorLasts(t: Settings, events: seq<Event>, later: seq<Event>, a: Id, floor: int)
    requires Floor(Replay(t, events), a, floor)
    ensures Floor(Replay(t, events + later), a, floor)
    ensures Replay(t, events + later).vertices[a] == Replay(t, events).vertices[a]
  {
    hide Floor, Sound, Apply;
    if later == [] {
      assert events + later == events;
    } else {
      var front, e := later[..|later| - 1], later[|later| - 1];
      FloorLasts(t, events, front, a, floor);
      assert (events + later)[..|events + later| - 1] == events + front;
      ReplaySound(t, events + front);
      FloorHolds(t, Replay(t, events + front), e, a, floor);
    }
  }

  /** The last event of the run accepted x. */
  ghost predicate JustAccepted(t: Settings, events: seq<Event>, x: Id) {
    events != [] && x in Replay(t, events).accepted && x !in Replay(t, events[..|events| - 1]).accepted
  }

  lemma {:induction false} JustAcceptedPreferred(t: Settings, events: seq<Event>, x: Id)
    requires JustAccepted(t, events, x)
    ensures var s := Replay(t, events); Located(s, x) && Preference(s, x) == x && Ready(t, s, x)
  {
    var s, e := Replay(t, events[..|events| - 1]), events[|events| - 1];
    ReplaySound(t, events[..|events| - 1]);
    ReplaySound(t, events);
    var v := Snowball(t, s, e.x, e.votes);
    ClosureExact(t, v, v.accepted, x);
    assert Ready(t, v, x);
  }

  /** A rival accepted after `a` has strictly more confidence than `a` had when it was accepted. */
  lemma {:induction false} RivalNeedsMore(t: Settings, events: seq<Event>, later: seq<Event>, a: Id, b: Id)
    requires JustAccepted(t, events, a) && later != [] && JustAccepted(t, events + later, b) && a != b
    requires var s := Replay(t, events + later);
             a in s.vertices && b in s.vertices && s.vertices[a].conflictId == s.vertices[b].conflictId
    ensures Confidence(Replay(t, events + later), b) > Confidence(Replay(t, events), a)
  {
    JustAcceptedPreferred(t, events, a);
    FloorLasts(t, events, later, a, Confidence(Replay(t, events), a));
    JustAcceptedPreferred(t, events + later, b);
  }
}
