/** The Avalanche engine: the counters and flags it updates, its acceptance loop, and its searches. */
module AvalancheEngine {
  import opened Common
  import opened Avalanche

  function Ceiling(r: real): int { -((-r).Floor) }

  /** The least vote count, at least one, that is a share alpha of the sample. */
  function Quorum(alpha: real, k: int): int {
    var q := Ceiling(alpha * k as real);
    if q >= 1 then q else 1
  }

  /** A count is a quorum exactly when it reaches the share alpha of the sample, and a full
      sample always does. */
  lemma {:induction false} QuorumIsShare(alpha: real, k: int, votes: int)
    requires k >= 1 && 0.0 < alpha <= 1.0
    ensures votes >= Quorum(alpha, k) <==> votes as real >= alpha * k as real
    ensures 1 <= Quorum(alpha, k) <= k
  {
    var share := alpha * k as real;
    assert 0.0 < share <= k as real by {
      assert (1.0 - alpha) * k as real >= 0.0;
    }
    var f := (-share).Floor;
    assert f as real <= -share < f as real + 1.0;
    assert -f >= 1;
  }

  // ------------------------------------------------------------------ ancestors

  /** b holds the known parents of x and of every known vertex it holds. */
  ghost predicate UpClosed(vs: map<Id, Vertex>, x: Id, b: set<Id>)
    requires x in vs
  {
    && (forall p :: p in vs[x].parents && p in vs ==> p in b)
    && (forall y, p :: y in b && y in vs && p in vs[y].parents && p in vs ==> p in b)
  }

  ghost predicate IsAncestors(vs: map<Id, Vertex>, x: Id, r: set<Id>)
    requires x in vs
  {
    r <= vs.Keys && UpClosed(vs, x, r) && forall b :: UpClosed(vs, x, b) ==> r <= b
  }

  /** What the search has found so far, and what it still has to look at. */
  ghost predicate Climb(vs: map<Id, Vertex>, x: Id, seen: set<Id>, stack: seq<Id>)
    requires x in vs
  {
    && seen <= vs.Keys
    && (forall p :: p in vs[x].parents && p in vs ==> p in seen || p in stack)
    && (forall y, p :: y in seen && p in vs[y].parents && p in vs ==> p in seen || p in stack)
    && (forall b :: UpClosed(vs, x, b) ==> seen <= b && forall p :: p in stack && p in vs ==> p in b)
  }

  lemma {:induction false} ClimbSkips(vs: map<Id, Vertex>, x: Id, seen: set<Id>, stack: seq<Id>, cur: Id)
    requires x in vs && Climb(vs, x, seen, stack + [cur]) && (cur in seen || cur !in vs)
    ensures Climb(vs, x, seen, stack)
  {
    assert forall p :: p in stack + [cur] <==> p in stack || p == cur;
  }

  lemma {:induction false} ClimbVisits(vs: map<Id, Vertex>, x: Id, seen: set<Id>, stack: seq<Id>, cur: Id)
    requires x in vs && Climb(vs, x, seen, stack + [cur]) && cur !in seen && cur in vs
    ensures Climb(vs, x, seen + {cur}, stack + vs[cur].parents)
  {
    assert forall p :: p in stack + [cur] <==> p in stack || p == cur;
    assert forall p :: p in stack + vs[cur].parents <==> p in stack || p in vs[cur].parents;
  }

  /** With parents added before children, every ancestor of an accepted vertex is accepted. */
  lemma {:induction false} AcceptedAncestry(t: Settings, events: seq<Event>, x: Id, ancestors: set<Id>)
    requires ParentsFirst(t, events) && x in Replay(t, events).accepted
    requires var vs := Replay(t, events).vertices; x in vs && IsAncestors(vs, x, ancestors)
    ensures ancestors <= Replay(t, events).accepted
  {
    var s := Replay(t, events);
    AcceptedWithAncestors(t, events);
    assert UpClosed(s.vertices, x, s.accepted);
  }

  // ------------------------------------------------------------------ the engine

  class AvalancheConsensus {
    const settings: Settings
    var vertices: map<Id, Vertex>
    var order: seq<Id>
    var d: map<Id, nat>
    var conflicts: map<string, ConflictSet>
    var accepted: set<Id>

    ghost function Snapshot(): State reads this { State(vertices, d, conflicts, accepted) }

    ghost predicate Valid() reads this {
      Sound(Snapshot()) && Covers(order, vertices)
    }

    constructor (k: int, alpha: real, beta1: int, beta2: int)
      requires k >= 1 && 0.0 < alpha <= 1.0 && beta1 >= 1 && beta2 >= 1
      ensures Valid() && Snapshot() == INITIAL
      ensures settings == Settings(Quorum(alpha, k), beta1, beta2)
    {
      QuorumIsShare(alpha, k, 0);
      settings := Settings(Quorum(alpha, k), beta1, beta2);
      vertices, order, d, conflicts, accepted := map[], [], map[], map[], {};
    }

    method Add(x: Id, parents: seq<Id>, conflictId: Option<string>) returns (added: bool)
      requires Valid()
      modifies this`vertices, this`order, this`d, this`conflicts
      ensures Valid()
      ensures added == (x !in old(vertices))
      ensures Snapshot() == AddTx(old(Snapshot()), x, parents, conflictId)
    {
      hide Sound;
      if x in vertices { return false; }
      AddSound(Snapshot(), x, parents, conflictId);
      var c := if conflictId.Some? then conflictId.value else x;
      vertices := vertices[x := Vertex(parents, c)];
      order := order + [x];
      d := d[x := 0];
      if c !in conflicts {
        conflicts := conflicts[c := ConflictSet([x], x, None, 0)];
      } else {
        conflicts := conflicts[c := conflicts[c].(members := conflicts[c].members + [x])];
      }
      return true;
    }

    method Record(x: Id, votes: int)
      requires Valid()
      modifies this`d, this`conflicts, this`accepted
      ensures Valid()
      ensures Snapshot() == RecordQuery(settings, old(Snapshot()), x, votes)
    {
      hide Sound, SetSound, Closure, LeastClosed, Snowball;
      QuerySound(settings, Snapshot(), x, votes);
      if x !in vertices {
        return;
      }
      SoundLocates(Snapshot(), x);
      SnowballStep(x, votes);
      ghost var v := Snapshot();
      TryAcceptAll();
      ClosureIsLeast(settings, v, v.accepted);
      SameLeast(settings, v, v.accepted, accepted, Closure(settings, v, v.accepted));
    }

    method SnowballStep(x: Id, votes: int)
      requires Sound(Snapshot()) && x in vertices
      modifies this`d, this`conflicts
      ensures Located(old(Snapshot()), x) && Snapshot() == Snowball(settings, old(Snapshot()), x, votes)
    {
      hide Sound, Succeeded;
      SetBounds(Snapshot(), x);
      var c := vertices[x].conflictId;
      var k := conflicts[c];
      if votes >= settings.quorum {
        d := d[x := d[x] + 1];
        k := Succeed(k, x, d[x], d[k.pref]);
      } else {
        k := k.(cnt := 0);
      }
      conflicts := conflicts[c := k];
    }

    /** Preference, last success and counter of a set after a success. */
    static method Succeed(set_: ConflictSet, x: Id, dx: nat, best: nat) returns (k: ConflictSet)
      ensures k == Succeeded(set_, x, dx, best)
    {
      k := set_;
      if dx > best { k := k.(pref := x); }
      if k.last == Some(x) { k := k.(cnt := k.cnt + 1); }
      else { k := k.(last := Some(x), cnt := 1); }
    }

    /** Sweep over the vertices until a sweep changes nothing. */
    method TryAcceptAll()
      requires Covers(order, vertices)
      modifies this`accepted
      ensures LeastClosed(settings, old(Snapshot()), old(accepted), accepted)
    {
      hide CanAccept, Closed, Below, LeastClosed, Covers;
      ghost var s := Snapshot();
      var changed := true;
      BelowStarts(settings, s, s.accepted);
      while changed
        invariant s == old(Snapshot()) && s == Snapshot().(accepted := s.accepted)
        invariant Covers(order, vertices)
        invariant Below(settings, s, s.accepted, accepted)
        invariant !changed ==> Closed(settings, s, accepted)
        decreases |vertices.Keys - accepted|, changed
      {
        changed := Sweep(s);
      }
      BelowEnds(settings, s, s.accepted, accepted);
    }

    /** One pass in insertion order, accepting whatever can be. */
    method Sweep(ghost s: State) returns (changed: bool)
      requires s.vertices == vertices && s.conflicts == conflicts && Covers(order, vertices)
      requires Below(settings, s, s.accepted, accepted)
      modifies this`accepted
      ensures Below(settings, s, s.accepted, accepted)
      ensures if changed then |vertices.Keys - accepted| < |vertices.Keys - old(accepted)|
              else accepted == old(accepted) && Closed(settings, s, accepted)
    {
      hide CanAccept, Closed, Below, Covers, Passed;
      changed := false;
      PassedNone(settings, s, accepted, order);
      for i := 0 to |order|
        invariant Below(settings, s, s.accepted, accepted)
        invariant if changed then |vertices.Keys - accepted| < |vertices.Keys - old(accepted)|
                  else accepted == old(accepted)
        invariant !changed ==> Passed(settings, s, accepted, order, i)
      {
        var x := order[i];
        Known(order, vertices, i);
        var able := false;
        if x !in accepted { able := Acceptable(x); }
        PassedNext(settings, s, accepted, order, i);
        if able {
          Shrinks(vertices.Keys, accepted, x);
          BelowGrows(settings, s, s.accepted, accepted, x);
          accepted := accepted + {x};
          changed := true;
        }
      }
      PassedAll(settings, s, accepted, order);
    }

    method Acceptable(x: Id) returns (able: bool)
      ensures forall s: State :: s.vertices == vertices && s.conflicts == conflicts ==>
                able == CanAccept(settings, s, accepted, x)
    {
      if x !in vertices { return false; }
      var parents := vertices[x].parents;
      for i := 0 to |parents|
        invariant forall j :: 0 <= j < i && parents[j] in vertices ==> parents[j] in accepted
      {
        if parents[i] in vertices && parents[i] !in accepted { return false; }
      }
      if vertices[x].conflictId !in conflicts { return false; }
      var k := conflicts[vertices[x].conflictId];
      if |k.members| == 1 { return k.pref == x && k.cnt >= settings.beta1; }
      return k.pref == x && k.cnt >= settings.beta2;
    }

    method Ancestors(x: Id) returns (seen: set<Id>)
      requires x in vertices
      ensures IsAncestors(vertices, x, seen)
    {
      hide UpClosed;
      hide Climb;
      seen := {};
      var stack := vertices[x].parents;
      ClimbStarts(vertices, x);
      while stack != []
        invariant seen <= vertices.Keys && Climb(vertices, x, seen, stack)
        decreases |vertices.Keys - seen|, |stack|
      {
        var cur := stack[|stack| - 1];
        assert stack == stack[..|stack| - 1] + [cur];
        stack := stack[..|stack| - 1];
        if cur in seen || cur !in vertices {
          ClimbSkips(vertices, x, seen, stack, cur);
          continue;
        }
        ClimbVisits(vertices, x, seen, stack, cur);
        Shrinks(vertices.Keys, seen, cur);
        seen := seen + {cur};
        stack := stack + vertices[cur].parents;
      }
      ClimbEnds(vertices, x, seen);
    }

    /** Preferred in its set, and so is every ancestor in its own. */
    method IsStronglyPreferred(x: Id) returns (strong: bool)
      requires Valid()
      ensures x !in vertices ==> !strong
      ensures x in vertices ==> forall r :: IsAncestors(vertices, x, r) ==>
                (strong <==> Preferred(Snapshot(), x) && forall a :: a in r ==> Preferred(Snapshot(), a))
    {
      if x !in vertices { return false; }
      if conflicts[vertices[x].conflictId].pref != x { return false; }
      var all := Ancestors(x);
      hide IsAncestors, UpClosed, SetSound;
      AncestorsUnique(vertices, x, all);
      var left := all;
      while left != {}
        invariant left <= all && forall a :: a in all && a !in left ==> Preferred(Snapshot(), a)
        decreases |left|
      {
        var a :| a in left;
        if conflicts[vertices[a].conflictId].pref != a { return false; }
        left := left - {a};
      }
      return true;
    }
  }

  predicate Preferred(s: State, x: Id) {
    Located(s, x) && Preference(s, x) == x
  }

  /** Between the starting set and every closed set above it. */
  ghost predicate Below(t: Settings, s: State, base: set<Id>, a: set<Id>) {
    base <= a && forall b :: base <= b && Closed(t, s, b) ==> a <= b
  }

  lemma BelowStarts(t: Settings, s: State, base: set<Id>)
    ensures Below(t, s, base, base)
  {
  }

  lemma {:induction false} BelowGrows(t: Settings, s: State, base: set<Id>, a: set<Id>, x: Id)
    requires Below(t, s, base, a) && CanAccept(t, s, a, x)
    ensures Below(t, s, base, a + {x})
  {
    forall b | base <= b && Closed(t, s, b) ensures a + {x} <= b {
      AcceptMonotone(t, s, a, b, x);
    }
  }

  lemma BelowEnds(t: Settings, s: State, base: set<Id>, a: set<Id>)
    requires Below(t, s, base, a) && Closed(t, s, a)
    ensures LeastClosed(t, s, base, a)
  {
  }

  /** The insertion order lists exactly the vertices. */
  ghost predicate Covers(order: seq<Id>, vertices: map<Id, Vertex>) {
    forall x :: x in order <==> x in vertices
  }

  lemma Known(order: seq<Id>, vertices: map<Id, Vertex>, i: nat)
    requires Covers(order, vertices) && i < |order|
    ensures order[i] in vertices
  {
  }

  /** None of the first i vertices is waiting to be accepted. */
  ghost predicate Passed(t: Settings, s: State, a: set<Id>, order: seq<Id>, i: nat)
    requires i <= |order|
  {
    forall j :: 0 <= j < i && CanAccept(t, s, a, order[j]) ==> order[j] in a
  }

  lemma PassedNone(t: Settings, s: State, a: set<Id>, order: seq<Id>)
    ensures Passed(t, s, a, order, 0)
  {
  }

  lemma {:induction false} PassedNext(t: Settings, s: State, a: set<Id>, order: seq<Id>, i: nat)
    requires i < |order|
    ensures Passed(t, s, a, order, i) && (CanAccept(t, s, a, order[i]) ==> order[i] in a) ==>
              Passed(t, s, a, order, i + 1)
  {
    hide CanAccept;
  }

  lemma {:induction false} PassedAll(t: Settings, s: State, a: set<Id>, order: seq<Id>)
    requires Covers(order, s.vertices)
    ensures Passed(t, s, a, order, |order|) ==> Closed(t, s, a)
  {
    if Passed(t, s, a, order, |order|) {
      forall x | CanAccept(t, s, a, x) ensures x in a {
        assert x in order;
      }
    }
  }

  lemma SoundLocates(s: State, x: Id)
    requires Sound(s) && x in s.vertices
    ensures Located(s, x)
  {
  }

  lemma {:induction false} SameLeast(t: Settings, s: State, base: set<Id>, a: set<Id>, b: set<Id>)
    requires LeastClosed(t, s, base, a) && LeastClosed(t, s, base, b)
    ensures s.(accepted := a) == s.(accepted := b)
  {
    LeastClosedUnique(t, s, base, a, b);
  }

  lemma AcceptMonotone(t: Settings, s: State, a: set<Id>, b: set<Id>, x: Id)
    requires a <= b && CanAccept(t, s, a, x)
    ensures CanAccept(t, s, b, x)
  {
  }

  lemma ClimbStarts(vs: map<Id, Vertex>, x: Id)
    requires x in vs
    ensures Climb(vs, x, {}, vs[x].parents)
  {
  }

  lemma ClimbEnds(vs: map<Id, Vertex>, x: Id, seen: set<Id>)
    requires x in vs && Climb(vs, x, seen, [])
    ensures IsAncestors(vs, x, seen)
  {
  }

  lemma AncestorsUnique(vs: map<Id, Vertex>, x: Id, a: set<Id>)
    requires x in vs && IsAncestors(vs, x, a)
    ensures forall b :: IsAncestors(vs, x, b) ==> a == b
    ensures a <= vs.Keys
  {
  }
}
