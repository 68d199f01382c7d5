/** The Snowball rules in numbers: what a run of successes earns, what a failure costs, who is preferred. */
module AvalancheRules {
  import opened Common
  import opened Avalanche
  import opened AvalancheEngine

  // ------------------------------------------------------------------ new vertices

  /** A new vertex starts without confidence in its conflict set, of which it is the preference if it is the
      first; without a named set it is in one of its own name. */
  lemma {:induction false} AddExactly(s: State, x: Id, parents: seq<Id>, conflictId: Option<string>)
    requires x !in s.vertices
    ensures var u, c := AddTx(s, x, parents, conflictId), if conflictId.Some? then conflictId.value else x;
            && u.vertices == s.vertices[x := Vertex(parents, c)] && u.d == s.d[x := 0] && u.accepted == s.accepted
            && c in u.conflicts && u.conflicts.Keys == s.conflicts.Keys + {c}
            && (c !in s.conflicts ==> u.conflicts[c].members == [x] && u.conflicts[c].pref == x
                                      && u.conflicts[c].last == None && u.conflicts[c].cnt == 0)
            && (c in s.conflicts ==> u.conflicts[c] == s.conflicts[c].(members := s.conflicts[c].members + [x]))
            && forall k :: k in s.conflicts && k != c ==> u.conflicts[k] == s.conflicts[k]
  {
  }

  // ------------------------------------------------------------------ preference

  /** In each conflict set exactly one member is preferred, and none has more confidence. */
  lemma {:induction false} OnePreferred(s: State, x: Id, y: Id)
    requires Sound(s) && x in s.vertices && y in s.vertices && s.vertices[x].conflictId == s.vertices[y].conflictId
    requires Preferred(s, x)
    ensures s.d[y] <= s.d[x] && (Preferred(s, y) <==> y == x)
  {
    hide Distinct;
    assert SetSound(s, s.vertices[x].conflictId);
    assert y in s.conflicts[s.vertices[y].conflictId].members;
  }

  lemma {:induction false} SomePreferred(s: State, x: Id)
    requires Sound(s) && x in s.vertices
    ensures exists y :: y in s.vertices && s.vertices[y].conflictId == s.vertices[x].conflictId && Preferred(s, y)
  {
    hide Distinct;
    var c := s.vertices[x].conflictId;
    assert Located(s, x) && SetSound(s, c);
    var y := s.conflicts[c].pref;
    assert y in s.conflicts[c].members;
    assert Preferred(s, y);
  }

  // ------------------------------------------------------------------ streaks

  /** The same query k times. */
  ghost function Queried(t: Settings, s: State, x: Id, votes: int, k: nat): State {
    if k == 0 then s else RecordQuery(t, Queried(t, s, x, votes, k - 1), x, votes)
  }

  /** How long the set's streak of successes for x is. */
  function Streak(s: State, x: Id): int
    requires Located(s, x)
  {
    var k := s.conflicts[s.vertices[x].conflictId];
    if k.last == Some(x) then k.cnt else 0
  }

  /** u is s after k successes of x in a row. */
  ghost predicate Counted(s: State, u: State, x: Id, k: nat)
    requires Located(s, x)
  {
    var c := s.vertices[x].conflictId;
    var former := s.conflicts[c].pref;
    && former in s.d && u.vertices == s.vertices && u.conflicts.Keys == s.conflicts.Keys
    && u.d == s.d[x := s.d[x] + k]
    && u.conflicts[c].members == s.conflicts[c].members
    && u.conflicts[c].last == Some(x) && u.conflicts[c].cnt == Streak(s, x) + k
    && u.conflicts[c].pref == (if former == x || s.d[x] + k > s.d[former] then x else former)
    && forall b :: b in s.conflicts && b != c ==> u.conflicts[b] == s.conflicts[b]
  }

  /** k successes in a row add k to the confidence and to the streak of x, which overtakes the preference
      once it has more confidence; other sets and vertices are as before. */
  lemma {:induction false} SuccessesCount(t: Settings, s: State, x: Id, votes: int, k: nat)
    requires Sound(s) && x in s.vertices && votes >= t.quorum && k >= 1
    ensures Located(s, x) && Counted(s, Queried(t, s, x, votes, k), x, k)
  {
    hide Sound, RecordQuery;
    SetBounds(s, x);
    if k == 1 {
      assert Queried(t, s, x, votes, 0) == s;
      FirstCounts(t, s, x, votes);
    } else {
      SuccessesCount(t, s, x, votes, k - 1);
      NextCounts(t, s, Queried(t, s, x, votes, k - 1), x, votes, k - 1);
    }
  }

  lemma {:induction false} FirstCounts(t: Settings, s: State, x: Id, votes: int)
    requires Located(s, x) && s.conflicts[s.vertices[x].conflictId].pref in s.d && votes >= t.quorum
    ensures Counted(s, RecordQuery(t, s, x, votes), x, 1)
  {
    hide Closure;
  }

  lemma {:induction false} NextCounts(t: Settings, s: State, u: State, x: Id, votes: int, k: nat)
    requires Located(s, x) && Counted(s, u, x, k) && votes >= t.quorum
    ensures Counted(s, RecordQuery(t, u, x, votes), x, k + 1)
  {
    hide Closure;
  }

  lemma {:induction false} FailureResets(t: Settings, s: State, x: Id, votes: int)
    requires Sound(s) && x in s.vertices && votes < t.quorum
    ensures var u, c := RecordQuery(t, s, x, votes), s.vertices[x].conflictId;
            Located(s, x) && u.vertices == s.vertices && u.d == s.d
            && u.conflicts == s.conflicts[c := s.conflicts[c].(cnt := 0)]
  {
    hide Closure;
    SetBounds(s, x);
  }

  /** What a vertex has to reach: beta1 alone in its conflict set, beta2 among rivals. */
  ghost predicate Threshold(t: Settings, s: State, x: Id, count: int)
    requires Located(s, x)
  {
    count >= if |s.conflicts[s.vertices[x].conflictId].members| == 1 then t.beta1 else t.beta2
  }

  /** After i successes in a row the streak has reached the threshold, and x the preference. */
  ghost predicate EarnedBy(t: Settings, s: State, x: Id, i: int)
    requires Located(s, x) && s.conflicts[s.vertices[x].conflictId].pref in s.d
  {
    var former := s.conflicts[s.vertices[x].conflictId].pref;
    Threshold(t, s, x, Streak(s, x) + i) && (former == x || s.d[x] + i > s.d[former])
  }

  /** A vertex whose known parents are accepted is accepted within k successes in a row exactly when one of
      them takes its streak to the threshold with x preferred. */
  lemma {:induction false} StreakAccepts(t: Settings, s: State, x: Id, votes: int, k: nat)
    requires Sound(s) && x in s.vertices && x !in s.accepted && votes >= t.quorum
    requires forall p :: p in s.vertices[x].parents && p in s.vertices ==> p in s.accepted
    ensures Located(s, x) && s.conflicts[s.vertices[x].conflictId].pref in s.d
    ensures x in Queried(t, s, x, votes, k).accepted <==> exists i :: 1 <= i <= k && EarnedBy(t, s, x, i)
  {
    hide Sound, EarnedBy, RecordQuery;
    SetBounds(s, x);
    if k > 0 {
      var u := Queried(t, s, x, votes, k - 1);
      StreakAccepts(t, s, x, votes, k - 1);
      SuccessesCount(t, s, x, votes, k);
      QueriedGrows(t, s, x, votes, k - 1);
      NextAccepts(t, s, u, x, votes, k);
      assert EarnedBy(t, s, x, k) ==> 1 <= k <= k;
    }
  }

  lemma {:induction false} QueriedGrows(t: Settings, s: State, x: Id, votes: int, k: nat)
    requires Sound(s) && x in s.vertices
    ensures var u := Queried(t, s, x, votes, k);
            Sound(u) && Located(u, x) && s.accepted <= u.accepted && u.vertices == s.vertices
  {
    hide Sound, Closure;
    if k > 0 {
      QueriedGrows(t, s, x, votes, k - 1);
      QuerySound(t, Queried(t, s, x, votes, k - 1), x, votes);
    }
    SetBounds(Queried(t, s, x, votes, k), x);
  }

  lemma {:induction false} NextAccepts(t: Settings, s: State, u: State, x: Id, votes: int, k: nat)
    requires Located(s, x) && Located(u, x) && u.vertices == s.vertices && s.accepted <= u.accepted
    requires forall p :: p in s.vertices[x].parents && p in s.vertices ==> p in s.accepted
    requires Counted(s, RecordQuery(t, u, x, votes), x, k)
    ensures x in RecordQuery(t, u, x, votes).accepted <==> x in u.accepted || EarnedBy(t, s, x, k)
  {
    hide Streak;
    var w := Snowball(t, u, x, votes);
    ClosureExact(t, w, w.accepted, x);
    ClosureIsLeast(t, w, w.accepted);
    hide Closure;
  }
}
