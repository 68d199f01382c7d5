/** The tangle's rules in plain terms: which tips are approved by default, and when a transaction has been
    confirmed, rivals or not. */
module TangleRules {
  import opened Common
  import opened Order
  import opened Tangle
  import opened TangleEngine

  // ------------------------------------------------------------------ the default parents

  /** By default the two smallest tips are approved, the one tip there is, or genesis where there is none. */
  lemma {:induction false} DefaultParents(tips: set<Id>)
    ensures var ps := FirstTips(tips, 2);
            && (tips == {} ==> ps == ["genesis"])
            && (tips != {} ==> |ps| == (if |tips| == 1 then 1 else 2) && forall p :: p in ps ==> p in tips)
            && (|ps| == 2 ==> Less(ps[0], ps[1]))
            && (forall p, t :: p in ps && t in tips && t !in ps ==> Less(p, t))
  {
    var all := SortedList(tips);
    DistinctSize(all);
    FirstTwo(all, tips);
    if tips != {} {
      assert |tips| != 0;
    }
  }

  lemma {:induction false} FirstTwo(all: seq<Id>, tips: set<Id>)
    requires Lists(all, tips)
    ensures var ps := if |all| <= 2 then all else all[..2];
            && (forall p :: p in ps ==> p in tips) && (|ps| == 2 ==> Less(ps[0], ps[1]))
            && (forall p, t :: p in ps && t in tips && t !in ps ==> Less(p, t))
  {
    var ps := if |all| <= 2 then all else all[..2];
    forall p | p in ps ensures p in tips {
      assert p in Elements(all);
    }
    forall p, t | p in ps && t in tips && t !in ps ensures Less(p, t) {
      assert t in Elements(all);
      var i :| 0 <= i < |ps| && ps[i] == p;
      var j :| 0 <= j < |all| && all[j] == t;
    }
  }

  // ------------------------------------------------------------------ confirmation

  /** x has the weight it takes, and more than every other transaction that names the same conflict. */
  ghost predicate Won(g: Graph, threshold: int, x: Id) {
    && x in g && x != "genesis" && CumulativeWeight(g, x) >= threshold
    && forall y :: y in g && y != x && g[y].conflictId.Some? && g[y].conflictId == g[x].conflictId ==>
         CumulativeWeight(g, y) < CumulativeWeight(g, x)
  }

  lemma {:induction false} ConfirmableWon(g: Graph, threshold: int, x: Id)
    ensures x in Confirmable(g, threshold) <==> Won(g, threshold, x)
  {
    hide CumulativeWeight;
    if x in g && g[x].conflictId.Some? {
      var c := g[x].conflictId.value;
      assert forall y :: y in Rivals(g, c) <==> y in g && g[y].conflictId == Some(c);
    }
  }

  /** Of a conflict at most one transaction wins at any one moment. */
  lemma {:induction false} OneWinner(g: Graph, threshold: int, x: Id, y: Id)
    requires Won(g, threshold, x) && Won(g, threshold, y)
    requires g[x].conflictId.Some? && g[x].conflictId == g[y].conflictId
    ensures x == y
  {
    hide CumulativeWeight;
  }

  ghost predicate WonAt(arrivals: seq<Arrival>, threshold: int, x: Id, n: int) {
    0 <= n <= |arrivals| && Won(Replay(arrivals[..n], threshold).txs, threshold, x)
  }

  /** A transaction is confirmed if and only if it has won at some moment of the run. */
  lemma {:induction false} ConfirmedIff(arrivals: seq<Arrival>, threshold: int, x: Id)
    ensures x in Replay(arrivals, threshold).confirmed <==> exists n :: WonAt(arrivals, threshold, x, n)
  {
    hide Replay, Won;
    if x in Replay(arrivals, threshold).confirmed {
      ConfirmedOnce(arrivals, threshold, x);
      var n :| 0 <= n <= |arrivals| && x in Confirmable(Replay(arrivals[..n], threshold).txs, threshold);
      ConfirmableWon(Replay(arrivals[..n], threshold).txs, threshold, x);
      assert WonAt(arrivals, threshold, x, n);
    }
    if n :| WonAt(arrivals, threshold, x, n) {
      ConfirmedThen(arrivals[..n], threshold, x);
      FlagStays(arrivals[..n], arrivals[n..], threshold, x);
      assert arrivals[..n] + arrivals[n..] == arrivals;
    }
  }

  lemma {:induction false} ConfirmedThen(arrivals: seq<Arrival>, threshold: int, x: Id)
    requires Won(Replay(arrivals, threshold).txs, threshold, x)
    ensures x in Replay(arrivals, threshold).confirmed
  {
    hide Won, Confirmable, Link, Enrol, Acceptable;
    ConfirmableWon(Replay(arrivals, threshold).txs, threshold, x);
    if arrivals == [] {
      NotGenesis(Replay(arrivals, threshold).txs, threshold, x);
    } else {
      var n := |arrivals| - 1;
      if !Acceptable(Replay(arrivals[..n], threshold), arrivals[n]) {
        ConfirmedThen(arrivals[..n], threshold, x);
      }
    }
  }

  lemma NotGenesis(g: Graph, threshold: int, x: Id)
    requires Won(g, threshold, x)
    ensures x in g && x != GENESIS
  {
  }
}
