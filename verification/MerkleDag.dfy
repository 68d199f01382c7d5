/** The merkelized DAG object: messages that name their parents by digest, and synchronisation
    from a digest of the frontier of heads. */
module MerkleDag {
  import opened Common
  import opened Order

  type Digest = string

  /** How a message refers to its predecessors. */
  datatype Links = Parents(digests: seq<Digest>) | Previous(digest: Digest) | NoLinks

  datatype Message = Message(links: Links, body: string)

  /** What gets hashed: the data of a message, or the frontier payload. */
  datatype Payload = Data(message: Message) | FrontierPayload(version: nat, heads: seq<Digest>)

  type Sha = Payload -> Digest

  const VERSION: nat := 1

  /** SHA-256 without collisions, whose hex output is neither empty nor the word "genesis". */
  ghost predicate PerfectHash(sha: Sha) {
    && (forall a, b :: sha(a) == sha(b) ==> a == b)
    && (forall a :: sha(a) != "" && sha(a) != "genesis")
  }

  /** Drops empty and "genesis" parents and repetitions, keeping the order. */
  function Normalize(parents: seq<Digest>): (r: seq<Digest>)
    ensures Distinct(r)
    ensures forall d :: d in r <==> d in parents && d != "" && d != "genesis"
  {
    if parents == [] then []
    else
      var front, last := Normalize(parents[..|parents| - 1]), parents[|parents| - 1];
      assert parents == parents[..|parents| - 1] + [last];
      if last == "" || last == "genesis" || last in front then front else front + [last]
  }

  function ParentsOf(m: Message): (r: seq<Digest>)
    ensures Distinct(r)
  {
    match m.links
    case Parents(ds) => Normalize(ds)
    case Previous(d) => Normalize([d])
    case NoLinks => []
  }

  // ------------------------------------------------------------------ the DAG as a function of its messages

  function DigestOf(sha: Sha, m: Message): Digest { sha(Data(m)) }

  ghost function Nodes(sha: Sha, ms: seq<Message>): set<Digest> {
    if ms == [] then {} else Nodes(sha, ms[..|ms| - 1]) + {DigestOf(sha, ms[|ms| - 1])}
  }

  ghost function ParentsNamed(ms: seq<Message>): set<Digest> {
    if ms == [] then {} else ParentsNamed(ms[..|ms| - 1]) + Elements(ParentsOf(ms[|ms| - 1]))
  }

  /** The heads as the object keeps them: a new message takes the place of its parents. */
  ghost function HeadSet(sha: Sha, ms: seq<Message>): set<Digest> {
    if ms == [] then {}
    else
      var m := ms[|ms| - 1];
      HeadSet(sha, ms[..|ms| - 1]) - Elements(ParentsOf(m)) + {DigestOf(sha, m)}
  }

  /** Every message recorded once, in whatever order. */
  ghost predicate Once(sha: Sha, ms: seq<Message>) {
    ms == [] || (Once(sha, ms[..|ms| - 1]) && DigestOf(sha, ms[|ms| - 1]) !in Nodes(sha, ms[..|ms| - 1]))
  }

  /** What is named as a parent and has not arrived. */
  ghost function Missing(sha: Sha, ms: seq<Message>): set<Digest> {
    ParentsNamed(ms) - Nodes(sha, ms)
  }

  /** The heads that some message names as a parent, though none after their arrival. */
  ghost function Exposed(sha: Sha, ms: seq<Message>): set<Digest> {
    HeadSet(sha, ms) * ParentsNamed(ms)
  }

  ghost function Childless(sha: Sha, ms: seq<Message>): set<Digest> {
    Nodes(sha, ms) - ParentsNamed(ms)
  }

  /** The sorted list of heads. */
  ghost function Heads(sha: Sha, ms: seq<Message>): seq<Digest> {
    SortedList(HeadSet(sha, ms))
  }

  ghost function Frontier(sha: Sha, ms: seq<Message>): Digest {
    FrontierDigest(sha, Heads(sha, ms))
  }

  function FrontierDigest(sha: Sha, heads: seq<Digest>): Digest {
    if heads == [] then "" else sha(FrontierPayload(VERSION, heads))
  }

  lemma {:induction false} Append(sha: Sha, ms: seq<Message>, m: Message)
    ensures Nodes(sha, ms + [m]) == Nodes(sha, ms) + {DigestOf(sha, m)}
    ensures ParentsNamed(ms + [m]) == ParentsNamed(ms) + Elements(ParentsOf(m))
    ensures HeadSet(sha, ms + [m]) == HeadSet(sha, ms) - Elements(ParentsOf(m)) + {DigestOf(sha, m)}
    ensures Once(sha, ms + [m]) <==> Once(sha, ms) && DigestOf(sha, m) !in Nodes(sha, ms)
  {
    assert (ms + [m])[..|ms|] == ms;
  }

  lemma {:induction false} NodeAt(sha: Sha, ms: seq<Message>, i: nat)
    requires i < |ms|
    ensures DigestOf(sha, ms[i]) in Nodes(sha, ms)
  {
    if i < |ms| - 1 {
      NodeAt(sha, ms[..|ms| - 1], i);
    }
  }

  lemma {:induction false} IndexOfNode(sha: Sha, ms: seq<Message>, d: Digest) returns (i: nat)
    requires d in Nodes(sha, ms)
    ensures i < |ms| && DigestOf(sha, ms[i]) == d
  {
    if d == DigestOf(sha, ms[|ms| - 1]) {
      i := |ms| - 1;
    } else {
      i := IndexOfNode(sha, ms[..|ms| - 1], d);
    }
  }

  lemma {:induction false} ParentAt(ms: seq<Message>, i: nat)
    requires i < |ms|
    ensures Elements(ParentsOf(ms[i])) <= ParentsNamed(ms)
  {
    if i < |ms| - 1 {
      ParentAt(ms[..|ms| - 1], i);
    }
  }

  lemma {:induction false} IndexOfChild(ms: seq<Message>, d: Digest) returns (i: nat)
    requires d in ParentsNamed(ms)
    ensures i < |ms| && d in ParentsOf(ms[i])
  {
    hide ParentsOf;
    var front, m := ms[..|ms| - 1], ms[|ms| - 1];
    if d in Elements(ParentsOf(m)) {
      i := |ms| - 1;
    } else {
      i := IndexOfChild(front, d);
      assert front[i] == ms[i];
    }
  }

  lemma {:induction false} OncePrefix(sha: Sha, ms: seq<Message>, k: nat)
    requires Once(sha, ms) && k <= |ms|
    ensures Once(sha, ms[..k])
    ensures k < |ms| ==> DigestOf(sha, ms[k]) !in Nodes(sha, ms[..k])
  {
    if k == |ms| {
      assert ms[..k] == ms;
    } else if k < |ms| - 1 {
      assert ms[..|ms| - 1][..k] == ms[..k];
      OncePrefix(sha, ms[..|ms| - 1], k);
    }
  }

  lemma {:induction false} NodesGrow(sha: Sha, ms: seq<Message>, k: nat)
    requires k <= |ms|
    ensures Nodes(sha, ms[..k]) <= Nodes(sha, ms)
  {
    if k == |ms| {
      assert ms[..k] == ms;
    } else {
      assert ms[..|ms| - 1][..k] == ms[..k];
      NodesGrow(sha, ms[..|ms| - 1], k);
    }
  }

  lemma {:induction false} SameIndex(sha: Sha, ms: seq<Message>, i: nat, j: nat)
    requires Once(sha, ms) && i < |ms| && j < |ms| && DigestOf(sha, ms[i]) == DigestOf(sha, ms[j])
    ensures i == j
  {
    if i < j {
      OncePrefix(sha, ms, j);
      NodeAt(sha, ms[..j], i);
    }
    if j < i {
      OncePrefix(sha, ms, i);
      NodeAt(sha, ms[..i], j);
    }
  }

  lemma {:induction false} HeadsAreNodes(sha: Sha, ms: seq<Message>)
    ensures HeadSet(sha, ms) <= Nodes(sha, ms)
  {
    if ms != [] {
      HeadsAreNodes(sha, ms[..|ms| - 1]);
    }
  }

  // ------------------------------------------------------------------ which nodes are heads

  /** Some message names d after the message of that digest has arrived. */
  ghost predicate NamedAfter(sha: Sha, ms: seq<Message>, d: Digest) {
    exists i, j :: 0 <= i < j < |ms| && DigestOf(sha, ms[i]) == d && d in ParentsOf(ms[j])
  }

  /** The heads are the nodes that nothing names after their arrival. */
  lemma {:induction false} HeadsExactly(sha: Sha, ms: seq<Message>, d: Digest)
    requires Once(sha, ms)
    ensures d in HeadSet(sha, ms) <==> d in Nodes(sha, ms) && !NamedAfter(sha, ms, d)
  {
    hide ParentsOf;
    if ms != [] {
      var front, m := ms[..|ms| - 1], ms[|ms| - 1];
      HeadsExactly(sha, front, d);
      if d == DigestOf(sha, m) {
        LastNamedNever(sha, ms);
      } else {
        NamedOneMore(sha, front, m, d);
        assert ms == front + [m];
      }
    }
  }

  lemma {:induction false} LastNamedNever(sha: Sha, ms: seq<Message>)
    requires Once(sha, ms) && ms != []
    ensures !NamedAfter(sha, ms, DigestOf(sha, ms[|ms| - 1]))
  {
    var front, d := ms[..|ms| - 1], DigestOf(sha, ms[|ms| - 1]);
    forall i | 0 <= i < |front| ensures DigestOf(sha, ms[i]) != d {
      NodeAt(sha, front, i);
    }
  }

  lemma {:induction false} NamedOneMore(sha: Sha, front: seq<Message>, m: Message, d: Digest)
    requires d != DigestOf(sha, m)
    ensures NamedAfter(sha, front + [m], d) <==>
              NamedAfter(sha, front, d) || (d in Nodes(sha, front) && d in ParentsOf(m))
  {
    hide ParentsOf;
    var ms := front + [m];
    if NamedAfter(sha, front, d) {
      var i, j :| 0 <= i < j < |front| && DigestOf(sha, front[i]) == d && d in ParentsOf(front[j]);
      assert ms[i] == front[i] && ms[j] == front[j];
    }
    if d in Nodes(sha, front) && d in ParentsOf(m) {
      var i := IndexOfNode(sha, front, d);
      assert ms[i] == front[i] && ms[|front|] == m;
    }
    if NamedAfter(sha, ms, d) {
      var i, j :| 0 <= i < j < |ms| && DigestOf(sha, ms[i]) == d && d in ParentsOf(ms[j]);
      NodeAt(sha, front, i);
      assert j < |front| ==> ms[i] == front[i] && ms[j] == front[j];
    }
  }

  lemma {:induction false} NamedIsParent(sha: Sha, ms: seq<Message>, d: Digest)
    ensures NamedAfter(sha, ms, d) ==> d in ParentsNamed(ms)
  {
    if NamedAfter(sha, ms, d) {
      var i, j :| 0 <= i < j < |ms| && DigestOf(sha, ms[i]) == d && d in ParentsOf(ms[j]);
      ParentAt(ms, j);
    }
  }

  /** Exactly when the heads are the nodes without children: every node that some message names is named
      by one that arrives after it. */
  lemma {:induction false} HeadsExactIff(sha: Sha, ms: seq<Message>)
    requires Once(sha, ms)
    ensures HeadSet(sha, ms) == Childless(sha, ms) + Exposed(sha, ms)
    ensures HeadSet(sha, ms) == Childless(sha, ms) <==>
            forall d :: d in Nodes(sha, ms) && d in ParentsNamed(ms) ==> NamedAfter(sha, ms, d)
  {
    hide HeadSet, Nodes, ParentsNamed, NamedAfter, Once;
    forall d ensures d in HeadSet(sha, ms) <==> d in Nodes(sha, ms) && !NamedAfter(sha, ms, d)
             ensures NamedAfter(sha, ms, d) ==> d in ParentsNamed(ms) {
      HeadsExactly(sha, ms, d);
      NamedIsParent(sha, ms, d);
    }
  }

  // ------------------------------------------------------------------ when a frontier identifies the DAG

  /** A node of `a` is found in `b` by following children up to a head, unless `b` misses it. */
  lemma {:induction false} NodeShared(sha: Sha, a: seq<Message>, b: seq<Message>, i: nat)
    requires PerfectHash(sha) && Once(sha, a) && i < |a|
    requires HeadSet(sha, a) <= Nodes(sha, b) && Missing(sha, b) !! Nodes(sha, a)
    ensures DigestOf(sha, a[i]) in Nodes(sha, b)
    decreases |a| - i
  {
    hide ParentsOf, HeadSet, Once;
    var d := DigestOf(sha, a[i]);
    NodeAt(sha, a, i);
    HeadsExactly(sha, a, d);
    if d !in HeadSet(sha, a) {
      var h, j :| 0 <= h < j < |a| && DigestOf(sha, a[h]) == d && d in ParentsOf(a[j]);
      SameIndex(sha, a, h, i);
      NodeShared(sha, a, b, j);
      var k := IndexOfNode(sha, b, DigestOf(sha, a[j]));
      assert b[k] == a[j];
      ParentAt(b, k);
    }
  }

  /** Where `b` holds the heads of `a`, it holds all of `a` exactly when it misses none of it. */
  lemma {:induction false} Contained(sha: Sha, a: seq<Message>, b: seq<Message>)
    requires PerfectHash(sha) && Once(sha, a) && HeadSet(sha, a) <= Nodes(sha, b)
    ensures Nodes(sha, a) <= Nodes(sha, b) <==> Missing(sha, b) !! Nodes(sha, a)
  {
    hide HeadSet, Once, ParentsOf;
    if Missing(sha, b) !! Nodes(sha, a) {
      forall d | d in Nodes(sha, a) ensures d in Nodes(sha, b) {
        var i := IndexOfNode(sha, a, d);
        NodeShared(sha, a, b, i);
      }
    }
  }

  /** Equal nodes name the same parents, since a digest fixes the message. */
  lemma {:induction false} NodesFixParents(sha: Sha, a: seq<Message>, b: seq<Message>)
    requires PerfectHash(sha) && Nodes(sha, a) == Nodes(sha, b)
    ensures ParentsNamed(a) == ParentsNamed(b) && Missing(sha, a) == Missing(sha, b)
    ensures Childless(sha, a) == Childless(sha, b)
  {
    SubNodesSubParents(sha, a, b);
    SubNodesSubParents(sha, b, a);
  }

  lemma {:induction false} SubNodesSubParents(sha: Sha, a: seq<Message>, b: seq<Message>)
    requires PerfectHash(sha) && Nodes(sha, a) <= Nodes(sha, b)
    ensures ParentsNamed(a) <= ParentsNamed(b)
  {
    forall d | d in ParentsNamed(a) ensures d in ParentsNamed(b) {
      var i := IndexOfChild(a, d);
      NodeAt(sha, a, i);
      var k := IndexOfNode(sha, b, DigestOf(sha, a[i]));
      assert b[k] == a[i];
      ParentAt(b, k);
    }
  }

  /** Two DAGs with the same heads hold the same nodes exactly when they miss the same parents. */
  lemma {:induction false} HeadsIdentify(sha: Sha, a: seq<Message>, b: seq<Message>)
    requires PerfectHash(sha) && Once(sha, a) && Once(sha, b) && HeadSet(sha, a) == HeadSet(sha, b)
    ensures Nodes(sha, a) == Nodes(sha, b) <==> Missing(sha, a) == Missing(sha, b)
  {
    hide Once, HeadSet, Nodes, ParentsNamed;
    HeadsAreNodes(sha, a);
    HeadsAreNodes(sha, b);
    if Nodes(sha, a) == Nodes(sha, b) {
      NodesFixParents(sha, a, b);
    }
    Contained(sha, a, b);
    Contained(sha, b, a);
  }

  /** Two DAGs with the same nodes have the same heads exactly when the same heads are exposed. */
  lemma {:induction false} NodesFixHeads(sha: Sha, a: seq<Message>, b: seq<Message>)
    requires PerfectHash(sha) && Once(sha, a) && Once(sha, b) && Nodes(sha, a) == Nodes(sha, b)
    ensures HeadSet(sha, a) == HeadSet(sha, b) <==> Exposed(sha, a) == Exposed(sha, b)
  {
    hide Once, HeadSet, Nodes, ParentsNamed;
    NodesFixParents(sha, a, b);
    HeadsExactIff(sha, a);
    HeadsExactIff(sha, b);
  }

  /** Different head sets have different frontier digests. */
  lemma {:induction false} FrontierIsHeads(sha: Sha, a: seq<Message>, b: seq<Message>)
    requires PerfectHash(sha)
    ensures Frontier(sha, a) == Frontier(sha, b) <==> HeadSet(sha, a) == HeadSet(sha, b)
  {
    var p, q := Heads(sha, a), Heads(sha, b);
    hide HeadSet;
    if Frontier(sha, a) == Frontier(sha, b) {
      assert p != [] && q != [] ==> sha(FrontierPayload(VERSION, p)) == sha(FrontierPayload(VERSION, q));
      assert p == q;
      assert Elements(p) == HeadSet(sha, a) && Elements(q) == HeadSet(sha, b);
    }
  }

  /** Exactly when equal frontiers mean equal nodes, and equal nodes equal frontiers, in any order of
      arrival and with any parents unknown. */
  lemma {:induction false} FrontierIdentifies(sha: Sha, a: seq<Message>, b: seq<Message>)
    requires PerfectHash(sha) && Once(sha, a) && Once(sha, b)
    ensures Frontier(sha, a) == Frontier(sha, b) ==>
              (Nodes(sha, a) == Nodes(sha, b) <==> Missing(sha, a) == Missing(sha, b))
    ensures Nodes(sha, a) == Nodes(sha, b) ==>
              (Frontier(sha, a) == Frontier(sha, b) <==> Exposed(sha, a) == Exposed(sha, b))
  {
    hide Once, HeadSet, Nodes, Missing, Exposed, Frontier;
    FrontierIsHeads(sha, a, b);
    if HeadSet(sha, a) == HeadSet(sha, b) {
      HeadsIdentify(sha, a, b);
    }
    if Nodes(sha, a) == Nodes(sha, b) {
      NodesFixHeads(sha, a, b);
    }
  }

  lemma {:induction false} EmptyFrontier(sha: Sha)
    ensures Frontier(sha, []) == ""
  {
    DistinctSize(SortedList({}));
  }

  /** In no run, whatever its order, do two moments have the same frontier: each head set holds a digest
      that no earlier moment knew. */
  lemma {:induction false} FrontierNeverRecurs(sha: Sha, ms: seq<Message>, k: nat, l: nat)
    requires PerfectHash(sha) && Once(sha, ms) && k < l <= |ms|
    ensures Frontier(sha, ms[..k]) != Frontier(sha, ms[..l])
  {
    var d := DigestOf(sha, ms[l - 1]);
    assert ms[..l][..l - 1] == ms[..l - 1];
    assert d in HeadSet(sha, ms[..l]);
    OncePrefix(sha, ms, l - 1);
    assert ms[..l - 1][..k] == ms[..k];
    NodesGrow(sha, ms[..l - 1], k);
    HeadsAreNodes(sha, ms[..k]);
    hide HeadSet, Nodes, Once, Frontier;
    FrontierIsHeads(sha, ms[..k], ms[..l]);
  }

  // ------------------------------------------------------------------ synchronisation

  /** add_message: known digests are skipped. */
  ghost function Receive(sha: Sha, ms: seq<Message>, m: Message): seq<Message> {
    if DigestOf(sha, m) in Nodes(sha, ms) then ms else ms + [m]
  }

  ghost function ReceiveAll(sha: Sha, ms: seq<Message>, delta: seq<Message>): seq<Message> {
    if delta == [] then ms
    else Receive(sha, ReceiveAll(sha, ms, delta[..|delta| - 1]), delta[|delta| - 1])
  }

  /** What a peer answers when asked for the messages since a frontier digest. */
  ghost function Since(sha: Sha, ms: seq<Message>, frontier: Digest): seq<Message> {
    if k :| 0 <= k <= |ms| && Frontier(sha, ms[..k]) == frontier then ms[k..] else []
  }

  lemma {:induction false} SinceAt(sha: Sha, ms: seq<Message>, k: nat)
    requires PerfectHash(sha) && Once(sha, ms) && k <= |ms|
    ensures Since(sha, ms, Frontier(sha, ms[..k])) == ms[k..]
  {
    hide Frontier, Once;
    var f := Frontier(sha, ms[..k]);
    var j :| 0 <= j <= |ms| && Frontier(sha, ms[..j]) == f && Since(sha, ms, f) == ms[j..];
    if j < k { FrontierNeverRecurs(sha, ms, j, k); }
    if k < j { FrontierNeverRecurs(sha, ms, k, j); }
  }

  /** Whatever is received, the nodes add up and nothing is recorded twice. */
  lemma {:induction false} Received(sha: Sha, a: seq<Message>, delta: seq<Message>)
    requires Once(sha, a)
    ensures var r := ReceiveAll(sha, a, delta);
            Once(sha, r) && Nodes(sha, r) == Nodes(sha, a) + Nodes(sha, delta)
  {
    hide ParentsOf, HeadSet, Once;
    if delta != [] {
      var front, m := delta[..|delta| - 1], delta[|delta| - 1];
      Received(sha, a, front);
      Append(sha, ReceiveAll(sha, a, front), m);
    }
  }

  /** The nodes of a run are those of a beginning and, apart from them, those of the rest. */
  lemma {:induction false} SplitNodes(sha: Sha, p: seq<Message>, delta: seq<Message>)
    requires Once(sha, p + delta)
    ensures Nodes(sha, p + delta) == Nodes(sha, p) + Nodes(sha, delta) && Nodes(sha, p) !! Nodes(sha, delta)
  {
    hide ParentsOf, HeadSet, Once;
    if delta == [] {
      assert p + delta == p;
    } else {
      var front, m := delta[..|delta| - 1], delta[|delta| - 1];
      assert p + delta == p + front + [m] && delta == front + [m];
      Append(sha, p + front, m);
      Append(sha, front, m);
      SplitNodes(sha, p, front);
    }
  }

  /** Synchronisation from a frontier that B has passed through: A ends with B's nodes exactly when A
      misses nothing that B held at that moment and B misses nothing that A holds. */
  lemma {:induction false} SyncExact(sha: Sha, a: seq<Message>, b: seq<Message>, k: nat)
    requires PerfectHash(sha) && Once(sha, a) && Once(sha, b) && k <= |b|
    requires Frontier(sha, a) == Frontier(sha, b[..k])
    ensures Since(sha, b, Frontier(sha, a)) == b[k..]
    ensures Nodes(sha, ReceiveAll(sha, a, b[k..])) == Nodes(sha, b) <==>
            Missing(sha, a) !! Nodes(sha, b[..k]) && Missing(sha, b) !! Nodes(sha, a)
  {
    hide Once, HeadSet, Nodes, Frontier, Missing, ReceiveAll, Since;
    OncePrefix(sha, b, k);
    SinceAt(sha, b, k);
    assert b[..k] + b[k..] == b;
    Received(sha, a, b[k..]);
    SplitNodes(sha, b[..k], b[k..]);
    FrontierIsHeads(sha, a, b[..k]);
    HeadsAreNodes(sha, a);
    HeadsAreNodes(sha, b[..k]);
    Contained(sha, a, b);
    Contained(sha, b[..k], a);
  }

  ghost predicate PassedThrough(sha: Sha, b: seq<Message>, frontier: Digest, k: int) {
    0 <= k <= |b| && Frontier(sha, b[..k]) == frontier
  }

  /** Exactly when one exchange leaves A with B's nodes: A's frontier is one that B has passed through,
      with nothing missing on either side that the other then held, or they held the same before. */
  lemma {:induction false} SyncCondition(sha: Sha, a: seq<Message>, b: seq<Message>)
    requires PerfectHash(sha) && Once(sha, a) && Once(sha, b)
    ensures Nodes(sha, ReceiveAll(sha, a, Since(sha, b, Frontier(sha, a)))) == Nodes(sha, b) <==>
            || Nodes(sha, a) == Nodes(sha, b)
            || exists k :: PassedThrough(sha, b, Frontier(sha, a), k)
                           && Missing(sha, a) !! Nodes(sha, b[..k]) && Missing(sha, b) !! Nodes(sha, a)
  {
    hide Once, HeadSet, Nodes, Frontier, Missing, ReceiveAll;
    if k :| PassedThrough(sha, b, Frontier(sha, a), k) {
      SyncExact(sha, a, b, k);
      forall j | PassedThrough(sha, b, Frontier(sha, a), j) ensures j == k {
        if j < k { FrontierNeverRecurs(sha, b, j, k); }
        if k < j { FrontierNeverRecurs(sha, b, k, j); }
      }
      if Nodes(sha, a) == Nodes(sha, b) {
        Received(sha, a, b[k..]);
        assert b[..k] + b[k..] == b;
        SplitNodes(sha, b[..k], b[k..]);
      }
    } else {
      NoAnswer(sha, b, Frontier(sha, a));
      NothingReceived(sha, a);
    }
  }

  lemma NoAnswer(sha: Sha, b: seq<Message>, frontier: Digest)
    requires forall k :: !PassedThrough(sha, b, frontier, k)
    ensures Since(sha, b, frontier) == []
  {
    forall k | 0 <= k <= |b| ensures Frontier(sha, b[..k]) != frontier {
      assert !PassedThrough(sha, b, frontier, k);
    }
  }

  lemma NothingReceived(sha: Sha, a: seq<Message>)
    ensures ReceiveAll(sha, a, []) == a
  {
  }
}
