/** The orders in which the DAG object's messages arrive: parents first, or late, or never. */
module MerkleDagArrival {
  import opened Common
  import opened Order
  import opened MerkleDag

  // ------------------------------------------------------------------ parents first

  /** Messages recorded once each, every parent before its child. */
  ghost predicate WellLinked(sha: Sha, ms: seq<Message>) {
    ms == [] || (WellLinked(sha, ms[..|ms| - 1]) && Fits(sha, ms[..|ms| - 1], ms[|ms| - 1]))
  }

  ghost predicate Fits(sha: Sha, ms: seq<Message>, m: Message) {
    DigestOf(sha, m) !in Nodes(sha, ms) && Elements(ParentsOf(m)) <= Nodes(sha, ms)
  }

  /** Then nothing is missing, and the heads are the nodes without children. */
  lemma {:induction false} NothingMissing(sha: Sha, ms: seq<Message>)
    requires WellLinked(sha, ms)
    ensures Once(sha, ms) && Missing(sha, ms) == {} == Exposed(sha, ms) && HeadSet(sha, ms) == Childless(sha, ms)
  {
    if ms != [] {
      var front, m := ms[..|ms| - 1], ms[|ms| - 1];
      assert ms == front + [m];
      NothingMissing(sha, front);
      Append(sha, front, m);
      hide Nodes, ParentsNamed, HeadSet, Once, WellLinked, ParentsOf;
      assert DigestOf(sha, m) !in Elements(ParentsOf(m));
    }
  }

  lemma {:induction false} LinkedPrefix(sha: Sha, ms: seq<Message>, k: nat)
    requires WellLinked(sha, ms) && k <= |ms|
    ensures WellLinked(sha, ms[..k])
  {
    if k == |ms| {
      assert ms[..k] == ms;
    } else {
      assert ms[..|ms| - 1][..k] == ms[..k];
      LinkedPrefix(sha, ms[..|ms| - 1], k);
    }
  }

  /** With parents first a frontier identifies the nodes. */
  lemma {:induction false} FrontierOfNodes(sha: Sha, a: seq<Message>, b: seq<Message>)
    requires PerfectHash(sha) && WellLinked(sha, a) && WellLinked(sha, b)
    ensures Frontier(sha, a) == Frontier(sha, b) <==> Nodes(sha, a) == Nodes(sha, b)
  {
    hide Missing, Exposed, Frontier, Nodes, WellLinked, Once;
    NothingMissing(sha, a);
    NothingMissing(sha, b);
    FrontierIdentifies(sha, a, b);
  }

  /** With parents first one exchange leaves A with B's nodes exactly when A's frontier is one that B has
      passed through; then B's answer holds exactly what A lacked, and A's frontier becomes B's. */
  lemma {:induction false} SyncInOrder(sha: Sha, a: seq<Message>, b: seq<Message>)
    requires PerfectHash(sha) && WellLinked(sha, a) && WellLinked(sha, b)
    ensures var delta := Since(sha, b, Frontier(sha, a));
            var r := ReceiveAll(sha, a, delta);
            && (Nodes(sha, r) == Nodes(sha, b) <==> exists k :: PassedThrough(sha, b, Frontier(sha, a), k))
            && ((exists k :: PassedThrough(sha, b, Frontier(sha, a), k)) ==>
                  Nodes(sha, delta) == Nodes(sha, b) - Nodes(sha, a) && Frontier(sha, r) == Frontier(sha, b))
  {
    hide Once, HeadSet, Nodes, Frontier, ReceiveAll, WellLinked, Since, ParentsNamed;
    NothingMissing(sha, a);
    NothingMissing(sha, b);
    SyncCondition(sha, a, b);
    FrontierOfNodes(sha, a, b);
    assert b[..|b|] == b;
    assert Frontier(sha, a) == Frontier(sha, b) ==> PassedThrough(sha, b, Frontier(sha, a), |b|);
    if k :| PassedThrough(sha, b, Frontier(sha, a), k) {
      AnswerInOrder(sha, a, b, k);
    }
  }

  lemma {:induction false} AnswerInOrder(sha: Sha, a: seq<Message>, b: seq<Message>, k: nat)
    requires PerfectHash(sha) && WellLinked(sha, a) && WellLinked(sha, b)
    requires PassedThrough(sha, b, Frontier(sha, a), k)
    ensures var delta := Since(sha, b, Frontier(sha, a));
            var r := ReceiveAll(sha, a, delta);
            && Nodes(sha, r) == Nodes(sha, b)
            && Nodes(sha, delta) == Nodes(sha, b) - Nodes(sha, a) && Frontier(sha, r) == Frontier(sha, b)
  {
    hide Once, HeadSet, Nodes, Frontier, ReceiveAll, WellLinked, Since, ParentsNamed;
    NothingMissing(sha, a);
    NothingMissing(sha, b);
    SyncExact(sha, a, b, k);
    LinkedPrefix(sha, b, k);
    FrontierOfNodes(sha, a, b[..k]);
    assert b[..k] + b[k..] == b;
    SplitNodes(sha, b[..k], b[k..]);
    CaughtUp(sha, a, b, k, |b|);
    assert b[k..|b|] == b[k..] && b[..|b|] == b;
    FrontierIsHeads(sha, ReceiveAll(sha, a, b[k..]), b);
  }

  // ------------------------------------------------------------------ late or never

  /** A child that arrives before its parent: the parent stays a head, and two nodes that hold the same
      two messages have different frontiers. */
  lemma {:induction false} LateParent(sha: Sha, parent: Message, child: Message)
    requires PerfectHash(sha) && parent != child && ParentsOf(parent) == []
             && ParentsOf(child) == [DigestOf(sha, parent)]
    ensures Once(sha, [child, parent]) && WellLinked(sha, [parent, child])
    ensures Nodes(sha, [child, parent]) == Nodes(sha, [parent, child])
    ensures Exposed(sha, [child, parent]) == {DigestOf(sha, parent)} && Exposed(sha, [parent, child]) == {}
    ensures Frontier(sha, [child, parent]) != Frontier(sha, [parent, child])
  {
    hide ParentsOf, SortedList, FrontierDigest;
    assert DigestOf(sha, parent) != DigestOf(sha, child);
    TwoMessages(sha, parent, child);
    TwoMessages(sha, child, parent);
    FrontierIsHeads(sha, [child, parent], [parent, child]);
  }

  /** A child whose parent never arrives, at a node A, and with its parent at a node B: the frontiers are
      equal and the nodes are not, B has nothing to send, and A never gets the parent. */
  lemma {:induction false} OrphanLooksSynchronised(sha: Sha, parent: Message, child: Message)
    requires PerfectHash(sha) && parent != child && ParentsOf(parent) == []
    requires child.links == Previous(DigestOf(sha, parent))
    ensures Once(sha, [child]) && WellLinked(sha, [parent, child])
    ensures IsValid(Nodes(sha, []), HeadSet(sha, []), child)
    ensures Frontier(sha, [child]) == Frontier(sha, [parent, child])
    ensures Nodes(sha, [child]) != Nodes(sha, [parent, child])
    ensures Since(sha, [parent, child], Frontier(sha, [child])) == []
    ensures Missing(sha, [child]) == {DigestOf(sha, parent)}
  {
    var p, c := DigestOf(sha, parent), DigestOf(sha, child);
    OneParent(child, p);
    hide ParentsOf, SortedList, FrontierDigest;
    TwoMessages(sha, parent, child);
    OneMessage(sha, child);
    FrontierIsHeads(sha, [child], [parent, child]);
    SinceNow(sha, [parent, child]);
  }

  lemma OneParent(m: Message, d: Digest)
    requires m.links == Previous(d) && d != "" && d != "genesis"
    ensures ParentsOf(m) == [d]
  {
    assert [d][..0] == [] && Normalize([]) == [];
    assert Normalize([d]) == [] + [d];
  }

  lemma {:induction false} SinceNow(sha: Sha, ms: seq<Message>)
    requires PerfectHash(sha) && Once(sha, ms)
    ensures Since(sha, ms, Frontier(sha, ms)) == []
  {
    hide Since, Frontier, Once;
    assert ms[..|ms|] == ms && ms[|ms|..] == [];
    SinceAt(sha, ms, |ms|);
  }

  lemma {:induction false} OneMessage(sha: Sha, x: Message)
    ensures Nodes(sha, [x]) == {DigestOf(sha, x)} && Nodes(sha, []) == {} && Once(sha, [x])
    ensures HeadSet(sha, [x]) == {DigestOf(sha, x)} && ParentsNamed([x]) == Elements(ParentsOf(x))
    ensures WellLinked(sha, [x]) <==> ParentsOf(x) == []
  {
    hide ParentsOf;
    assert [x] == [] + [x];
    Append(sha, [], x);
    assert ParentsOf(x) != [] ==> ParentsOf(x)[0] in Elements(ParentsOf(x));
  }

  lemma {:induction false} TwoMessages(sha: Sha, x: Message, y: Message)
    ensures var ms := [x, y];
            && Nodes(sha, ms) == {DigestOf(sha, x), DigestOf(sha, y)}
            && (Once(sha, ms) <==> DigestOf(sha, x) != DigestOf(sha, y))
            && HeadSet(sha, ms) == {DigestOf(sha, x)} - Elements(ParentsOf(y)) + {DigestOf(sha, y)}
            && ParentsNamed(ms) == Elements(ParentsOf(x)) + Elements(ParentsOf(y))
            && (WellLinked(sha, ms) <==> ParentsOf(x) == [] && Fits(sha, [x], y))
            && Nodes(sha, [x]) == {DigestOf(sha, x)}
  {
    hide ParentsOf;
    OneMessage(sha, x);
    assert [x, y] == [x] + [y];
    Append(sha, [x], y);
    assert [x, y][..1] == [x];
  }

  // ------------------------------------------------------------------ validity on the receiving side

  /** The parents that is_valid looks at. */
  function Declared(m: Message): seq<Digest> {
    if m.links.Parents? then Normalize(m.links.digests) else []
  }

  /** is_valid: the declared parents are nodes and heads. */
  ghost predicate IsValid(nodes: set<Digest>, heads: set<Digest>, m: Message) {
    Elements(Declared(m)) <= nodes && Elements(Declared(m)) <= heads
  }

  /** Where A's nodes and frontier are those B once had, what B sends passes A's own check, message by
      message, if it passed B's. */
  lemma {:induction false} SyncAccepted(sha: Sha, a: seq<Message>, b: seq<Message>, k: nat, j: nat)
    requires PerfectHash(sha) && Once(sha, a) && Once(sha, b) && k <= j < |b|
    requires Frontier(sha, a) == Frontier(sha, b[..k]) && Missing(sha, a) == Missing(sha, b[..k])
    requires IsValid(Nodes(sha, b[..j]), HeadSet(sha, b[..j]), b[j])
    ensures var r := ReceiveAll(sha, a, b[k..j]); IsValid(Nodes(sha, r), HeadSet(sha, r), b[j])
  {
    hide PerfectHash, Frontier, Nodes, HeadSet, ReceiveAll, Declared, Once, Missing;
    OncePrefix(sha, b, k);
    FrontierIdentifies(sha, a, b[..k]);
    CaughtUp(sha, a, b, k, j);
  }

  /** Midway through the answer A holds what B held then. */
  lemma {:induction false} CaughtUp(sha: Sha, a: seq<Message>, b: seq<Message>, k: nat, j: nat)
    requires PerfectHash(sha) && Once(sha, b) && k <= j <= |b|
    requires Frontier(sha, a) == Frontier(sha, b[..k]) && Nodes(sha, a) == Nodes(sha, b[..k])
    ensures var r := ReceiveAll(sha, a, b[k..j]);
            Nodes(sha, r) == Nodes(sha, b[..j]) && HeadSet(sha, r) == HeadSet(sha, b[..j])
  {
    hide PerfectHash, Frontier, Nodes, HeadSet, Once, ParentsOf, ParentsNamed;
    if j == k {
      FrontierIsHeads(sha, a, b[..k]);
      assert b[k..j] == [];
    } else {
      CaughtUp(sha, a, b, k, j - 1);
      var front, m := b[k..j - 1], b[j - 1];
      assert b[k..j] == front + [m] && b[k..j][..j - 1 - k] == front && b[..j] == b[..j - 1] + [m];
      OncePrefix(sha, b, j - 1);
      Append(sha, b[..j - 1], m);
      Append(sha, ReceiveAll(sha, a, front), m);
    }
  }
}
