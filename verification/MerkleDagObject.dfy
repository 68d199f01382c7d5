/** The DAG object with its incremental indexes, proved equal to functions of its messages. */
module MerkleDagObject {
  import opened Common
  import opened Order
  import opened MerkleDag
  import opened MerkleDagArrival

  datatype Node = Node(parents: seq<Digest>, data: Message)

  function RemoveFirst(l: seq<Digest>, x: Digest): seq<Digest> {
    if l == [] then [] else if l[0] == x then l[1..] else [l[0]] + RemoveFirst(l[1..], x)
  }

  lemma {:induction false} RemoveFirstElements(l: seq<Digest>, x: Digest)
    requires Sorted(l) && Distinct(l)
    ensures var r := RemoveFirst(l, x);
            Sorted(r) && Distinct(r) && forall d :: d in r <==> d in l && d != x
  {
    if l != [] {
      assert l == [l[0]] + l[1..];
      if l[0] != x {
        RemoveFirstElements(l[1..], x);
        var r := RemoveFirst(l[1..], x);
        forall j | 0 <= j < |r| ensures l[0] != r[j] && Less(l[0], r[j]) {
          assert r[j] in l[1..];
        }
      }
    }
  }

  lemma {:induction false} RemoveHead(l: seq<Digest>, s: set<Digest>, x: Digest)
    requires Lists(l, s)
    ensures Lists(RemoveFirst(l, x), s - {x})
  {
    RemoveFirstElements(l, x);
  }

  lemma {:induction false} AddHead(l: seq<Digest>, s: set<Digest>, x: Digest)
    requires Lists(l, s) && x !in s
    ensures Lists(Sort(l + [x]), s + {x})
  {
    assert forall i :: 0 <= i < |l| ==> l[i] in Elements(l);
    SortSorted(l + [x]);
    SortDistinct(l + [x]);
    assert Elements(l + [x]) == s + {x};
  }

  /** The digests of the messages that name `d` as a parent. */
  ghost function ChildrenOf(sha: Sha, ms: seq<Message>, d: Digest): set<Digest> {
    if ms == [] then {}
    else
      var m := ms[|ms| - 1];
      ChildrenOf(sha, ms[..|ms| - 1], d) + if d in ParentsOf(m) then {DigestOf(sha, m)} else {}
  }

  lemma {:induction false} ChildrenAppend(sha: Sha, ms: seq<Message>, m: Message, d: Digest)
    ensures ChildrenOf(sha, ms + [m], d) ==
            ChildrenOf(sha, ms, d) + if d in ParentsOf(m) then {DigestOf(sha, m)} else {}
  {
    assert (ms + [m])[..|ms|] == ms;
  }

  lemma {:induction false} ChildlessWhenUnnamed(sha: Sha, ms: seq<Message>, d: Digest)
    requires d !in ParentsNamed(ms)
    ensures ChildrenOf(sha, ms, d) == {}
  {
    if ms != [] {
      ChildlessWhenUnnamed(sha, ms[..|ms| - 1], d);
    }
  }

  ghost predicate Recorded(sha: Sha, ms: seq<Message>, digests: seq<Digest>, index: map<Digest, int>,
      parents: map<Digest, seq<Digest>>, nodes: map<Digest, Node>)
  {
    && |digests| == |ms|
    && index.Keys == parents.Keys == nodes.Keys == Nodes(sha, ms)
    && forall i :: 0 <= i < |ms| ==> RecordedAt(sha, ms, digests, index, parents, nodes, i)
  }

  ghost predicate RecordedAt(sha: Sha, ms: seq<Message>, digests: seq<Digest>, index: map<Digest, int>,
      parents: map<Digest, seq<Digest>>, nodes: map<Digest, Node>, i: int)
    requires 0 <= i < |ms| == |digests|
  {
    var d := DigestOf(sha, ms[i]);
    && digests[i] == d && d in index && d in parents && d in nodes
    && index[d] == i && parents[d] == ParentsOf(ms[i]) && nodes[d] == Node(ParentsOf(ms[i]), ms[i])
  }

  lemma {:induction false} RecordedAppend(sha: Sha, ms: seq<Message>, digests: seq<Digest>, index: map<Digest, int>,
      parents: map<Digest, seq<Digest>>, nodes: map<Digest, Node>, m: Message)
    requires Recorded(sha, ms, digests, index, parents, nodes) && DigestOf(sha, m) !in Nodes(sha, ms)
    ensures var d := DigestOf(sha, m);
            Recorded(sha, ms + [m], digests + [d], index[d := |digests|], parents[d := ParentsOf(m)],
                     nodes[d := Node(ParentsOf(m), m)])
  {
    var d, t := DigestOf(sha, m), ms + [m];
    var digests', index', parents', nodes' :=
      digests + [d], index[d := |digests|], parents[d := ParentsOf(m)], nodes[d := Node(ParentsOf(m), m)];
    Append(sha, ms, m);
    forall i | 0 <= i < |t| ensures RecordedAt(sha, t, digests', index', parents', nodes', i) {
      if i < |ms| {
        assert RecordedAt(sha, ms, digests, index, parents, nodes, i);
        NodeAt(sha, ms, i);
      }
    }
  }

  /** The children of every digest that is a node or is named, and the heads. */
  ghost predicate Linked(sha: Sha, ms: seq<Message>, children: map<Digest, set<Digest>>, headSet: set<Digest>,
      heads: seq<Digest>) {
    && children.Keys == Nodes(sha, ms) + ParentsNamed(ms)
    && (forall d :: d in children ==> children[d] == ChildrenOf(sha, ms, d))
    && headSet == HeadSet(sha, ms)
    && Lists(heads, headSet)
  }

  lemma LinkedHeads(sha: Sha, ms: seq<Message>, children: map<Digest, set<Digest>>, headSet: set<Digest>,
      heads: seq<Digest>)
    requires Linked(sha, ms, children, headSet, heads)
    ensures Lists(heads, headSet) && headSet == HeadSet(sha, ms)
  {
  }

  lemma {:induction false} LinkedAppend(sha: Sha, ms: seq<Message>, children: map<Digest, set<Digest>>,
      headSet: set<Digest>, heads: seq<Digest>, m: Message, newSet: set<Digest>, newHeads: seq<Digest>)
    requires Linked(sha, ms, children, headSet, heads)
    requires newSet == headSet - Elements(ParentsOf(m)) + {DigestOf(sha, m)} && Lists(newHeads, newSet)
    ensures Linked(sha, ms + [m], LinkedUnder(children, DigestOf(sha, m), ParentsOf(m)), newSet, newHeads)
  {
    hide ParentsOf, Nodes, ParentsNamed, ChildrenOf, HeadSet, Lists;
    var d, t := DigestOf(sha, m), ms + [m];
    var after := LinkedUnder(children, d, ParentsOf(m));
    UnderEntries(children, d, ParentsOf(m));
    Append(sha, ms, m);
    assert after.Keys == Nodes(sha, t) + ParentsNamed(t);
    forall x | x in after ensures after[x] == ChildrenOf(sha, t, x) {
      ChildrenAppend(sha, ms, m, x);
      if x !in children {
        ChildlessWhenUnnamed(sha, ms, x);
      }
    }
  }

  /** The frontier digest after k messages is known at position k - 1, and no other. */
  ghost predicate Indexed(sha: Sha, ms: seq<Message>, index: map<Digest, int>) {
    && (forall k :: 0 <= k <= |ms| ==> IndexedAt(sha, ms, index, k))
    && (forall d :: d in index ==> exists k :: 0 <= k <= |ms| && d == Frontier(sha, ms[..k]))
  }

  ghost predicate IndexedAt(sha: Sha, ms: seq<Message>, index: map<Digest, int>, k: int)
    requires 0 <= k <= |ms|
  {
    var f := Frontier(sha, ms[..k]);
    f in index && index[f] == k - 1
  }

  lemma {:induction false} IndexedAppend(sha: Sha, ms: seq<Message>, index: map<Digest, int>, m: Message)
    requires PerfectHash(sha) && Once(sha, ms + [m]) && Indexed(sha, ms, index)
    ensures Indexed(sha, ms + [m], index[Frontier(sha, ms + [m]) := |ms|])
  {
    hide Frontier, Once;
    var t := ms + [m];
    var after := index[Frontier(sha, t) := |ms|];
    assert t[..|t|] == t;
    forall k | 0 <= k <= |t| ensures IndexedAt(sha, t, after, k) {
      if k < |t| {
        assert t[..k] == ms[..k];
        assert IndexedAt(sha, ms, index, k);
        FrontierNeverRecurs(sha, t, k, |t|);
      }
    }
    forall d | d in after ensures exists k :: 0 <= k <= |t| && d == Frontier(sha, t[..k]) {
      if d != Frontier(sha, t) {
        var k :| 0 <= k <= |ms| && d == Frontier(sha, ms[..k]);
        assert t[..k] == ms[..k];
      }
    }
  }

  lemma {:induction false} RecordedPosition(sha: Sha, ms: seq<Message>, digests: seq<Digest>, index: map<Digest, int>,
      parents: map<Digest, seq<Digest>>, nodes: map<Digest, Node>, d: Digest)
    requires Recorded(sha, ms, digests, index, parents, nodes)
    ensures d in index <==> d in Nodes(sha, ms)
    ensures d in index ==> 0 <= index[d] < |ms|
    ensures forall i :: 0 <= i < |ms| && DigestOf(sha, ms[i]) == d ==> d in index && index[d] == i
  {
    if d in index {
      var i := IndexOfNode(sha, ms, d);
      assert RecordedAt(sha, ms, digests, index, parents, nodes, i);
    }
    forall i | 0 <= i < |ms| && DigestOf(sha, ms[i]) == d ensures d in index && index[d] == i {
      assert RecordedAt(sha, ms, digests, index, parents, nodes, i);
    }
  }

  lemma {:induction false} SinceIndexed(sha: Sha, ms: seq<Message>, index: map<Digest, int>, d: Digest)
    requires PerfectHash(sha) && Once(sha, ms) && Indexed(sha, ms, index) && d in index
    ensures 0 <= index[d] + 1 <= |ms| && Since(sha, ms, d) == ms[index[d] + 1..]
  {
    hide Once, PerfectHash, Frontier, Since;
    var k :| 0 <= k <= |ms| && d == Frontier(sha, ms[..k]);
    assert IndexedAt(sha, ms, index, k);
    SinceAt(sha, ms, k);
  }

  lemma {:induction false} NothingIndexed(sha: Sha, ms: seq<Message>, index: map<Digest, int>, d: Digest)
    requires Indexed(sha, ms, index) && (d !in index || ms == [])
    ensures Since(sha, ms, d) == []
  {
    if d !in index {
      forall k | 0 <= k <= |ms| ensures Frontier(sha, ms[..k]) != d {
        assert IndexedAt(sha, ms, index, k);
      }
    }
  }

  class DAGObject {
    const sha: Sha
    var messages: seq<Message>
    var digests: seq<Digest>
    var digestIndex: map<Digest, int>
    var parentsByDigest: map<Digest, seq<Digest>>
    var childrenByDigest: map<Digest, set<Digest>>
    var headDigestSet: set<Digest>
    var headDigests: seq<Digest>
    var nodes: map<Digest, Node>
    var frontierStateIndex: map<Digest, int>

    ghost predicate Valid() reads this {
      && PerfectHash(sha) && Once(sha, messages)
      && Recorded(sha, messages, digests, digestIndex, parentsByDigest, nodes)
      && Linked(sha, messages, childrenByDigest, headDigestSet, headDigests)
      && Indexed(sha, messages, frontierStateIndex)
    }

    constructor (sha: Sha)
      requires PerfectHash(sha)
      ensures Valid() && this.sha == sha && messages == []
    {
      this.sha := sha;
      messages, digests, headDigests := [], [], [];
      digestIndex, parentsByDigest, childrenByDigest, nodes := map[], map[], map[], map[];
      headDigestSet := {};
      frontierStateIndex := map["" := -1];
      new;
      EmptyFrontier(sha);
      assert messages[..0] == [];
    }

    /** get_latest_digest */
    method CurrentFrontierDigest() returns (d: Digest)
      requires Lists(headDigests, HeadSet(sha, messages))
      ensures d == Frontier(sha, messages)
    {
      SortedUnique(headDigests, Heads(sha, messages));
      return FrontierDigest(sha, headDigests);
    }

    method RemoveHeadDigest(d: Digest)
      requires Lists(headDigests, headDigestSet)
      modifies this`headDigests, this`headDigestSet
      ensures headDigestSet == old(headDigestSet) - {d} && Lists(headDigests, headDigestSet)
    {
      RemoveHead(headDigests, headDigestSet, d);
      headDigestSet := headDigestSet - {d};
      headDigests := RemoveFirst(headDigests, d);
    }

    method AddHeadDigest(d: Digest)
      requires Lists(headDigests, headDigestSet)
      modifies this`headDigests, this`headDigestSet
      ensures headDigestSet == old(headDigestSet) + {d} && Lists(headDigests, headDigestSet)
    {
      if d in headDigestSet { return; }
      AddHead(headDigests, headDigestSet, d);
      headDigestSet := headDigestSet + {d};
      headDigests := Sort(headDigests + [d]);
    }

    /** The links of a new digest under its parents. */
    method LinkParents(digest: Digest, parents: seq<Digest>)
      requires Lists(headDigests, headDigestSet)
      modifies this`childrenByDigest, this`headDigests, this`headDigestSet
      ensures childrenByDigest == LinkedUnder(old(childrenByDigest), digest, parents)
      ensures headDigestSet == old(headDigestSet) - Elements(parents) + {digest}
      ensures Lists(headDigests, headDigestSet)
    {
      for i := 0 to |parents|
        invariant childrenByDigest == Under(old(childrenByDigest), digest, parents[..i])
        invariant headDigestSet == old(headDigestSet) - Elements(parents[..i])
        invariant Lists(headDigests, headDigestSet)
      {
        var parent := parents[i];
        assert parents[..i + 1][..i] == parents[..i];
        if parent !in childrenByDigest {
          childrenByDigest := childrenByDigest[parent := {}];
        }
        childrenByDigest := childrenByDigest[parent := childrenByDigest[parent] + {digest}];
        RemoveHeadDigest(parent);
        assert Elements(parents[..i + 1]) == Elements(parents[..i]) + {parent};
      }
      assert parents[..|parents|] == parents;
      if digest !in childrenByDigest {
        childrenByDigest := childrenByDigest[digest := {}];
      }
      AddHeadDigest(digest);
    }

    /** is_valid */
    predicate CanAdd(m: Message)
      reads this
      ensures Valid() ==> CanAdd(m) == IsValid(Nodes(sha, messages), HeadSet(sha, messages), m)
    {
      var parents := Declared(m);
      (forall i :: 0 <= i < |parents| ==> parents[i] in nodes) &&
      (parents == [] || forall i :: 0 <= i < |parents| ==> parents[i] in headDigestSet)
    }

    /** _record_merkelized_message */
    method Record(m: Message, digest: Digest, parents: seq<Digest>)
      requires Lists(headDigests, headDigestSet)
      modifies this`messages, this`digests, this`digestIndex, this`parentsByDigest
      modifies this`childrenByDigest, this`headDigests, this`headDigestSet
      ensures messages == old(messages) + [m] && digests == old(digests) + [digest]
      ensures digestIndex == old(digestIndex)[digest := |old(digests)|]
      ensures parentsByDigest == old(parentsByDigest)[digest := parents]
      ensures childrenByDigest == LinkedUnder(old(childrenByDigest), digest, parents)
      ensures headDigestSet == old(headDigestSet) - Elements(parents) + {digest}
      ensures Lists(headDigests, headDigestSet)
    {
      hide LinkedUnder, Lists;
      messages := messages + [m];
      digestIndex := digestIndex[digest := |digests|];
      digests := digests + [digest];
      parentsByDigest := parentsByDigest[digest := parents];
      LinkParents(digest, parents);
    }

    method AddMessage(m: Message)
      requires Valid()
      modifies this
      ensures Valid() && messages == Receive(sha, old(messages), m)
    {
      hide Linked, Indexed, RecordedAt, Once, LinkedUnder, Frontier, Lists, ParentsOf, Nodes, HeadSet, PerfectHash;
      var digest := sha(Data(m));
      if digest in digestIndex { return; }
      LinkedHeads(sha, messages, childrenByDigest, headDigestSet, headDigests);
      var parents := ParentsOf(m);
      RecordedAppend(sha, messages, digests, digestIndex, parentsByDigest, nodes, m);
      Append(sha, messages, m);
      Record(m, digest, parents);
      hide Recorded;
      LinkedAppend(sha, old(messages), old(childrenByDigest), old(headDigestSet), old(headDigests), m, headDigestSet,
        headDigests);
      nodes := nodes[digest := Node(parents, m)];
      LinkedHeads(sha, messages, childrenByDigest, headDigestSet, headDigests);
      var frontier := CurrentFrontierDigest();
      IndexedAppend(sha, old(messages), frontierStateIndex, m);
      frontierStateIndex := frontierStateIndex[frontier := |messages| - 1];
    }

    /** After a message digest: what follows that message; otherwise: what follows a frontier. */
    method GetMessagesSinceDigest(digest: Digest) returns (r: seq<Message>)
      requires Valid()
      ensures forall i :: 0 <= i < |messages| && DigestOf(sha, messages[i]) == digest ==> r == messages[i + 1..]
      ensures digest !in Nodes(sha, messages) ==> r == Since(sha, messages, digest)
    {
      hide Linked, Once, Frontier, Since;
      if messages == [] {
        NothingIndexed(sha, messages, frontierStateIndex, digest);
        return [];
      }
      if digest == "" {
        EmptyFrontier(sha);
        assert messages[..0] == [];
        SinceAt(sha, messages, 0);
        return messages;
      }
      RecordedPosition(sha, messages, digests, digestIndex, parentsByDigest, nodes, digest);
      if digest in digestIndex {
        return messages[digestIndex[digest] + 1..];
      }
      if digest in frontierStateIndex {
        SinceIndexed(sha, messages, frontierStateIndex, digest);
        return messages[frontierStateIndex[digest] + 1..];
      }
      NothingIndexed(sha, messages, frontierStateIndex, digest);
      return [];
    }
  }

  /** The digest becomes a child of each of the parents. */
  function Under(children: map<Digest, set<Digest>>, digest: Digest, parents: seq<Digest>): map<Digest, set<Digest>> {
    if parents == [] then children
    else
      var c, p := Under(children, digest, parents[..|parents| - 1]), parents[|parents| - 1];
      c[p := (if p in c then c[p] else {}) + {digest}]
  }

  function LinkedUnder(children: map<Digest, set<Digest>>, digest: Digest,
      parents: seq<Digest>): map<Digest, set<Digest>> {
    var c := Under(children, digest, parents);
    if digest in c then c else c[digest := {}]
  }

  lemma {:induction false} UnderEntries(children: map<Digest, set<Digest>>, digest: Digest, parents: seq<Digest>)
    ensures var c := Under(children, digest, parents);
            && (forall d :: d in c <==> d in children || d in parents)
            && (forall d :: d in c ==>
                 c[d] == (if d in children then children[d] else {}) + (if d in parents then {digest} else {}))
  {
    if parents != [] {
      UnderEntries(children, digest, parents[..|parents| - 1]);
      assert parents == parents[..|parents| - 1] + [parents[|parents| - 1]];
    }
  }
}
