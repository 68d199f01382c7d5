/** The DAG object's rules in plain terms: which digests are parents, what is hashed for a frontier, and
    which messages are fit to be added. */
module MerkleDagRules {
  import opened Common
  import opened Order
  import opened MerkleDag
  import opened MerkleDagArrival

  /** A parent is a digest that the message names, other than the empty one and "genesis". */
  lemma {:induction false} ParentsExactly(m: Message, d: Digest)
    ensures d in ParentsOf(m) <==>
            && d != "" && d != "genesis"
            && match m.links
               case Parents(ds) => exists i :: 0 <= i < |ds| && ds[i] == d
               case Previous(p) => d == p
               case NoLinks => false
  {
  }

  /** Parents stand in the order in which they are first named. */
  ghost predicate FirstNamed(ds: seq<Digest>, i: int, d: Digest) {
    0 <= i < |ds| && ds[i] == d && d !in ds[..i]
  }

  ghost predicate InOrderOfFirst(r: seq<Digest>, ds: seq<Digest>) {
    forall k, l, i, j :: 0 <= k < l < |r| && FirstNamed(ds, i, r[k]) && FirstNamed(ds, j, r[l]) ==> i < j
  }

  lemma {:induction false} FirstExists(ds: seq<Digest>, d: Digest) returns (i: nat)
    requires d in ds
    ensures FirstNamed(ds, i, d)
  {
    var n := |ds| - 1;
    if d in ds[..n] {
      i := FirstExists(ds[..n], d);
      assert ds[..n][..i] == ds[..i];
    } else {
      i := n;
    }
  }

  lemma {:induction false} NormalizeInOrder(ds: seq<Digest>)
    ensures InOrderOfFirst(Normalize(ds), ds)
  {
    if ds != [] {
      var n := |ds| - 1;
      var front, r := Normalize(ds[..n]), Normalize(ds);
      NormalizeInOrder(ds[..n]);
      forall k, l, i, j | 0 <= k < l < |r| && FirstNamed(ds, i, r[k]) && FirstNamed(ds, j, r[l]) ensures i < j {
        NamedBefore(ds, front, i, r[k]);
        if l < |front| {
          NamedBefore(ds, front, j, r[l]);
        } else {
          NamedLast(ds, front, j, r[l]);
        }
      }
    }
  }

  lemma {:induction false} NamedBefore(ds: seq<Digest>, front: seq<Digest>, i: int, d: Digest)
    requires ds != [] && front == Normalize(ds[..|ds| - 1]) && d in front && FirstNamed(ds, i, d)
    ensures i < |ds| - 1 && FirstNamed(ds[..|ds| - 1], i, d)
  {
    var n := |ds| - 1;
    assert d in ds[..n];
    assert i < n ==> ds[..n][..i] == ds[..i];
  }

  lemma {:induction false} NamedLast(ds: seq<Digest>, front: seq<Digest>, j: int, d: Digest)
    requires ds != [] && front == Normalize(ds[..|ds| - 1]) && d !in front && FirstNamed(ds, j, d)
    requires d != "" && d != "genesis"
    ensures j == |ds| - 1
  {
    if j < |ds| - 1 {
      assert false;
    }
  }

  /** The frontier digest is the hash of version 1 and the heads in order, and empty when there are none. */
  lemma {:induction false} FrontierIs(sha: Sha, ms: seq<Message>, l: seq<Digest>)
    requires (forall i, j :: 0 <= i < j < |l| ==> Less(l[i], l[j])) && forall d :: d in l <==> d in HeadSet(sha, ms)
    ensures Frontier(sha, ms) == if HeadSet(sha, ms) == {} then "" else sha(FrontierPayload(1, l))
  {
    forall i, j | 0 <= i < j < |l| ensures l[i] != l[j] {
      LessAsymmetric(l[i], l[j]);
    }
    assert Elements(l) == HeadSet(sha, ms);
    SortedUnique(Heads(sha, ms), l);
    hide HeadSet;
    assert l == [] <==> Elements(l) == {} by {
      assert l != [] ==> l[0] in Elements(l);
    }
  }

  /** A message is fit when every parent in its list has arrived and is still a head. */
  lemma {:induction false} FitExactly(nodes: set<Digest>, heads: set<Digest>, m: Message)
    ensures IsValid(nodes, heads, m) <==>
            m.links.Parents? ==>
              forall d :: d in m.links.digests && d != "" && d != "genesis" ==> d in nodes && d in heads
  {
    if m.links.Parents? {
      var r := Declared(m);
      assert forall d :: d in Elements(r) <==> d in m.links.digests && d != "" && d != "genesis";
    }
  }
}
