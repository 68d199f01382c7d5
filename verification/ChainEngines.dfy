/** What the two longest-chain engines share: blocks, the verification of their position, and
    the decision read off the canonical chain. */
module LongestChain {
  import opened Common
  import opened ForkChoice
  import opened ForkChoiceRuns

  datatype Header = Header(parent: Id, height: int, miner: string, payload: string)

  /** `proof` is the nonce or the VDF output. */
  datatype MinedBlock = MinedBlock(header: Header, proof: int, id: Id)

  /** The part of `_verify` about the tree: a known parent, one step below the block. */
  predicate InPlace(t: Tree, h: Header) {
    h.parent in t && h.height == t[h.parent].height + 1
  }

  function OfferOf(b: MinedBlock): Offer {
    Offer(b.id, b.header.parent, 1, b.header.payload)
  }

  /** decision(): the canonical block buried under `confirmations` others, if not genesis. */
  ghost function Decision(t: Tree, g: Id, confirmations: nat): Option<Id>
    requires WellFormed(t, g)
  {
    var c := Canonical(t, g);
    if |c| - 1 - confirmations < 1 then None else Some(c[|c| - 1 - confirmations])
  }

  /** A decided block is the last of the finalized prefix. */
  lemma DecisionIsFinalized(t: Tree, g: Id, confirmations: nat)
    requires WellFormed(t, g)
    ensures var f := Finalized(t, g, confirmations);
            && (Decision(t, g, confirmations).Some? <==> |f| >= 2)
            && (Decision(t, g, confirmations).Some? ==> Decision(t, g, confirmations) == Some(f[|f| - 1]))
  {
  }

  /** The decision is the canonical block whose height is the tip's less the confirmations, if that is
      above genesis. */
  lemma {:induction false} DecisionByHeight(t: Tree, g: Id, confirmations: nat, b: Id)
    requires UnitWork(t, g)
    ensures Decision(t, g, confirmations) == Some(b) <==>
            b in Canonical(t, g) && b in t && t[b].height == t[Best(t, g)].height - confirmations >= 1
  {
    var c := Canonical(t, g);
    CanonicalHeights(t, g);
    hide UnitWork, Best, Canonical;
    AtHeight(t, c, |c| - 1 - confirmations, b);
  }

  lemma {:induction false} CanonicalHeights(t: Tree, g: Id)
    requires UnitWork(t, g)
    ensures var c := Canonical(t, g);
            && Best(t, g) in t && |c| == t[Best(t, g)].height + 1
            && forall i :: 0 <= i < |c| ==> c[i] in t && t[c[i]].height == i
  {
    var c, b := Canonical(t, g), Best(t, g);
    PathLength(t, g, b);
    hide Best;
    forall i | 0 <= i < |c| ensures c[i] in t && t[c[i]].height == i {
      PathPrefix(t, g, b, i);
    }
  }

  lemma {:induction false} AtHeight(t: Tree, c: seq<Id>, h: int, b: Id)
    requires h < |c| && forall i :: 0 <= i < |c| ==> c[i] in t && t[c[i]].height == i
    ensures h >= 1 ==> (c[h] == b <==> b in c && b in t && t[b].height == h)
  {
  }

  /** While reorgs stay shallow, a decided block stays canonical at its height for ever. */
  lemma {:induction false} DecidedStays(g: Id, trees: seq<Tree>, i: nat, j: nat, confirmations: nat)
    requires History(g, trees) && i <= j < |trees|
    requires forall k :: i <= k < j ==> Shallow(trees[k], trees[k + 1], g, confirmations)
    ensures UnitWork(trees[i], g) && UnitWork(trees[j], g)
    ensures var d := Decision(trees[i], g, confirmations);
            d.Some? ==> d.value in trees[i] && var h := trees[i][d.value].height;
                        0 <= h < |Canonical(trees[j], g)| && Canonical(trees[j], g)[h] == d.value
  {
    HistoryUnitWork(g, trees, i);
    HistoryUnitWork(g, trees, j);
    FinalizedGrows(g, trees, i, j, confirmations);
    DecidedInPrefix(trees[i], trees[j], g, confirmations);
  }

  lemma {:induction false} DecidedInPrefix(t: Tree, u: Tree, g: Id, confirmations: nat)
    requires UnitWork(t, g) && UnitWork(u, g) && Finalized(t, g, confirmations) <= Finalized(u, g, confirmations)
    ensures var d := Decision(t, g, confirmations);
            d.Some? ==> d.value in t && var h := t[d.value].height;
                        0 <= h < |Canonical(u, g)| && Canonical(u, g)[h] == d.value
  {
    var c := Canonical(t, g);
    if Decision(t, g, confirmations).Some? {
      var h := |c| - 1 - confirmations;
      PathPrefix(t, g, Best(t, g), h);
      hide UnitWork, Best, PathTo;
      BuriedAgree(c, Canonical(u, g), confirmations, h);
    }
  }

  lemma {:induction false} BuriedAgree(p: seq<Id>, q: seq<Id>, confirmations: nat, h: nat)
    requires Buried(p, confirmations) <= Buried(q, confirmations) && h + confirmations < |p|
    ensures h < |q| && q[h] == p[h]
  {
    assert Buried(p, confirmations)[h] == Buried(q, confirmations)[h];
  }

  /** In a unit-work tree the best block is the one that the class keeps as its tip. */
  lemma {:induction false} CanonicalIs(s: State, g: Id)
    requires Consistent(s, g)
    ensures s.canonical == Canonical(s.nodes, g)
  {
    SelectedUnique(s.nodes, Best(s.nodes, g), s.canonical[|s.canonical| - 1]);
  }

  /** The decision as the engines compute it from the cached canonical list. */
  method ReadDecision(chain: ForkAwareChain, confirmations: nat) returns (d: Option<Id>)
    requires chain.Valid() && UnitWork(chain.nodes, chain.genesis)
    ensures d == Decision(chain.nodes, chain.genesis, confirmations)
  {
    CanonicalIs(chain.Snapshot(), chain.genesis);
    PathLength(chain.nodes, chain.genesis, chain.Tip());
    var height := chain.nodes[chain.Tip()].height - confirmations;
    if height < 1 { return None; }
    return Some(chain.canonical[height]);
  }

  lemma {:induction false} AddUnitWork(t: Tree, g: Id, o: Offer)
    requires UnitWork(t, g) && o.work == 1
    ensures UnitWork(Add(t, o), g)
  {
    AddWellFormed(t, g, o);
  }

  ghost function WorkAlong(t: Tree, path: seq<Id>): int
    requires forall b :: b in path ==> b in t
  {
    if path == [] then 0 else WorkAlong(t, path[..|path| - 1]) + t[path[|path| - 1]].work
  }

  /** Cumulative work is the work of the blocks from genesis on. */
  lemma {:induction false} WorkAdds(t: Tree, g: Id, b: Id)
    requires WellFormed(t, g) && b in t
    ensures forall c :: c in PathTo(t, g, b) ==> c in t
    ensures t[b].cumWork == WorkAlong(t, PathTo(t, g, b))
    decreases t[b].height - t[g].height
  {
    if b == g {
      assert [g][..0] == [];
    } else {
      var p := t[b].parent.value;
      WorkAdds(t, g, p);
      assert (PathTo(t, g, p) + [b])[..|PathTo(t, g, p)|] == PathTo(t, g, p);
    }
  }

  /** A block that is in place enters at the height it claims, with one unit of work. */
  lemma {:induction false} EntersExactly(t: Tree, b: MinedBlock)
    requires InPlace(t, b.header) && b.id !in t
    ensures b.header.parent in t && b.header.height == t[b.header.parent].height + 1
    ensures Add(t, OfferOf(b)) == t[b.id := Block(Some(b.header.parent), b.header.height, 1,
                                                  t[b.header.parent].cumWork + 1, b.header.payload)]
  {
  }

  // ------------------------------------------------------------------ ids that bind a block to its place

  /** The id of a header with a proof. */
  type IdRule = (Header, int) -> Id

  ghost predicate Binding(ids: IdRule) {
    forall h, x, k, y :: ids(h, x) == ids(k, y) ==> h == k && x == y
  }

  /** Every block but genesis carries the id of a header that fits its place. */
  ghost predicate Authentic(ids: IdRule, t: Tree, g: Id) {
    forall b :: b in t && b != g ==> exists h, proof :: Signs(ids, t, b, h, proof)
  }

  ghost predicate Signs(ids: IdRule, t: Tree, b: Id, h: Header, proof: int)
    requires b in t
  {
    b == ids(h, proof) && t[b].parent == Some(h.parent) && t[b].height == h.height
  }

  lemma {:induction false} AddAuthentic(ids: IdRule, t: Tree, g: Id, b: MinedBlock)
    requires Authentic(ids, t, g) && InPlace(t, b.header) && b.id == ids(b.header, b.proof)
    ensures Authentic(ids, Add(t, OfferOf(b)), g)
  {
    var u := Add(t, OfferOf(b));
    forall x | x in u && x != g ensures exists h, proof :: Signs(ids, u, x, h, proof) {
      if x in t {
        var h, proof :| Signs(ids, t, x, h, proof);
        assert Signs(ids, u, x, h, proof);
      } else {
        assert Signs(ids, u, x, b.header, b.proof);
      }
    }
  }

  /** Two nodes give a block they both hold the same height. */
  lemma {:induction false} SameHeight(ids: IdRule, t: Tree, u: Tree, g: Id, b: Id)
    requires Binding(ids) && UnitWork(t, g) && UnitWork(u, g)
    requires Authentic(ids, t, g) && Authentic(ids, u, g) && b in t && b in u
    ensures t[b].height == u[b].height
  {
    if b != g {
      var h, x :| Signs(ids, t, b, h, x);
      var k, y :| Signs(ids, u, b, k, y);
      assert h == k;
    }
  }
}

/** The proof-of-work engine. The header hash and the proof hash are parameters. */
module ProofOfWork {
  import opened Common
  import opened ForkChoice
  import opened ForkChoiceRuns
  import opened LongestChain
  import opened Pow

  const GENESIS_ID: Id := "POW_GENESIS"

  /** What every node of one chain is configured with. */
  datatype Rules = Rules(challenge: Header -> string, hash: Hash, difficulty: nat)

  function Ids(y: Rules): IdRule { (h, nonce) => y.hash.digest(y.challenge(h), nonce) }

  /** What `_verify` accepts on a tree. */
  predicate Acceptable(y: Rules, t: Tree, b: MinedBlock)
    requires y.difficulty >= 1
  {
    InPlace(t, b.header) && Proves(y.hash, y.difficulty, y.challenge(b.header), b.proof, b.id)
  }

  /** A block is accepted when it stands one above a block that is held, its id is the hash of its header's
      challenge and its nonce, and the number which that spells is a multiple of the difficulty. */
  lemma {:induction false} AcceptedExactly(y: Rules, t: Tree, b: MinedBlock)
    requires y.difficulty >= 1
    ensures Acceptable(y, t, b) <==>
            && b.header.parent in t && b.header.height == t[b.header.parent].height + 1
            && b.id == y.hash.digest(y.challenge(b.header), b.proof) && y.hash.number(b.id) % y.difficulty == 0
  {
  }

  /** A block that one node accepts is accepted by every node that holds its parent. */
  lemma {:induction false} AcceptedEverywhere(y: Rules, t: Tree, u: Tree, b: MinedBlock)
    requires y.difficulty >= 1 && Binding(Ids(y))
    requires UnitWork(t, GENESIS_ID) && Authentic(Ids(y), t, GENESIS_ID) && Acceptable(y, t, b)
    requires UnitWork(u, GENESIS_ID) && Authentic(Ids(y), u, GENESIS_ID) && b.header.parent in u
    ensures Acceptable(y, u, b)
  {
    SameHeight(Ids(y), t, u, GENESIS_ID, b.header.parent);
  }

  class ProofOfWorkConsensus {
    const rules: Rules
    const confirmations: nat
    const miner: string
    const pow: ProofOfWorkPrimitive
    const chain: ForkAwareChain
    var lastResult: Option<AddResult>

    ghost predicate Valid() reads this, chain {
      && chain.Valid() && chain.genesis == GENESIS_ID && UnitWork(chain.nodes, GENESIS_ID)
      && rules.difficulty >= 1 && pow.difficulty == rules.difficulty && pow.hash == rules.hash
      && Authentic(Ids(rules), chain.nodes, GENESIS_ID)
    }

    constructor (rules: Rules, confirmations: nat, miner: string)
      requires rules.difficulty >= 1 && confirmations >= 1
      ensures Valid() && fresh(chain) && this.rules == rules && this.confirmations == confirmations
              && this.miner == miner
      ensures lastResult == None && chain.nodes == map[GENESIS_ID := Block(None, 0, 0, 0, "")]
    {
      this.rules, this.confirmations, this.miner := rules, confirmations, miner;
      pow := new ProofOfWorkPrimitive(rules.hash, rules.difficulty);
      chain := new ForkAwareChain(GENESIS_ID, 0, 0, "");
      lastResult := None;
    }

    function NextHeader(payload: string): Header
      requires Valid()
      reads this, chain
    {
      Header(chain.Tip(), chain.nodes[chain.Tip()].height + 1, miner, payload)
    }

    /** What ingesting a block does to the last result. */
    ghost predicate Ingested(t: Tree, was: seq<Id>, before: Option<AddResult>, b: MinedBlock) reads this, chain {
      && chain.nodes == Add(t, OfferOf(b)) && chain.canonical != []
      && lastResult == (if b.id in t then before else Some(Report(was, chain.canonical)))
    }

    method Ingest(b: MinedBlock)
      requires Valid() && InPlace(chain.nodes, b.header) && b.id == Ids(rules)(b.header, b.proof)
      modifies this, chain
      ensures Valid() && Ingested(old(chain.nodes), old(chain.canonical), old(lastResult), b)
      ensures b.id in old(chain.nodes) ==> chain.Snapshot() == old(chain.Snapshot())
    {
      if b.id in chain.nodes { return; }
      AddUnitWork(chain.nodes, GENESIS_ID, OfferOf(b));
      AddAuthentic(Ids(rules), chain.nodes, GENESIS_ID, b);
      var r := chain.AddBlock(b.id, b.header.parent, 1, b.header.payload);
      lastResult := Some(r);
    }

    method Observe(b: MinedBlock)
      requires Valid()
      modifies this, chain
      ensures Valid()
      ensures if Acceptable(rules, old(chain.nodes), b)
              then Ingested(old(chain.nodes), old(chain.canonical), old(lastResult), b)
              else chain.Snapshot() == old(chain.Snapshot()) && lastResult == old(lastResult)
    {
      if b.header.parent !in chain.nodes { return; }
      if b.header.height != chain.nodes[b.header.parent].height + 1 { return; }
      var ok := pow.VerifyProof(rules.challenge(b.header), b.proof, b.id);
      if ok { Ingest(b); }
    }

    /** The block on the tip with the first nonce that proves its work. */
    method Mine(payload: string) returns (b: MinedBlock)
      requires Valid() && Solvable(rules.hash, rules.difficulty, rules.challenge(NextHeader(payload)))
      ensures Acceptable(rules, chain.nodes, b) && b.header == NextHeader(payload)
      ensures forall n: nat :: n < b.proof ==> !Meets(rules.hash, rules.difficulty, rules.challenge(b.header), n)
    {
      var header := NextHeader(payload);
      var nonce, id := pow.CreateProof(rules.challenge(header));
      return MinedBlock(header, nonce, id);
    }

    method Propose(payload: string) returns (b: MinedBlock)
      requires Valid() && Solvable(rules.hash, rules.difficulty, rules.challenge(NextHeader(payload)))
      modifies this, chain
      ensures Valid() && Ingested(old(chain.nodes), old(chain.canonical), old(lastResult), b)
      ensures Acceptable(rules, old(chain.nodes), b) && b.header == old(NextHeader(payload))
      ensures b.header.parent == old(chain.Tip()) && b.header.miner == miner && b.header.payload == payload
    {
      b := Mine(payload);
      Ingest(b);
    }

    method GetDecision() returns (d: Option<Id>)
      requires Valid()
      ensures d == Decision(chain.nodes, GENESIS_ID, confirmations)
    {
      d := ReadDecision(chain, confirmations);
    }
  }
}

/** The VDF linear-work engine. */
module VdfChain {
  import opened Common
  import opened Bytes
  import opened NumberTheory
  import opened Vdf
  import opened ForkChoice
  import opened ForkChoiceRuns
  import opened LongestChain

  const GENESIS_ID: Id := "VDF_GENESIS"

  /** The two hashes of the engine: the header challenge, and the id of challenge and proof. */
  datatype Hashes = Hashes(challenge: Header -> bytes, blockId: (bytes, int) -> Id) {
    ghost predicate Injective() {
      && (forall a, b :: challenge(a) == challenge(b) ==> a == b)
      && (forall a, x, b, y :: blockId(a, x) == blockId(b, y) ==> a == b && x == y)
    }
  }

  function Ids(hs: Hashes): IdRule { (h, proof) => hs.blockId(hs.challenge(h), proof) }

  /** What `_verify` accepts on a tree. */
  predicate Acceptable(hs: Hashes, iterations: nat, p: int, t: Tree, b: MinedBlock)
    requires p > 0
  {
    && InPlace(t, b.header)
    && b.id == Ids(hs)(b.header, b.proof)
    && Accepts(Seed(Text(hs.challenge(b.header))), b.proof, iterations, p)
  }

  /** What `mine` returns on top of a given block. */
  function Mined(hs: Hashes, iterations: nat, p: int, h: Header): MinedBlock
    requires p > 0
  {
    var proof := RootChain(Seed(Text(hs.challenge(h))) % p, iterations, p);
    MinedBlock(h, proof, Ids(hs)(h, proof))
  }

  /** A block is accepted when it stands one above a block that is held, its id is that of its header's challenge
      and its proof, and the proof's 2^iterations-th power is the challenge, read as a number, or its negative. */
  lemma {:induction false} AcceptedExactly(hs: Hashes, iterations: nat, p: int, t: Tree, b: MinedBlock)
    requires p > 0 && iterations >= 1
    ensures var x, z := IntFromBytes(hs.challenge(b.header)), Pow(b.proof, Pow2(iterations));
            Acceptable(hs, iterations, p, t, b) <==>
            && b.header.parent in t && b.header.height == t[b.header.parent].height + 1
            && b.id == hs.blockId(hs.challenge(b.header), b.proof)
            && (z % p == x % p || z % p == (-x) % p)
  {
    AcceptanceExact(Seed(Text(hs.challenge(b.header))), b.proof, iterations, p);
  }

  /** A block mined on any node is accepted by every node with the same iteration count that
      holds its parent. */
  lemma {:induction false} MinedIsAccepted(hs: Hashes, iterations: nat, p: int, t: Tree, u: Tree, h: Header)
    requires Prime(p) && p % 4 == 3 && hs.Injective()
    requires UnitWork(t, GENESIS_ID) && Authentic(Ids(hs), t, GENESIS_ID) && InPlace(t, h)
    requires UnitWork(u, GENESIS_ID) && Authentic(Ids(hs), u, GENESIS_ID) && h.parent in u
    ensures Acceptable(hs, iterations, p, u, Mined(hs, iterations, p, h))
  {
    SameHeight(Ids(hs), t, u, GENESIS_ID, h.parent);
    Completeness(Text(hs.challenge(h)), iterations, p);
  }

  class VDFLinearWorkConsensus {
    const iterations: nat
    const confirmations: nat
    const miner: string
    const hs: Hashes
    const vdf: VDFPrimitive
    const chain: ForkAwareChain
    var lastResult: Option<AddResult>

    ghost predicate Valid() reads this, chain {
      && chain.Valid() && chain.genesis == GENESIS_ID && UnitWork(chain.nodes, GENESIS_ID)
      && vdf.iterations == iterations && vdf.p == FIELD
      && Authentic(Ids(hs), chain.nodes, GENESIS_ID)
    }

    constructor (iterations: nat, confirmations: nat, miner: string, hs: Hashes)
      requires iterations >= 1 && confirmations >= 1
      ensures Valid() && fresh(chain) && this.iterations == iterations && this.confirmations == confirmations
      ensures this.miner == miner && this.hs == hs && lastResult == None
      ensures chain.nodes == map[GENESIS_ID := Block(None, 0, 0, 0, "")]
    {
      this.iterations, this.confirmations, this.miner, this.hs := iterations, confirmations, miner, hs;
      vdf := new VDFPrimitive(iterations);
      chain := new ForkAwareChain(GENESIS_ID, 0, 0, "");
      lastResult := None;
    }

    method Mine(payload: string) returns (b: MinedBlock)
      requires Valid()
      ensures InPlace(chain.nodes, b.header) && b.header.parent == chain.Tip()
      ensures b.header.miner == miner && b.header.payload == payload
      ensures b == Mined(hs, iterations, FIELD, b.header)
    {
      var header := Header(chain.Tip(), chain.nodes[chain.Tip()].height + 1, miner, payload);
      var challenge := hs.challenge(header);
      var proof := vdf.CreateProof(Text(challenge));
      b := MinedBlock(header, proof, hs.blockId(challenge, proof));
    }

    method Verify(b: MinedBlock) returns (ok: bool)
      requires Valid()
      ensures ok == Acceptable(hs, iterations, FIELD, chain.nodes, b)
    {
      if b.header.parent !in chain.nodes { return false; }
      if b.header.height != chain.nodes[b.header.parent].height + 1 { return false; }
      var challenge := hs.challenge(b.header);
      if b.id != hs.blockId(challenge, b.proof) { return false; }
      ok := vdf.VerifyProof(Text(challenge), b.proof);
    }

    /** What ingesting a block does to the last result. */
    ghost predicate Ingested(t: Tree, was: seq<Id>, before: Option<AddResult>, b: MinedBlock) reads this, chain {
      && chain.nodes == Add(t, OfferOf(b)) && chain.canonical != []
      && lastResult == (if b.id in t then before else Some(Report(was, chain.canonical)))
    }

    method Ingest(b: MinedBlock)
      requires Valid() && InPlace(chain.nodes, b.header) && b.id == Ids(hs)(b.header, b.proof)
      modifies this, chain
      ensures Valid() && Ingested(old(chain.nodes), old(chain.canonical), old(lastResult), b)
      ensures b.id in old(chain.nodes) ==> chain.Snapshot() == old(chain.Snapshot())
    {
      if b.id in chain.nodes { return; }
      AddUnitWork(chain.nodes, GENESIS_ID, OfferOf(b));
      AddAuthentic(Ids(hs), chain.nodes, GENESIS_ID, b);
      var r := chain.AddBlock(b.id, b.header.parent, 1, b.header.payload);
      lastResult := Some(r);
    }

    method Observe(b: MinedBlock)
      requires Valid()
      modifies this, chain
      ensures Valid()
      ensures if Acceptable(hs, iterations, FIELD, old(chain.nodes), b)
              then Ingested(old(chain.nodes), old(chain.canonical), old(lastResult), b)
              else chain.Snapshot() == old(chain.Snapshot()) && lastResult == old(lastResult)
    {
      var ok := Verify(b);
      if ok {
        Ingest(b);
      }
    }

    method Propose(payload: string) returns (b: MinedBlock)
      requires Valid()
      modifies this, chain
      ensures Valid() && Ingested(old(chain.nodes), old(chain.canonical), old(lastResult), b)
      ensures b == Mined(hs, iterations, FIELD, b.header) && b.header.parent == old(chain.Tip())
      ensures b.header.miner == miner && b.header.payload == payload
      ensures b.header.height == old(chain.nodes[chain.Tip()].height) + 1
    {
      b := Mine(payload);
      Ingest(b);
    }

    method GetDecision() returns (d: Option<Id>)
      requires Valid()
      ensures d == Decision(chain.nodes, GENESIS_ID, confirmations)
    {
      d := ReadDecision(chain, confirmations);
    }
  }
}
