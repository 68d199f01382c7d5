/** Orders of arrival at the cached ledger: the same valid blocks, parents first, give the same state. */
module CachedLedgerRuns {
  import opened Common
  import Money = BalanceLedger
  import opened CachedLedger

  function Ids(messages: seq<Message>): set<Hash> {
    set i | 0 <= i < |messages| :: messages[i].h
  }

  /** Every block is new when it arrives, and its parent has arrived before. */
  ghost predicate ParentsFirst(g: Hash, messages: seq<Message>) {
    messages == [] ||
    var front, m := messages[..|messages| - 1], messages[|messages| - 1];
    ParentsFirst(g, front) && m.h !in Ids(front) + {g} && m.b.previous in Ids(front) + {g}
  }

  /** Every block is new and valid when it arrives. */
  ghost predicate AllTaken(g: Hash, genesis: Block, messages: seq<Message>, reward: int)
    requires genesis.index == 0 && reward >= 0
  {
    messages == [] ||
    var front, m := messages[..|messages| - 1], messages[|messages| - 1];
    AllTaken(g, genesis, front, reward) && Taken(Run(g, genesis, front, reward), m, reward)
  }

  ghost predicate Taken(s: State, m: Message, reward: int) { m.h !in s.store && IsValid(s, m.b, reward) }

  /** The messages as a store. */
  function Blocks(g: Hash, genesis: Block, messages: seq<Message>): Store {
    if messages == [] then map[g := genesis]
    else
      var m := messages[|messages| - 1];
      Blocks(g, genesis, messages[..|messages| - 1])[m.h := m.b]
  }

  ghost predicate Within(a: Store, b: Store) { forall h :: h in a ==> h in b && a[h] == b[h] }

  /** A block that two ledgers both know, with everything before it, has the same cached state in both. */
  lemma {:induction false} StatesAgree(s: State, r: State, g: Hash, reward: int, h: Hash)
    requires Rooted(s.store, g) && Cached(s, g, reward) && Cached(r, g, reward)
    requires Within(s.store, r.store) && h in s.store
    ensures h in s.states && h in r.states && s.states[h] == r.states[h]
    decreases s.store[h].index
  {
    hide Settle;
    if h != g {
      assert LinkedUp(s.store, h) && FollowsParent(s, h, reward) && FollowsParent(r, h, reward);
      StatesAgree(s, r, g, reward, s.store[h].previous);
    }
  }

  /** Validity depends on nothing but the parent and its state. */
  lemma {:induction false} ValidThere(s: State, r: State, g: Hash, b: Block, reward: int)
    requires Consistent(s, g, reward) && Consistent(r, g, reward) && Within(s.store, r.store)
    requires b.previous in s.store
    ensures IsValid(s, b, reward) <==> IsValid(r, b, reward)
  {
    hide View, PathTo, Rooted, Cached, Backed, IsBest, Affordable;
    StatesAgree(s, r, g, reward, b.previous);
  }

  lemma {:induction false} RunNext(g: Hash, genesis: Block, front: seq<Message>, m: Message, reward: int)
    requires genesis.index == 0 && reward >= 0 && Taken(Run(g, genesis, front, reward), m, reward)
    ensures Run(g, genesis, front + [m], reward).store == Run(g, genesis, front, reward).store[m.h := m.b]
  {
    hide Exact, Backed, Affordable, AddBlock;
    assert (front + [m])[..|front|] == front;
    AddStores(Run(g, genesis, front, reward), g, m.h, m.b, reward);
  }

  /** A run that takes everything holds exactly its blocks. */
  lemma {:induction false} RunBlocks(g: Hash, genesis: Block, messages: seq<Message>, reward: int)
    requires genesis.index == 0 && reward >= 0 && AllTaken(g, genesis, messages, reward)
    ensures Run(g, genesis, messages, reward).store == Blocks(g, genesis, messages)
  {
    hide Consistent, IsValid, Step, AddBlock;
    if messages != [] {
      var front, m := messages[..|messages| - 1], messages[|messages| - 1];
      RunBlocks(g, genesis, front, reward);
      assert messages == front + [m];
      RunNext(g, genesis, front, m, reward);
    } else {
      StartStore(g, genesis, reward);
    }
  }

  lemma StartStore(g: Hash, genesis: Block, reward: int)
    requires genesis.index == 0 && reward >= 0
    ensures Run(g, genesis, [], reward).store == map[g := genesis]
  {
    hide Consistent;
  }

  /** With ids new as they arrive, the store has each message and nothing else. */
  lemma {:induction false} BlocksExactly(g: Hash, genesis: Block, messages: seq<Message>)
    requires ParentsFirst(g, messages)
    ensures var t := Blocks(g, genesis, messages);
            && t.Keys == Ids(messages) + {g} && t[g] == genesis
            && forall m :: m in messages ==> m.h in t && t[m.h] == m.b && m.h != g
  {
    if messages != [] {
      var front, z := messages[..|messages| - 1], messages[|messages| - 1];
      assert messages == front + [z];
      BlocksExactly(g, genesis, front);
      IdsMore(front, z);
      forall m | m in front ensures m.h != z.h {
        IdsHave(front, m);
      }
      hide Ids;
    }
  }

  lemma IdsMore(front: seq<Message>, z: Message)
    ensures Ids(front + [z]) == Ids(front) + {z.h}
  {
    assert forall i :: 0 <= i < |front| ==> (front + [z])[i] == front[i];
    assert (front + [z])[|front|] == z;
  }

  lemma IdsHave(messages: seq<Message>, m: Message)
    requires m in messages
    ensures m.h in Ids(messages)
  {
  }

  /** A run that takes everything has its parents first. */
  lemma {:induction false} TakenInOrder(g: Hash, genesis: Block, messages: seq<Message>, reward: int)
    requires genesis.index == 0 && reward >= 0 && AllTaken(g, genesis, messages, reward)
    ensures ParentsFirst(g, messages)
  {
    if messages != [] {
      var front := messages[..|messages| - 1];
      hide Consistent, Affordable, Run, Ids;
      TakenInOrder(g, genesis, front, reward);
      RunBlocks(g, genesis, front, reward);
      BlocksExactly(g, genesis, front);
    }
  }

  /** What was taken is valid at the end too. */
  lemma {:induction false} StaysValid(g: Hash, genesis: Block, messages: seq<Message>, reward: int, m: Message)
    requires genesis.index == 0 && reward >= 0 && AllTaken(g, genesis, messages, reward) && m in messages
    ensures IsValid(Run(g, genesis, messages, reward), m.b, reward)
  {
    hide Consistent, IsValid, Run;
    var front, z := messages[..|messages| - 1], messages[|messages| - 1];
    assert messages == front + [z];
    assert AllTaken(g, genesis, front, reward) && Taken(Run(g, genesis, front, reward), z, reward);
    RunNext(g, genesis, front, z, reward);
    if m != z {
      StaysValid(g, genesis, front, reward, m);
    }
    hide AllTaken;
    OneMore(Run(g, genesis, front, reward), Run(g, genesis, messages, reward), g, z, m.b, reward);
  }

  lemma {:induction false} OneMore(s: State, r: State, g: Hash, z: Message, b: Block, reward: int)
    requires Consistent(s, g, reward) && Consistent(r, g, reward)
    requires z.h !in s.store && r.store == s.store[z.h := z.b] && IsValid(s, b, reward)
    ensures IsValid(r, b, reward)
  {
    hide Consistent, Affordable;
    assert b.previous in s.store && Within(s.store, r.store);
    hide IsValid;
    ValidThere(s, r, g, b, reward);
  }

  /** The blocks of a run that takes everything are taken in any other order with parents first. */
  lemma {:induction false} AlsoTaken(g: Hash, genesis: Block, one: seq<Message>, two: seq<Message>, reward: int)
    requires genesis.index == 0 && reward >= 0 && AllTaken(g, genesis, one, reward)
    requires ParentsFirst(g, two) && forall m :: m in two ==> m in one
    ensures AllTaken(g, genesis, two, reward)
  {
    hide Run, IsValid, Consistent;
    if two != [] {
      var front, m := two[..|two| - 1], two[|two| - 1];
      assert ParentsFirst(g, front) && m in one;
      assert forall z :: z in front ==> z in one;
      AlsoTaken(g, genesis, one, front, reward);
      NextTaken(g, genesis, one, front, m, reward);
    }
  }

  lemma {:induction false} NextTaken(g: Hash, genesis: Block, one: seq<Message>, front: seq<Message>, m: Message,
      reward: int)
    requires genesis.index == 0 && reward >= 0 && AllTaken(g, genesis, one, reward) && m in one
    requires AllTaken(g, genesis, front, reward) && forall z :: z in front ==> z in one
    requires m.h !in Ids(front) + {g} && m.b.previous in Ids(front) + {g}
    ensures Taken(Run(g, genesis, front, reward), m, reward)
  {
    hide Run, IsValid, Consistent, Ids, AllTaken;
    TakenInOrder(g, genesis, front, reward);
    RunBlocks(g, genesis, front, reward);
    RunBlocks(g, genesis, one, reward);
    BlocksExactly(g, genesis, front);
    BlocksWithin(g, genesis, one, front, reward);
    hide Blocks, ParentsFirst;
    StaysValid(g, genesis, one, reward, m);
    ValidThere(Run(g, genesis, front, reward), Run(g, genesis, one, reward), g, m.b, reward);
  }

  lemma {:induction false} BlocksWithin(g: Hash, genesis: Block, one: seq<Message>, two: seq<Message>, reward: int)
    requires genesis.index == 0 && reward >= 0
    requires AllTaken(g, genesis, one, reward) && AllTaken(g, genesis, two, reward)
    requires forall m :: m in two ==> m in one
    ensures Within(Blocks(g, genesis, two), Blocks(g, genesis, one))
  {
    hide AllTaken, ParentsFirst, Blocks;
    TakenInOrder(g, genesis, one, reward);
    TakenInOrder(g, genesis, two, reward);
    BlocksExactly(g, genesis, one);
    BlocksExactly(g, genesis, two);
    var t := Blocks(g, genesis, two);
    forall h | h in t && h != g ensures exists m :: m in two && m.h == h {
      var i :| 0 <= i < |two| && two[i].h == h;
      assert two[i] in two;
    }
  }

  /** Two orders of the same blocks, parents first, of which one is valid throughout: so is the other,
      and both end in the same state. */
  lemma {:induction false} OrderIndependent(g: Hash, genesis: Block, one: seq<Message>, two: seq<Message>, reward: int)
    requires genesis.index == 0 && reward >= 0 && AllTaken(g, genesis, one, reward)
    requires ParentsFirst(g, two) && forall m :: m in one <==> m in two
    ensures AllTaken(g, genesis, two, reward)
    ensures Run(g, genesis, one, reward) == Run(g, genesis, two, reward)
  {
    hide Consistent, Run, AllTaken, Blocks, ParentsFirst;
    AlsoTaken(g, genesis, one, two, reward);
    BlocksWithin(g, genesis, one, two, reward);
    BlocksWithin(g, genesis, two, one, reward);
    MapEquality(Blocks(g, genesis, one), Blocks(g, genesis, two));
    RunBlocks(g, genesis, one, reward);
    RunBlocks(g, genesis, two, reward);
    Convergence(g, genesis, one, two, reward);
  }
}
