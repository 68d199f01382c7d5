/** The proof-of-work primitive: the first nonce whose hash is a multiple of the difficulty. */
module Pow {
  /** The hash of a challenge followed by a nonce, and the number that its digits spell. */
  datatype Hash = Hash(digest: (string, int) -> string, number: string -> nat)

  predicate Meets(hash: Hash, difficulty: nat, challenge: string, nonce: int)
    requires difficulty >= 1
  {
    hash.number(hash.digest(challenge, nonce)) % difficulty == 0
  }

  /** The search for this challenge ends. */
  ghost predicate Solvable(hash: Hash, difficulty: nat, challenge: string)
    requires difficulty >= 1
  {
    exists n: nat :: Meets(hash, difficulty, challenge, n)
  }

  predicate Proves(hash: Hash, difficulty: nat, challenge: string, nonce: int, id: string)
    requires difficulty >= 1
  {
    id == hash.digest(challenge, nonce) && hash.number(id) % difficulty == 0
  }

  class ProofOfWorkPrimitive {
    const hash: Hash
    const difficulty: nat

    constructor (hash: Hash, difficulty: nat)
      ensures this.hash == hash && this.difficulty == difficulty
    {
      this.hash, this.difficulty := hash, difficulty;
    }

    /** Nonces are tried upwards from 0; the first that meets the difficulty proves the work. */
    method CreateProof(challenge: string) returns (nonce: nat, id: string)
      requires difficulty >= 1 && Solvable(hash, difficulty, challenge)
      ensures Proves(hash, difficulty, challenge, nonce, id)
      ensures id == hash.digest(challenge, nonce) && hash.number(id) % difficulty == 0
      ensures forall n: nat :: n < nonce ==> hash.number(hash.digest(challenge, n)) % difficulty != 0
    {
      ghost var goal: nat :| Meets(hash, difficulty, challenge, goal);
      nonce := 0;
      while true
        invariant nonce <= goal
        invariant forall n: nat :: n < nonce ==> hash.number(hash.digest(challenge, n)) % difficulty != 0
        decreases goal - nonce
      {
        id := hash.digest(challenge, nonce);
        if hash.number(id) % difficulty == 0 { return; }
        nonce := nonce + 1;
      }
    }

    method VerifyProof(challenge: string, nonce: int, id: string) returns (ok: bool)
      requires difficulty >= 1
      ensures ok == Proves(hash, difficulty, challenge, nonce, id)
      ensures ok <==> id == hash.digest(challenge, nonce) && hash.number(id) % difficulty == 0
    {
      var calculated := hash.digest(challenge, nonce);
      if calculated != id { return false; }
      return hash.number(calculated) % difficulty == 0;
    }
  }
}
