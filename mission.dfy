/**
 * The mission token's fair-reveal index. A provenance hash is published
 * before the sale; a block number is committed either by the mint that
 * reaches MAX_SUPPLY, by any mint at or after REVEAL_TIMESTAMP, or by a
 * reveal-role holder in an emergency; the starting index is then derived,
 * once, from that block's hash. The block hash, the current block number
 * and the current time are parameters of the operations that read them.
 */
module Mission {
  import opened Common
  import opened Erc721
  import opened SharedToken

  /**
   * The starting index derived from a block hash: the hash modulo the
   * maximum supply, where 0 is replaced by 1 so that a set index is never 0.
   */
  function StartingIndexFrom(hash: nat, maxSupply: nat): (index: nat)
    requires maxSupply > 0
    ensures index != 0
    ensures index < maxSupply || index == 1
    ensures hash % maxSupply != 0 ==> index == hash % maxSupply
  {
    if hash % maxSupply == 0 then 1 else hash % maxSupply
  }

  /**
   * Because 0 is folded onto 1, the index 1 is reached from two residues:
   * it comes out exactly when the hash is 0 or 1 modulo the maximum supply.
   */
  lemma StartingIndexOne(hash: nat, maxSupply: nat)
    requires maxSupply > 1
    ensures StartingIndexFrom(hash, maxSupply) == 1 <==> hash % maxSupply == 0 || hash % maxSupply == 1
  {
  }

  /** Every index 1 .. maxSupply-1 is reachable: the hash i itself yields i. */
  lemma StartingIndexOnto(i: nat, maxSupply: nat)
    requires 0 < i < maxSupply
    ensures StartingIndexFrom(i, maxSupply) == i
  {
  }

  class MissionToken {
    /** The shared token rules: ownership ledger, roles and royalty. */
    const token: Token
    const maxSupply: nat
    var revealTimestamp: nat
    var provenanceHash: string
    /** 0 while no block has been committed. */
    var startingIndexBlock: nat
    /** 0 while the index has not been derived. */
    var startingIndex: nat

    /** An index is only ever derived from a committed block, and is in range. */
    ghost predicate Valid()
      reads this, token
    {
      token.Valid()
      && (startingIndex != 0 ==> startingIndexBlock != 0 && (startingIndex < maxSupply || startingIndex == 1))
    }

    /** Deployment: no block committed, no index, an empty provenance hash. */
    constructor (deployer: Address, maxSupply: nat, revealTimestamp: nat)
      requires deployer != Zero
      ensures Valid() && fresh(token)
      ensures token.ledger == Empty && token.royaltyReceiver == deployer && token.royaltyBips == 0
      ensures forall role :: token.HasRole(role, deployer)
      ensures this.maxSupply == maxSupply && this.revealTimestamp == revealTimestamp
      ensures startingIndexBlock == 0 && startingIndex == 0 && provenanceHash == ""
    {
      token := new Token(deployer);
      this.maxSupply := maxSupply;
      this.revealTimestamp := revealTimestamp;
      provenanceHash := "";
      startingIndexBlock := 0;
      startingIndex := 0;
    }

    /** The condition under which a mint commits the current block. */
    predicate RevealDue(now: nat)
      reads this, token
    {
      TotalSupply(token.ledger) >= maxSupply || now >= revealTimestamp
    }

    /**
     * safeMint(to, n) at time `now` in block `blockNumber`: the shared mint,
     * after which, if no block has been committed yet and the supply has
     * reached MAX_SUPPLY or the reveal time has come, the current block is
     * committed.
     */
    method SafeMint(caller: Address, to: Address, n: nat, now: nat, blockNumber: nat) returns (r: Outcome)
      requires Valid()
      modifies this, token
      ensures Valid()
      ensures r == (if !old(token.HasRole(Minter, caller)) then Fail(MissingRole(Minter))
                    else if n > 0 && to == Zero then Fail(MintToZero)
                    else Pass)
      ensures token.ledger == if r.Pass? then Minted(old(token.ledger), to, n) else old(token.ledger)
      ensures r.Pass? ==> TotalSupply(token.ledger) == old(TotalSupply(token.ledger)) + n
      ensures startingIndexBlock ==
                if r.Pass? && old(startingIndexBlock) == 0 && RevealDue(now) then blockNumber
                else old(startingIndexBlock)
      ensures startingIndex == old(startingIndex) && revealTimestamp == old(revealTimestamp)
      ensures provenanceHash == old(provenanceHash)
      ensures token.roles == old(token.roles) && token.royaltyReceiver == old(token.royaltyReceiver)
      ensures token.royaltyBips == old(token.royaltyBips)
    {
      r := token.SafeMint(caller, to, n);
      if r.Pass? && startingIndexBlock == 0 && RevealDue(now) {
        startingIndexBlock := blockNumber;
      }
    }

    /**
     * emergencySetStartingIndexBlock() in block `blockNumber`: a reveal-role
     * holder commits the current block, overwriting any earlier commitment,
     * as long as the index has not been derived.
     */
    method EmergencySetStartingIndexBlock(caller: Address, blockNumber: nat) returns (r: Outcome)
      requires Valid()
      modifies this
      ensures Valid()
      ensures r == (if !token.HasRole(Reveal, caller) then Fail(MissingRole(Reveal))
                    else if old(startingIndex) != 0 then Fail(StartingIndexAlreadySet)
                    else Pass)
      ensures startingIndexBlock == if r.Pass? then blockNumber else old(startingIndexBlock)
      ensures startingIndex == old(startingIndex) && revealTimestamp == old(revealTimestamp)
      ensures provenanceHash == old(provenanceHash)
    {
      if !token.HasRole(Reveal, caller) {
        return Fail(MissingRole(Reveal));
      }
      if startingIndex != 0 {
        return Fail(StartingIndexAlreadySet);
      }
      startingIndexBlock := blockNumber;
      r := Pass;
    }

    /**
     * setStartingIndex(): derives the index, once, from the hash of the
     * committed block. A MAX_SUPPLY of 0 makes the modulo fail.
     */
    method SetStartingIndex(blockHash: nat -> nat) returns (r: Outcome)
      requires Valid()
      modifies this
      ensures Valid()
      ensures r == (if old(startingIndex) != 0 then Fail(StartingIndexAlreadySet)
                    else if startingIndexBlock == 0 then Fail(StartingIndexBlockNotSet)
                    else if maxSupply == 0 then Fail(DivisionByZero)
                    else Pass)
      ensures r.Pass? ==> startingIndex == StartingIndexFrom(blockHash(startingIndexBlock), maxSupply)
      ensures r.Pass? ==> startingIndex != 0
      ensures r.Fail? ==> startingIndex == old(startingIndex)
      ensures startingIndexBlock == old(startingIndexBlock) && revealTimestamp == old(revealTimestamp)
      ensures provenanceHash == old(provenanceHash)
    {
      if startingIndex != 0 {
        return Fail(StartingIndexAlreadySet);
      }
      if startingIndexBlock == 0 {
        return Fail(StartingIndexBlockNotSet);
      }
      if maxSupply == 0 {
        return Fail(DivisionByZero);
      }
      startingIndex := StartingIndexFrom(blockHash(startingIndexBlock), maxSupply);
      r := Pass;
    }

    /** setProvenanceHash(hash): a reveal-role holder overwrites the provenance hash. */
    method SetProvenanceHash(caller: Address, hash: string) returns (r: Outcome)
      requires Valid()
      modifies this
      ensures Valid()
      ensures r == if token.HasRole(Reveal, caller) then Pass else Fail(MissingRole(Reveal))
      ensures provenanceHash == if r.Pass? then hash else old(provenanceHash)
      ensures revealTimestamp == old(revealTimestamp)
      ensures startingIndexBlock == old(startingIndexBlock) && startingIndex == old(startingIndex)
    {
      if !token.HasRole(Reveal, caller) {
        return Fail(MissingRole(Reveal));
      }
      provenanceHash := hash;
      r := Pass;
    }

    /** setRevealTimestamp(timestamp): a reveal-role holder overwrites the reveal time. */
    method SetRevealTimestamp(caller: Address, timestamp: nat) returns (r: Outcome)
      requires Valid()
      modifies this
      ensures Valid()
      ensures r == if token.HasRole(Reveal, caller) then Pass else Fail(MissingRole(Reveal))
      ensures revealTimestamp == if r.Pass? then timestamp else old(revealTimestamp)
      ensures provenanceHash == old(provenanceHash)
      ensures startingIndexBlock == old(startingIndexBlock) && startingIndex == old(startingIndex)
    {
      if !token.HasRole(Reveal, caller) {
        return Fail(MissingRole(Reveal));
      }
      revealTimestamp := timestamp;
      r := Pass;
    }
  }
}
